// ExportDirectory: reading the export table of a mapped image, the edits
// the class offers on the function list, its size and the rebuilt bytes.
module Exports {
  import opened Bytes
  import opened PeAux
  import opened LoaderErrors
  import opened ImageLoader
  import opened ExportLayout

  /** PELIB_MAX_EXPORTED_FUNCTIONS: more functions or names than this reject the table. */
  const MAX_EXPORTED_FUNCTIONS: nat := 0x1000

  /** An entry of m_occupiedAddresses: a first RVA and a last (or one-past-last) RVA. */
  type Range = (u32, u32)

  /** addOccupiedAddress: a string occupies its RVA up to one past its NUL, in 32 bits. */
  function StringRange(str: seq<u8>, rva: u32): Range
  {
    (rva, Trunc32(rva + |str| + 1))
  }

  /** A fixed-size field of `size` bytes at `rva` occupies `rva` to its last byte, in 32 bits. */
  function FieldRange(rva: nat, size: nat): Range
    requires size > 0
  {
    (Trunc32(rva), Trunc32(rva + size - 1))
  }

  /** The values f(0), ..., f(n - 1). */
  function Tabulate<T>(f: nat -> T, n: nat): (r: seq<T>)
    ensures |r| == n
  {
    if n == 0 then [] else Tabulate(f, n - 1) + [f(n - 1)]
  }

  lemma {:induction false} TabulateAt<T>(f: nat -> T, n: nat, i: nat)
    requires i < n
    ensures Tabulate(f, n)[i] == f(i)
  {
    if i < n - 1 {
      TabulateAt(f, n - 1, i);
    }
  }

  /** The state of read between two iterations: the functions so far, the ranges recorded, and whether it failed. */
  datatype ReadState = ReadState(functions: seq<ExpFuncInformation>, occupied: seq<Range>, failed: bool)

  // ---------------------------------------------------------------------
  // The export address table

  /** The RVA of the i-th entry of the export address table. */
  function FunctionSlot(ied: ExportDirectoryHeader, i: nat): u32
  {
    Trunc32(ied.AddressOfFunctions + 4 * i)
  }

  /**
   * The i-th entry of the export address table, when its four bytes can be
   * read (readImage of four bytes at that RVA returns all four).
   */
  function FunctionWord(img: seq<u8>, ied: ExportDirectoryHeader, i: nat): Option<u32>
  {
    var rva := FunctionSlot(ied, i);
    if rva + 4 <= |img| then Some(U32At(img, rva)) else None
  }

  /** The first `n` entries of the export address table. */
  /** The first `n` entries of the export address table. */
  function FunctionWords(img: seq<u8>, ied: ExportDirectoryHeader, n: nat): (r: seq<Option<u32>>)
    ensures |r| == n
  {
    Tabulate((i: nat) => FunctionWord(img, ied, i), n)
  }

  lemma FunctionWordsAt(img: seq<u8>, ied: ExportDirectoryHeader, n: nat, i: nat)
    requires i < n
    ensures FunctionWords(img, ied, n)[i] == FunctionWord(img, ied, i)
  {
    TabulateAt((i: nat) => FunctionWord(img, ied, i), n, i);
  }

  /** The record read creates for the i-th function: its RVA and the ordinal Base + i, without a name. */
  function NewFunction(ied: ExportDirectoryHeader, addr: u32, i: nat): ExpFuncInformation
  {
    ExpFuncInformation(addr, 0, Trunc16(ied.Base + i), [])
  }

  /** One iteration of the first loop of read, given what the i-th entry read. */
  function FunctionStep(ied: ExportDirectoryHeader, s: ReadState, w: Option<u32>, i: nat): ReadState
  {
    if w.None? then s.(failed := true)
    else ReadState(s.functions + [NewFunction(ied, w.value, i)], s.occupied + [FieldRange(ied.AddressOfFunctions + 4 * i, 4)], false)
  }

  /** The state after `k` iterations of the first loop over the entries `words`; once it fails, nothing more happens. */
  function FunctionsRun(ied: ExportDirectoryHeader, words: seq<Option<u32>>, k: nat): ReadState
    requires k <= |words|
  {
    if k == 0 then ReadState([], [], false)
    else
      var s := FunctionsRun(ied, words, k - 1);
      if s.failed then s else FunctionStep(ied, s, words[k - 1], k - 1)
  }

  /**
   * The first loop fails exactly when some entry cannot be read in full;
   * otherwise function i is entry i's RVA with ordinal Base + i, and one
   * range is recorded per entry.
   */
  lemma {:induction false} FunctionsRunMeaning(ied: ExportDirectoryHeader, words: seq<Option<u32>>, k: nat)
    requires k <= |words|
    ensures FunctionsRun(ied, words, k).failed <==> exists i :: 0 <= i < k && words[i].None?
    ensures var s := FunctionsRun(ied, words, k);
      !s.failed ==>
        |s.functions| == k && |s.occupied| == k &&
        forall i :: 0 <= i < k ==> words[i].Some? && s.functions[i] == NewFunction(ied, words[i].value, i)
  {
    if k > 0 {
      FunctionsRunMeaning(ied, words, k - 1);
      var s := FunctionsRun(ied, words, k - 1);
      if s.failed {
        var i :| 0 <= i < k - 1 && words[i].None?;
        assert 0 <= i < k && words[i].None?;
      }
    }
  }

  /** One more entry read in full extends the functions and the ranges by one each. */
  lemma FunctionsRunStep(ied: ExportDirectoryHeader, words: seq<Option<u32>>, i: nat)
    requires i < |words| && !FunctionsRun(ied, words, i).failed && words[i].Some?
    ensures var s := FunctionsRun(ied, words, i);
      FunctionsRun(ied, words, i + 1) ==
        ReadState(s.functions + [NewFunction(ied, words[i].value, i)], s.occupied + [FieldRange(ied.AddressOfFunctions + 4 * i, 4)], false)
  {
  }

  /** After a failure the first loop's state stays as it was. */
  lemma {:induction false} FunctionsRunSticky(ied: ExportDirectoryHeader, words: seq<Option<u32>>, j: nat, k: nat)
    requires j <= k <= |words| && FunctionsRun(ied, words, j).failed
    ensures FunctionsRun(ied, words, k) == FunctionsRun(ied, words, j)
    decreases k
  {
    if k > j {
      FunctionsRunSticky(ied, words, j, k - 1);
    }
  }

  // ---------------------------------------------------------------------
  // The name ordinal and name pointer tables

  function OrdinalSlot(ied: ExportDirectoryHeader, i: nat): u32
  {
    Trunc32(ied.AddressOfNameOrdinals + 2 * i)
  }

  function NameSlot(ied: ExportDirectoryHeader, i: nat): u32
  {
    Trunc32(ied.AddressOfNames + 4 * i)
  }

  /**
   * What the i-th iteration of the second loop of read can read: the name
   * ordinal (when its two bytes read), the name RVA (when the name pointer
   * lies below SizeOfImage and its four bytes read) and the name there.
   */
  datatype NameRead = NameRead(ordinal: Option<u16>, pointer: Option<u32>, name: seq<u8>)

  function NameReadAt(img: seq<u8>, ied: ExportDirectoryHeader, soi: u32, i: nat): NameRead
    requires |img| < TWO_32
  {
    var o := OrdinalSlot(ied, i);
    var rva := NameSlot(ied, i);
    var pointer := if rva >= soi || rva + 4 > |img| then None else Some(U32At(img, rva));
    NameRead(if o + 2 <= |img| then Some(U16At(img, o)) else None, pointer,
             if pointer.Some? then ReadString(img, pointer.value) else [])
  }

  /** The first `n` iterations' reads. */
  function NameReads(img: seq<u8>, ied: ExportDirectoryHeader, soi: u32, n: nat): (r: seq<NameRead>)
    requires |img| < TWO_32
    ensures |r| == n
  {
    Tabulate((i: nat) => NameReadAt(img, ied, soi, i), n)
  }

  lemma NameReadsAt(img: seq<u8>, ied: ExportDirectoryHeader, soi: u32, n: nat, i: nat)
    requires |img| < TWO_32 && i < n
    ensures NameReads(img, ied, soi, n)[i] == NameReadAt(img, ied, soi, i)
  {
    TabulateAt((i: nat) => NameReadAt(img, ied, soi, i), n, i);
  }

  /** Every function's ordinal is Base plus its index, in 16 bits. */
  predicate OrdinalsFromBase(ied: ExportDirectoryHeader, fs: seq<ExpFuncInformation>)
  {
    forall j :: 0 <= j < |fs| ==> fs[j].ordinal == Trunc16(ied.Base + j)
  }

  /**
   * What one iteration of the second loop of read does to the functions `fs`:
   * skip a name ordinal that indexes past the functions; otherwise reset that
   * function's ordinal to Base + ordinal and give it the name RVA and the
   * name, failing when the name RVA cannot be read. The ranges it records
   * are returned as `occupied`.
   */
  function NameDelta(ied: ExportDirectoryHeader, fs: seq<ExpFuncInformation>, e: NameRead, i: nat): ReadState
  {
    if e.ordinal.None? then ReadState(fs, [], true)
    else if e.ordinal.value >= |fs| then ReadState(fs, [FieldRange(ied.AddressOfNameOrdinals + 2 * i, 2)], false)
    else NameAssign(ied, fs, e.ordinal.value, e, i)
  }

  /** The part of a name step that updates the function the name ordinal picks. */
  function NameAssign(ied: ExportDirectoryHeader, fs: seq<ExpFuncInformation>, ordinal: nat, e: NameRead, i: nat): ReadState
    requires ordinal < |fs|
  {
    var o := FieldRange(ied.AddressOfNameOrdinals + 2 * i, 2);
    var f := fs[ordinal].(ordinal := Trunc16(ied.Base + ordinal));
    if e.pointer.None? then ReadState(fs[ordinal := f], [o], true)
    else
      ReadState(fs[ordinal := f.(addrofname := e.pointer.value, funcname := e.name)],
                [o, FieldRange(ied.AddressOfNames + 4 * i, 4), StringRange(e.name, e.pointer.value)], false)
  }

  /** One iteration of the second loop of read, its ranges appended to those recorded before. */
  function NameStep(ied: ExportDirectoryHeader, s: ReadState, e: NameRead, i: nat): ReadState
  {
    var d := NameDelta(ied, s.functions, e, i);
    ReadState(d.functions, s.occupied + d.occupied, d.failed)
  }

  /** The state after `k` iterations of the second loop, starting from the functions `fs`. */
  function NamesRun(ied: ExportDirectoryHeader, entries: seq<NameRead>, fs: seq<ExpFuncInformation>, k: nat): ReadState
    requires k <= |entries|
  {
    if k == 0 then ReadState(fs, [], false)
    else
      var s := NamesRun(ied, entries, fs, k - 1);
      if s.failed then s else NameStep(ied, s, entries[k - 1], k - 1)
  }

  /** Functions `r` differ from `fs` at most in their names and name RVAs. */
  predicate SameAddressesAndCount(fs: seq<ExpFuncInformation>, r: seq<ExpFuncInformation>)
  {
    |r| == |fs| && forall j :: 0 <= j < |fs| ==> r[j].addroffunc == fs[j].addroffunc
  }

  /**
   * A name step keeps the number of functions, every function's RVA and the
   * ordinals Base + index; a name ordinal past the functions is skipped
   * without failing and leaves the functions as they were.
   */
  lemma NameStepKeeps(ied: ExportDirectoryHeader, s: ReadState, e: NameRead, i: nat)
    requires OrdinalsFromBase(ied, s.functions)
    ensures var r := NameStep(ied, s, e, i);
      SameAddressesAndCount(s.functions, r.functions) && OrdinalsFromBase(ied, r.functions)
    ensures e.ordinal.Some? && e.ordinal.value >= |s.functions| ==>
      NameStep(ied, s, e, i) == ReadState(s.functions, s.occupied + [FieldRange(ied.AddressOfNameOrdinals + 2 * i, 2)], false)
  {
  }

  /** The whole second loop keeps the number of functions, their RVAs and their ordinals. */
  lemma {:induction false} NamesRunKeeps(ied: ExportDirectoryHeader, entries: seq<NameRead>, fs: seq<ExpFuncInformation>, k: nat)
    requires k <= |entries| && OrdinalsFromBase(ied, fs)
    ensures var r := NamesRun(ied, entries, fs, k);
      SameAddressesAndCount(fs, r.functions) && OrdinalsFromBase(ied, r.functions)
  {
    if k > 0 {
      NamesRunKeeps(ied, entries, fs, k - 1);
      var s := NamesRun(ied, entries, fs, k - 1);
      if !s.failed {
        NameStepKeeps(ied, s, entries[k - 1], k - 1);
      }
    }
  }

  /** After a failure the second loop's state stays as it was. */
  lemma {:induction false} NamesRunSticky(ied: ExportDirectoryHeader, entries: seq<NameRead>, fs: seq<ExpFuncInformation>, j: nat, k: nat)
    requires j <= k <= |entries| && NamesRun(ied, entries, fs, j).failed
    ensures NamesRun(ied, entries, fs, k) == NamesRun(ied, entries, fs, j)
    decreases k
  {
    if k > j {
      NamesRunSticky(ied, entries, fs, j, k - 1);
      assert NamesRun(ied, entries, fs, k - 1).failed;
    }
  }

  /** One more iteration of the second loop, from a state that has not failed. */
  lemma NamesRunAdvance(ied: ExportDirectoryHeader, entries: seq<NameRead>, fs0: seq<ExpFuncInformation>, i: nat,
                        fs: seq<ExpFuncInformation>, acc: seq<Range>)
    requires i < |entries| && NamesRun(ied, entries, fs0, i) == ReadState(fs, acc, false)
    ensures var d := NameDelta(ied, fs, entries[i], i);
      NamesRun(ied, entries, fs0, i + 1) == ReadState(d.functions, acc + d.occupied, d.failed)
  {
  }

  // ---------------------------------------------------------------------
  // read

  /** What read returns, the directory it stores (if any) and the ranges it records. */
  datatype ExportOutcome = ExportOutcome(result: int, dir: Option<ExpDirectory>, occupied: seq<Range>)

  /** ExportDirectory::read on the mapped image `img` whose optional header is `oh`. */
  function ExportRead(img: seq<u8>, oh: OptionalHeader): ExportOutcome
    requires |img| < TWO_32
  {
    var rva := DataDirRva(oh, DIR_EXPORT);
    var b := ReadImage(img, rva, EXPORT_DIRECTORY_SIZE);
    if rva >= oh.SizeOfImage || |b| != EXPORT_DIRECTORY_SIZE then ExportOutcome(ERROR_INVALID_FILE, None, [])
    else
      var ied := HeaderAt(b, 0);
      var occ := [FieldRange(rva, EXPORT_DIRECTORY_SIZE)];
      if ied.NumberOfFunctions > MAX_EXPORTED_FUNCTIONS || ied.NumberOfNames > MAX_EXPORTED_FUNCTIONS then
        ExportOutcome(ERROR_INVALID_FILE, None, occ)
      else
        var name := ReadString(img, ied.Name);
        var t := ReadTables(ied, name, FunctionWords(img, ied, ied.NumberOfFunctions),
                            NameReads(img, ied, oh.SizeOfImage, ied.NumberOfNames));
        t.(occupied := occ + [StringRange(name, ied.Name)] + t.occupied)
  }

  /** The two loops of read, after the header and the file name, with the ranges they record. */
  function ReadTables(ied: ExportDirectoryHeader, name: seq<u8>, words: seq<Option<u32>>, entries: seq<NameRead>): ExportOutcome
  {
    var fr := FunctionsRun(ied, words, |words|);
    if fr.failed then ExportOutcome(ERROR_INVALID_FILE, None, fr.occupied)
    else
      var nr := NamesRun(ied, entries, fr.functions, |entries|);
      var occ := fr.occupied + nr.occupied;
      if nr.failed then ExportOutcome(ERROR_INVALID_FILE, None, occ)
      else ExportOutcome(ERROR_NONE, Some(ExpDirectory(ied, name, nr.functions)), occ)
  }

  /**
   * read rejects the table when the export RVA is at or past SizeOfImage,
   * when the 40-byte header reads short, or when it declares more than
   * 0x1000 functions or names; it returns success exactly when it produces
   * a directory.
   */
  lemma ExportReadRejects(img: seq<u8>, oh: OptionalHeader)
    requires |img| < TWO_32
    ensures var o := ExportRead(img, oh); o.result == ERROR_NONE <==> o.dir.Some?
    ensures var o := ExportRead(img, oh); o.result == ERROR_NONE || o.result == ERROR_INVALID_FILE
    ensures DataDirRva(oh, DIR_EXPORT) >= oh.SizeOfImage ==> ExportRead(img, oh) == ExportOutcome(ERROR_INVALID_FILE, None, [])
    ensures var b := ReadImage(img, DataDirRva(oh, DIR_EXPORT), EXPORT_DIRECTORY_SIZE);
      (|b| == EXPORT_DIRECTORY_SIZE &&
       (HeaderAt(b, 0).NumberOfFunctions > MAX_EXPORTED_FUNCTIONS || HeaderAt(b, 0).NumberOfNames > MAX_EXPORTED_FUNCTIONS))
      ==> ExportRead(img, oh).result == ERROR_INVALID_FILE
  {
  }

  /**
   * The loops succeed only when every export address table entry reads in
   * full; the directory then holds one function per entry, with that
   * entry's RVA and the ordinal Base + its index.
   */
  lemma ReadTablesFunctions(ied: ExportDirectoryHeader, name: seq<u8>, words: seq<Option<u32>>, entries: seq<NameRead>)
    ensures var o := ReadTables(ied, name, words, entries);
      o.dir.Some? ==>
        var d := o.dir.value;
        d.ied == ied && d.name == name && |d.functions| == |words| && OrdinalsFromBase(ied, d.functions) &&
        forall i :: 0 <= i < |words| ==> words[i].Some? && d.functions[i].addroffunc == words[i].value
  {
    var fr := FunctionsRun(ied, words, |words|);
    FunctionsRunMeaning(ied, words, |words|);
    if !fr.failed {
      NamesRunKeeps(ied, entries, fr.functions, |entries|);
    }
  }

  /**
   * A directory read successfully holds the header as read, at most 0x1000
   * functions, one per export address table entry, each with the RVA in its
   * entry and the ordinal Base + its index.
   */
  lemma ExportReadFunctions(img: seq<u8>, oh: OptionalHeader)
    requires |img| < TWO_32
    ensures var o := ExportRead(img, oh);
      o.dir.Some? ==>
        var d := o.dir.value;
        var rva := DataDirRva(oh, DIR_EXPORT);
        rva < oh.SizeOfImage && d.ied == HeaderAt(ReadImage(img, rva, EXPORT_DIRECTORY_SIZE), 0) &&
        |d.functions| == d.ied.NumberOfFunctions <= MAX_EXPORTED_FUNCTIONS &&
        OrdinalsFromBase(d.ied, d.functions) &&
        forall i :: 0 <= i < |d.functions| ==> FunctionWord(img, d.ied, i) == Some(d.functions[i].addroffunc)
  {
    var rva := DataDirRva(oh, DIR_EXPORT);
    var b := ReadImage(img, rva, EXPORT_DIRECTORY_SIZE);
    if rva < oh.SizeOfImage && |b| == EXPORT_DIRECTORY_SIZE {
      var ied := HeaderAt(b, 0);
      var name := ReadString(img, ied.Name);
      ReadTablesFunctions(ied, name, FunctionWords(img, ied, ied.NumberOfFunctions),
                          NameReads(img, ied, oh.SizeOfImage, ied.NumberOfNames));
      forall i | 0 <= i < ied.NumberOfFunctions
        ensures FunctionWords(img, ied, ied.NumberOfFunctions)[i] == FunctionWord(img, ied, i)
      {
        FunctionWordsAt(img, ied, ied.NumberOfFunctions, i);
      }
    }
  }

  // ---------------------------------------------------------------------
  // The class

  /** The first index from `from` on whose function name equals `name` ignoring case, or |fs|. */
  function FirstFunctionNamed(fs: seq<ExpFuncInformation>, name: seq<u8>, from: nat): (r: nat)
    requires from <= |fs|
    ensures from <= r <= |fs|
    ensures r < |fs| ==> IsEqualNc(fs[r].funcname, name)
    ensures forall k :: from <= k < r ==> !IsEqualNc(fs[k].funcname, name)
    decreases |fs| - from
  {
    if from == |fs| || IsEqualNc(fs[from].funcname, name) then from else FirstFunctionNamed(fs, name, from + 1)
  }

  /** Reading the i-th export address table entry. */
  method FunctionEntry(img: seq<u8>, ied: ExportDirectoryHeader, i: nat) returns (w: Option<u32>)
    requires |img| < TWO_32
    ensures w == FunctionWord(img, ied, i)
  {
    var b := ReadImage(img, FunctionSlot(ied, i), 4);
    if |b| != 4 {
      return None;
    }
    w := Some(U32At(b, 0));
  }

  /** Reading the i-th name ordinal. */
  method OrdinalEntry(img: seq<u8>, ied: ExportDirectoryHeader, i: nat) returns (o: Option<u16>)
    requires |img| < TWO_32
    ensures forall soi: u32 :: o == NameReadAt(img, ied, soi, i).ordinal
  {
    var b := ReadImage(img, OrdinalSlot(ied, i), 2);
    if |b| != 2 {
      return None;
    }
    o := Some(U16At(b, 0));
  }

  /** Reading the i-th name pointer, refused at or past SizeOfImage. */
  method PointerEntry(img: seq<u8>, ied: ExportDirectoryHeader, sizeofImage: u32, i: nat) returns (p: Option<u32>)
    requires |img| < TWO_32
    ensures p == NameReadAt(img, ied, sizeofImage, i).pointer
  {
    var rva := NameSlot(ied, i);
    if rva >= sizeofImage {
      return None;
    }
    var b := ReadImage(img, rva, 4);
    ReadImageWord(img, rva);
    if |b| != 4 {
      return None;
    }
    p := Some(U32At(b, 0));
  }

  /** One iteration of read's second loop: the functions after it, the ranges it records and whether it failed. */
  method NameIteration(img: seq<u8>, ied: ExportDirectoryHeader, sizeofImage: u32, fs: seq<ExpFuncInformation>, i: nat)
    returns (fs': seq<ExpFuncInformation>, added: seq<Range>, failed: bool)
    requires |img| < TWO_32
    ensures NameDelta(ied, fs, NameReadAt(img, ied, sizeofImage, i), i) == ReadState(fs', added, failed)
  {
    var o := OrdinalEntry(img, ied, i);
    if o.None? {
      return fs, [], true;
    }
    var ordinal := o.value;
    if ordinal >= |fs| {
      return fs, [FieldRange(ied.AddressOfNameOrdinals + 2 * i, 2)], false;
    }
    fs', added, failed := NamedIteration(img, ied, sizeofImage, fs, ordinal, i);
  }

  /** The rest of that iteration once the name ordinal picks a function: its ordinal, then its name RVA and name. */
  method NamedIteration(img: seq<u8>, ied: ExportDirectoryHeader, sizeofImage: u32, fs: seq<ExpFuncInformation>,
                        ordinal: nat, i: nat)
    returns (fs': seq<ExpFuncInformation>, added: seq<Range>, failed: bool)
    requires |img| < TWO_32 && ordinal < |fs|
    ensures NameAssign(ied, fs, ordinal, NameReadAt(img, ied, sizeofImage, i), i) == ReadState(fs', added, failed)
  {
    var f := fs[ordinal].(ordinal := Trunc16(ied.Base + ordinal));
    var p := PointerEntry(img, ied, sizeofImage, i);
    if p.None? {
      return fs[ordinal := f], [FieldRange(ied.AddressOfNameOrdinals + 2 * i, 2)], true;
    }
    var addr := p.value;
    var funcname := ReadString(img, addr);
    ghost var e := NameReadAt(img, ied, sizeofImage, i);
    assert e.pointer == Some(addr) && e.name == funcname;
    fs' := fs[ordinal := f.(addrofname := addr, funcname := funcname)];
    added := [FieldRange(ied.AddressOfNameOrdinals + 2 * i, 2), FieldRange(ied.AddressOfNames + 4 * i, 4), StringRange(funcname, addr)];
    failed := false;
  }

  /** read's first loop: one function per export address table entry, stopping at the first short read. */
  method ReadFunctionTable(img: seq<u8>, ied: ExportDirectoryHeader) returns (fs: seq<ExpFuncInformation>, acc: seq<Range>, ok: bool)
    requires |img| < TWO_32
    ensures var fr := FunctionsRun(ied, FunctionWords(img, ied, ied.NumberOfFunctions), ied.NumberOfFunctions);
      ok == !fr.failed && acc == fr.occupied && (ok ==> fs == fr.functions)
  {
    ghost var words := FunctionWords(img, ied, ied.NumberOfFunctions);
    fs, acc := [], [];
    var i: nat := 0;
    while i < ied.NumberOfFunctions
      invariant i <= ied.NumberOfFunctions
      invariant FunctionsRun(ied, words, i) == ReadState(fs, acc, false)
    {
      var w := FunctionEntry(img, ied, i);
      FunctionWordsAt(img, ied, ied.NumberOfFunctions, i);
      if w.None? {
        FunctionsRunSticky(ied, words, i + 1, ied.NumberOfFunctions);
        return fs, acc, false;
      }
      FunctionsRunStep(ied, words, i);
      fs := fs + [NewFunction(ied, w.value, i)];
      acc := acc + [FieldRange(ied.AddressOfFunctions + 4 * i, 4)];
      i := i + 1;
    }
    ok := true;
  }

  /** One iteration of read's second loop, appended to the state the previous ones left. */
  method NameLoopStep(img: seq<u8>, ied: ExportDirectoryHeader, sizeofImage: u32, fs0: seq<ExpFuncInformation>,
                      ghost entries: seq<NameRead>, i: nat, fs: seq<ExpFuncInformation>, acc: seq<Range>)
    returns (fs': seq<ExpFuncInformation>, acc': seq<Range>, failed: bool)
    requires |img| < TWO_32 && i < |entries| && entries[i] == NameReadAt(img, ied, sizeofImage, i)
    requires NamesRun(ied, entries, fs0, i) == ReadState(fs, acc, false)
    ensures NamesRun(ied, entries, fs0, i + 1) == ReadState(fs', acc', failed)
  {
    var added;
    fs', added, failed := NameIteration(img, ied, sizeofImage, fs, i);
    NamesRunAdvance(ied, entries, fs0, i, fs, acc);
    acc' := acc + added;
  }

  /**
   * read's second loop: each name ordinal picks the function whose ordinal,
   * name RVA and name it sets; ordinals past the functions are skipped.
   */
  method ReadNameTable(img: seq<u8>, ied: ExportDirectoryHeader, sizeofImage: u32, fs0: seq<ExpFuncInformation>,
                       ghost entries: seq<NameRead>)
    returns (fs: seq<ExpFuncInformation>, acc: seq<Range>, ok: bool)
    requires |img| < TWO_32
    requires |entries| == ied.NumberOfNames
    requires forall j {:trigger NameReadAt(img, ied, sizeofImage, j)} :: 0 <= j < |entries| ==> entries[j] == NameReadAt(img, ied, sizeofImage, j)
    ensures var nr := NamesRun(ied, entries, fs0, ied.NumberOfNames);
      ok == !nr.failed && acc == nr.occupied && (ok ==> fs == nr.functions)
  {
    fs, acc := fs0, [];
    var i: nat := 0;
    while i < ied.NumberOfNames
      invariant i <= ied.NumberOfNames
      invariant NamesRun(ied, entries, fs0, i) == ReadState(fs, acc, false)
    {
      var fs', acc', failed := NameLoopStep(img, ied, sizeofImage, fs0, entries, i, fs, acc);
      acc := acc';
      if failed {
        NamesRunSticky(ied, entries, fs0, i + 1, ied.NumberOfNames);
        return fs', acc, false;
      }
      fs := fs';
      i := i + 1;
    }
    ok := true;
  }

  /** The two loops of read, the ranges they record and the directory they build. */
  method ReadTablesOf(img: seq<u8>, ied: ExportDirectoryHeader, sizeofImage: u32, name: seq<u8>) returns (t: ExportOutcome)
    requires |img| < TWO_32
    ensures t == ReadTables(ied, name, FunctionWords(img, ied, ied.NumberOfFunctions), NameReads(img, ied, sizeofImage, ied.NumberOfNames))
  {
    var fs, facc, ok := ReadFunctionTable(img, ied);
    if !ok {
      return ExportOutcome(ERROR_INVALID_FILE, None, facc);
    }
    ghost var entries := NameReads(img, ied, sizeofImage, ied.NumberOfNames);
    forall j | 0 <= j < |entries|
      ensures entries[j] == NameReadAt(img, ied, sizeofImage, j)
    {
      NameReadsAt(img, ied, sizeofImage, ied.NumberOfNames, j);
    }
    var fs', nacc, ok' := ReadNameTable(img, ied, sizeofImage, fs, entries);
    if !ok' {
      return ExportOutcome(ERROR_INVALID_FILE, None, facc + nacc);
    }
    t := ExportOutcome(ERROR_NONE, Some(ExpDirectory(ied, name, fs')), facc + nacc);
  }

  /** read, on values: what it returns, the directory it builds and the ranges it records, in order. */
  method ReadExportTable(img: seq<u8>, oh: OptionalHeader) returns (o: ExportOutcome)
    requires |img| < TWO_32
    ensures o == ExportRead(img, oh)
  {
    var exportRva := DataDirRva(oh, DIR_EXPORT);
    if exportRva >= oh.SizeOfImage {
      return ExportOutcome(ERROR_INVALID_FILE, None, []);
    }
    var b := ReadImage(img, exportRva, EXPORT_DIRECTORY_SIZE);
    if |b| != EXPORT_DIRECTORY_SIZE {
      return ExportOutcome(ERROR_INVALID_FILE, None, []);
    }
    var ied := HeaderAt(b, 0);
    var occ := [FieldRange(exportRva, EXPORT_DIRECTORY_SIZE)];
    if ied.NumberOfFunctions > MAX_EXPORTED_FUNCTIONS || ied.NumberOfNames > MAX_EXPORTED_FUNCTIONS {
      return ExportOutcome(ERROR_INVALID_FILE, None, occ);
    }
    var name := ReadString(img, ied.Name);
    occ := occ + [StringRange(name, ied.Name)];
    var t := ReadTablesOf(img, ied, oh.SizeOfImage, name);
    o := t.(occupied := occ + t.occupied);
  }

  // ---------------------------------------------------------------------
  // rebuild, one loop at a time

  /**
   * rebuild's first loop: the sizes of the export address table, the name
   * pointer table and the ordinal table, the last counting an ordinal for
   * every named function and for every unnamed one with an address.
   */
  method TableSizes(fs: seq<ExpFuncInformation>) returns (addrFuncs: nat, addrNames: nat, ordinals: nat)
    ensures addrFuncs == 4 * |fs| && addrNames == 4 * NamedCount(fs)
    ensures ordinals == OrdinalsSize(fs)
  {
    addrFuncs, addrNames, ordinals := 0, 0, 0;
    for i := 0 to |fs|
      invariant addrFuncs == 4 * i && addrNames == 4 * NamedCount(fs[..i])
      invariant ordinals == 2 * NamedCount(fs[..i]) + 2 * UnnamedWithAddress(fs[..i])
    {
      assert fs[..i + 1][..i] == fs[..i];
      addrFuncs := addrFuncs + 4;
      if Named(fs[i]) {
        addrNames := addrNames + 4;
        ordinals := ordinals + 2;
      } else if fs[i].addroffunc != 0 {
        ordinals := ordinals + 2;
      }
    }
    assert fs[..|fs|] == fs;
  }

  /** The rebuilt bytes are the header followed by what comes after it. */
  lemma RebuildFromParts(d: ExpDirectory, rva: u32, h: ExportDirectoryHeader, tail: seq<u8>)
    requires h == RebuildHeader(d, rva, OrdinalsSize(d.functions))
    requires tail == RebuildTail(d, Trunc32(h.Name + |d.name| + 1))
    ensures ExportLayout.Rebuild(d, rva) == EncodeHeader(h) + tail
  {
    BytesFromParts(d, rva, OrdinalsSize(d.functions), h, tail);
  }

  lemma BytesFromParts(d: ExpDirectory, rva: u32, os: nat, h: ExportDirectoryHeader, tail: seq<u8>)
    requires h == RebuildHeader(d, rva, os)
    requires tail == RebuildTail(d, Trunc32(h.Name + |d.name| + 1))
    ensures RebuildBytesWith(d, rva, os) == EncodeHeader(h) + tail
  {
  }

  /** One more function extends the name pointer table by its pointer, if it has a name. */
  lemma NamePointersStep(p: seq<ExpFuncInformation>, f: ExpFuncInformation, c0: u32)
    ensures NamePointers(p + [f], c0) == NamePointers(p, c0) + (if Named(f) then Enc32(Trunc32(c0 + NamesBytes(p))) else [])
    ensures NamesBytes(p + [f]) == NamesBytes(p) + (if Named(f) then |f.funcname| + 1 else 0)
  {
    assert (p + [f])[..|p|] == p;
  }

  /** The name pointer of the i-th function, if it has a name, and the position after its name. */
  method NamePointerOf(fs: seq<ExpFuncInformation>, c0: u32, i: nat, b: seq<u8>, advance: nat)
    returns (b': seq<u8>, advance': nat)
    requires i < |fs| && b == NamePointers(fs[..i], c0) && advance == NamesBytes(fs[..i])
    ensures b' == NamePointers(fs[..i + 1], c0) && advance' == NamesBytes(fs[..i + 1])
  {
    assert fs[..i + 1] == fs[..i] + [fs[i]];
    NamePointersStep(fs[..i], fs[i], c0);
    if Named(fs[i]) {
      b' := b + Enc32(Trunc32(c0 + advance));
      advance' := advance + |fs[i].funcname| + 1;
    } else {
      b', advance' := b, advance;
    }
  }

  /** The export address table: every function's RVA, in order. */
  method StreamAddresses(fs: seq<ExpFuncInformation>) returns (b: seq<u8>)
    ensures b == FuncAddrs(fs)
  {
    b := [];
    for i := 0 to |fs|
      invariant b == FuncAddrs(fs[..i])
    {
      assert fs[..i + 1][..i] == fs[..i];
      b := b + Enc32(fs[i].addroffunc);
    }
    assert fs[..|fs|] == fs;
  }

  /**
   * The name pointer table: a running position from `c0`, advanced past each
   * name and its NUL. The 32-bit counter's value is the exact advance from
   * `c0` taken modulo 2^32, which is how it is kept here.
   */
  method StreamNamePointers(fs: seq<ExpFuncInformation>, c0: u32) returns (b: seq<u8>)
    ensures b == NamePointers(fs, c0)
  {
    b := [];
    var advance: nat := 0;
    for i := 0 to |fs|
      invariant b == NamePointers(fs[..i], c0) && advance == NamesBytes(fs[..i])
    {
      b, advance := NamePointerOf(fs, c0, i, b, advance);
    }
    assert fs[..|fs|] == fs;
  }

  /** The ordinals of the named functions. */
  method StreamNamedOrdinals(fs: seq<ExpFuncInformation>) returns (b: seq<u8>)
    ensures b == NamedOrdinals(fs)
  {
    b := [];
    for i := 0 to |fs|
      invariant b == NamedOrdinals(fs[..i])
    {
      assert fs[..i + 1][..i] == fs[..i];
      if Named(fs[i]) {
        b := b + Enc16(fs[i].ordinal);
      }
    }
    assert fs[..|fs|] == fs;
  }

  /** The ordinals of the unnamed functions that have an address. */
  method StreamUnnamedOrdinals(fs: seq<ExpFuncInformation>) returns (b: seq<u8>)
    ensures b == UnnamedOrdinals(fs)
  {
    b := [];
    for i := 0 to |fs|
      invariant b == UnnamedOrdinals(fs[..i])
    {
      assert fs[..i + 1][..i] == fs[..i];
      if !Named(fs[i]) && fs[i].addroffunc != 0 {
        b := b + Enc16(fs[i].ordinal);
      }
    }
    assert fs[..|fs|] == fs;
  }

  /** The function names, each with its NUL. */
  method StreamNames(fs: seq<ExpFuncInformation>) returns (b: seq<u8>)
    ensures b == NameStrings(fs)
  {
    b := [];
    for i := 0 to |fs|
      invariant b == NameStrings(fs[..i])
    {
      assert fs[..i + 1][..i] == fs[..i];
      if Named(fs[i]) {
        b := b + (fs[i].funcname + [0]);
      }
    }
    assert fs[..|fs|] == fs;
  }

  /** The header rebuild writes: the tables and the file name placed back to back after it. */
  method RebuiltHeader(d: ExpDirectory, rva: u32) returns (h: ExportDirectoryHeader)
    ensures h == RebuildHeader(d, rva, OrdinalsSize(d.functions))
  {
    var fs := d.functions;
    var addrFuncs, addrNames, ordinals := TableSizes(fs);
    h := ExportDirectoryHeader(
      d.ied.Characteristics, d.ied.TimeDateStamp, d.ied.MajorVersion, d.ied.MinorVersion,
      Trunc32(rva + EXPORT_DIRECTORY_SIZE + addrFuncs + addrNames + ordinals),
      d.ied.Base, Trunc32(|fs|), Trunc32(|fs|),
      Trunc32(rva + EXPORT_DIRECTORY_SIZE),
      Trunc32(rva + EXPORT_DIRECTORY_SIZE + addrFuncs),
      Trunc32(rva + EXPORT_DIRECTORY_SIZE + addrFuncs + addrNames));
  }

  /** rebuild of the directory `d` placed at `rva`: the header, then the tables, the file name and the names. */
  method RebuildDirectory(d: ExpDirectory, rva: u32) returns (out: seq<u8>)
    ensures out == ExportLayout.Rebuild(d, rva)
  {
    var fs := d.functions;
    var h := RebuiltHeader(d, rva);
    var addrs := StreamAddresses(fs);
    var c0 := Trunc32(h.Name + |d.name| + 1);
    var pointers := StreamNamePointers(fs, c0);
    var named := StreamNamedOrdinals(fs);
    var unnamed := StreamUnnamedOrdinals(fs);
    var names := StreamNames(fs);
    var tables := pointers + named + unnamed;
    assert tables == OrdinalTables(d, c0);
    var after := tables + (d.name + [0]) + names;
    assert after == AfterAddresses(d, c0);
    var tail := addrs + after;
    assert tail == RebuildTail(d, c0);
    RebuildFromParts(d, rva, h, tail);
    out := EncodeHeader(h) + tail;
  }

  class ExportDirectory {
    /** m_ied: the header, the file name and the functions. */
    var directory: ExpDirectory
    /** m_occupiedAddresses: every range read recorded, across all reads. */
    var occupied: seq<Range>

    constructor ()
      ensures directory == EmptyExpDirectory && occupied == []
    {
      directory := EmptyExpDirectory;
      occupied := [];
    }

    /** addOccupiedAddress: record the range of a string and its NUL. */
    method AddOccupiedAddress(str: seq<u8>, rva: u32)
      modifies this
      ensures occupied == old(occupied) + [StringRange(str, rva)] && directory == old(directory)
    {
      occupied := occupied + [StringRange(str, rva)];
    }

    /**
     * read: the ranges read are recorded (also those read before a failure),
     * and the directory is replaced only on success.
     */
    method Read(img: seq<u8>, oh: OptionalHeader) returns (r: int)
      requires |img| < TWO_32
      modifies this
      ensures var o := ExportRead(img, oh);
        r == o.result && occupied == old(occupied) + o.occupied &&
        directory == (if o.dir.Some? then o.dir.value else old(directory))
    {
      var o := ReadExportTable(img, oh);
      occupied := occupied + o.occupied;
      if o.dir.Some? {
        directory := o.dir.value;
      }
      r := o.result;
    }

    /** size: the header, the file name with its NUL and every function's size, in 32-bit arithmetic. */
    method Size() returns (r: u32)
      ensures r == ExportSize(directory)
    {
      var fs := directory.functions;
      var total: u32 := 0;
      for i := 0 to |fs|
        invariant total == FuncInfoSizes(fs[..i]) % TWO_32
      {
        assert fs[..i + 1][..i] == fs[..i];
        AddStep(FuncInfoSizes(fs[..i]), total, FuncInfoSize(fs[i]));
        total := Add32(total, FuncInfoSize(fs[i]));
      }
      assert fs[..|fs|] == fs;
      AddMod(FuncInfoSizes(fs), EXPORT_DIRECTORY_SIZE + |directory.name| + 1, TWO_32);
      r := Trunc32(EXPORT_DIRECTORY_SIZE + |directory.name| + 1 + total);
    }

    /** rebuild: the bytes of the directory placed at `rva`. */
    method Rebuild(rva: u32) returns (out: seq<u8>)
      ensures out == ExportLayout.Rebuild(directory, rva)
    {
      out := RebuildDirectory(directory, rva);
    }

    /** addFunction: a function with that name and RVA, no name RVA and ordinal 0, goes at the end. */
    method AddFunction(funcname: seq<u8>, addr: u32)
      modifies this
      ensures directory == old(directory).(functions := old(directory.functions) + [ExpFuncInformation(addr, 0, 0, funcname)])
      ensures occupied == old(occupied)
    {
      directory := directory.(functions := directory.functions + [ExpFuncInformation(addr, 0, 0, funcname)]);
    }

    /** removeFunction: the index-th function goes, the others keep their order. */
    method RemoveFunction(index: nat)
      requires index < |directory.functions|
      modifies this
      ensures directory == old(directory).(functions := old(directory.functions)[..index] + old(directory.functions)[index + 1..])
      ensures occupied == old(occupied)
    {
      directory := directory.(functions := directory.functions[..index] + directory.functions[index + 1..]);
    }

    /** clear: no functions are left; the header and the file name stay. */
    method Clear()
      modifies this
      ensures directory == old(directory).(functions := []) && occupied == old(occupied)
    {
      directory := directory.(functions := []);
    }

    /** calcNumberOfFunctions: the number of functions, as a 32-bit count. */
    function CalcNumberOfFunctions(): (r: u32)
      reads this
      ensures |directory.functions| < TWO_32 ==> r == |directory.functions|
    {
      Trunc32(|directory.functions|)
    }

    /** getFunctionIndex: the first function whose name equals `name` ignoring case, or -1. */
    function GetFunctionIndex(name: seq<u8>): (r: int)
      reads this
      ensures r == -1 <==> forall k :: 0 <= k < |directory.functions| ==> !IsEqualNc(directory.functions[k].funcname, name)
      ensures r != -1 ==>
        0 <= r < |directory.functions| && IsEqualNc(directory.functions[r].funcname, name) &&
        forall k :: 0 <= k < r ==> !IsEqualNc(directory.functions[k].funcname, name)
    {
      var i := FirstFunctionNamed(directory.functions, name, 0);
      if i == |directory.functions| then -1 else i
    }
  }
}
