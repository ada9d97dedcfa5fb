// DelayImportDirectory: the table of 32-byte delay-load descriptors
// (section 5.8 of the Microsoft PE/COFF Specification), each naming a DLL, a
// delay import name table and a delay import address table, ended by a
// descriptor that fails one of the sanity checks.
module DelayImports {
  import opened Bytes
  import opened PeAux
  import opened LoaderErrors
  import opened ImageLoader
  import opened FilePages

  const DELAY_LOAD_DESCRIPTOR_SIZE: nat := 32

  /** Attributes bit 0: the descriptor holds RVAs (version 2) rather than VAs. */
  const DELAY_ATTRIBUTE_V2: u32 := 1

  /** PELIB_IMAGE_DELAY_LOAD_DESCRIPTOR. */
  datatype DelayLoadDescriptor = DelayLoadDescriptor(
    Attributes: u32,
    NameRva: u32,
    ModuleHandleRva: u32,
    DelayImportAddressTableRva: u32,
    DelayImportNameTableRva: u32,
    BoundDelayImportTableRva: u32,
    UnloadDelayImportTableRva: u32,
    TimeStamp: u32)

  const ZeroDelayLoadDescriptor: DelayLoadDescriptor := DelayLoadDescriptor(0, 0, 0, 0, 0, 0, 0, 0)

  /** PELIB_DELAY_IMPORT: one delay-loaded function. */
  datatype DelayImport = DelayImport(address: u64, hint: u16, fname: seq<u8>)

  /**
   * PELIB_IMAGE_DELAY_IMPORT_DIRECTORY_RECORD. The directory keeps its
   * records by value, so the record is a value and its mutators return the
   * updated record.
   */
  datatype DelayImportRecord = DelayImportRecord(
    hasOrdinalNumbers: bool,
    Functions: seq<DelayImport>,
    delayedImport: DelayLoadDescriptor,
    Name: seq<u8>)

  predicate HasHint(fs: seq<DelayImport>)
  {
    exists i :: 0 <= i < |fs| && fs[i].hint != 0
  }

  /** The ordinal flag is up exactly when some function carries a nonzero hint. */
  predicate RecordValid(rec: DelayImportRecord)
  {
    rec.hasOrdinalNumbers <==> HasHint(rec.Functions)
  }

  /** init: a zeroed descriptor, no name, no functions, the flag down. */
  function InitRecord(): (r: DelayImportRecord)
    ensures RecordValid(r) && r.Functions == [] && r.Name == []
    ensures r.delayedImport == ZeroDelayLoadDescriptor
  {
    DelayImportRecord(false, [], ZeroDelayLoadDescriptor, [])
  }

  /** addFunction: append; a nonzero hint raises the ordinal flag for good. */
  function AddFunction(rec: DelayImportRecord, f: DelayImport): (r: DelayImportRecord)
    ensures r.Functions == rec.Functions + [f]
    ensures r.hasOrdinalNumbers <==> rec.hasOrdinalNumbers || f.hint != 0
    ensures r.delayedImport == rec.delayedImport && r.Name == rec.Name
    ensures RecordValid(rec) ==> RecordValid(r)
  {
    var r := rec.(Functions := rec.Functions + [f], hasOrdinalNumbers := rec.hasOrdinalNumbers || f.hint != 0);
    assert r.Functions[|rec.Functions|] == f;
    assert forall i :: 0 <= i < |rec.Functions| ==> r.Functions[i] == rec.Functions[i];
    r
  }

  /** getFunction: the i-th function, or nothing (a null pointer) out of range. */
  function GetFunction(rec: DelayImportRecord, i: nat): (r: Option<DelayImport>)
    ensures r.Some? <==> i < |rec.Functions|
    ensures r.Some? ==> r.value == rec.Functions[i]
  {
    if i < |rec.Functions| then Some(rec.Functions[i]) else None
  }

  // ---------------------------------------------------------------------
  // Pure helpers

  /**
   * normalizeDelayImportValue: a nonzero value above the image base is a VA
   * and becomes an RVA; zero and values at or below the base are kept.
   */
  function NormalizeDelayImportValue(imageBase: u64, va: u64): (r: u64)
    ensures r <= va
    ensures r == va || r + imageBase == va
  {
    if va != 0 && va > imageBase then va - imageBase else va
  }

  /** A VA inside the image normalizes to its RVA; an RVA at or below the image base is kept. */
  lemma NormalizeRecoversRva(imageBase: u64, rva: u64)
    ensures 0 < rva && imageBase + rva < TWO_64 ==> NormalizeDelayImportValue(imageBase, imageBase + rva) == rva
    ensures rva <= imageBase ==> NormalizeDelayImportValue(imageBase, rva) == rva
  {
  }

  /** normalize32BitDelayImport: the six RVA fields normalized; Attributes and TimeStamp kept. */
  function Normalize32BitDelayImport(d: DelayLoadDescriptor, imageBase: u32): (r: DelayLoadDescriptor)
    ensures r.Attributes == d.Attributes && r.TimeStamp == d.TimeStamp
    ensures r.NameRva as u64 == NormalizeDelayImportValue(imageBase, d.NameRva)
    ensures r.ModuleHandleRva as u64 == NormalizeDelayImportValue(imageBase, d.ModuleHandleRva)
    ensures r.DelayImportAddressTableRva as u64 == NormalizeDelayImportValue(imageBase, d.DelayImportAddressTableRva)
    ensures r.DelayImportNameTableRva as u64 == NormalizeDelayImportValue(imageBase, d.DelayImportNameTableRva)
    ensures r.BoundDelayImportTableRva as u64 == NormalizeDelayImportValue(imageBase, d.BoundDelayImportTableRva)
    ensures r.UnloadDelayImportTableRva as u64 == NormalizeDelayImportValue(imageBase, d.UnloadDelayImportTableRva)
  {
    d.(NameRva := NormalizeDelayImportValue(imageBase, d.NameRva) as u32,
       ModuleHandleRva := NormalizeDelayImportValue(imageBase, d.ModuleHandleRva) as u32,
       DelayImportAddressTableRva := NormalizeDelayImportValue(imageBase, d.DelayImportAddressTableRva) as u32,
       DelayImportNameTableRva := NormalizeDelayImportValue(imageBase, d.DelayImportNameTableRva) as u32,
       BoundDelayImportTableRva := NormalizeDelayImportValue(imageBase, d.BoundDelayImportTableRva) as u32,
       UnloadDelayImportTableRva := NormalizeDelayImportValue(imageBase, d.UnloadDelayImportTableRva) as u32)
  }

  /** isTerminationEntry: every field is zero. */
  predicate IsTerminationEntry(d: DelayLoadDescriptor)
  {
    d.Attributes == 0 && d.NameRva == 0 && d.ModuleHandleRva == 0 && d.DelayImportAddressTableRva == 0 &&
    d.DelayImportNameTableRva == 0 && d.BoundDelayImportTableRva == 0 && d.UnloadDelayImportTableRva == 0 &&
    d.TimeStamp == 0
  }

  lemma TerminationEntryIsZero(d: DelayLoadDescriptor)
    ensures IsTerminationEntry(d) <==> d == ZeroDelayLoadDescriptor
  {
  }

  /**
   * The termination check is never what ends the table: a descriptor that
   * passes the check on NameRva before it has a nonzero NameRva.
   */
  lemma TerminationCheckSubsumed(d: DelayLoadDescriptor)
    requires !(d.NameRva < DOS_HEADER_SIZE as u32)
    ensures !IsTerminationEntry(d)
  {
  }

  /** The descriptor as read into a zeroed record: bytes short of 32 stay zero. */
  function DescriptorFrom(raw: seq<u8>): (d: DelayLoadDescriptor)
    requires |raw| <= DELAY_LOAD_DESCRIPTOR_SIZE
  {
    var b := raw + Zeros(DELAY_LOAD_DESCRIPTOR_SIZE - |raw|);
    DelayLoadDescriptor(U32At(b, 0), U32At(b, 4), U32At(b, 8), U32At(b, 12),
      U32At(b, 16), U32At(b, 20), U32At(b, 24), U32At(b, 28))
  }

  // ---------------------------------------------------------------------
  // The tables one descriptor points at

  /** A successful pointer read at `rva` lies inside the image. */
  lemma PointerReadInImage(img: seq<u8>, oh: OptionalHeader, rva: u32)
    requires |img| < TWO_32
    requires ReadPointer(img, oh, rva).Some?
    ensures rva + PointerSize(oh) <= |img|
  {
  }

  /**
   * The delay import name table at `rva`: pointer-sized entries up to the
   * first zero one; None (ERROR_INVALID_FILE) when an entry cannot be read.
   */
  function NameTable(img: seq<u8>, oh: OptionalHeader, rva: u32): (r: Option<seq<u64>>)
    requires |img| < TWO_32
    decreases |img| - rva
  {
    var p := ReadPointer(img, oh, rva);
    if p.None? then None
    else if p.value == 0 then Some([])
    else
      PointerReadInImage(img, oh, rva);
      Prepend([p.value], NameTable(img, oh, Add32(rva, PointerSize(oh) as u32)))
  }

  /**
   * The delay import address table at `rva`: at most `n` entries, up to the
   * first zero one; None when an entry cannot be read.
   */
  function AddressTable(img: seq<u8>, oh: OptionalHeader, rva: u32, n: nat): (r: Option<seq<u64>>)
    requires |img| < TWO_32
    decreases n
  {
    if n == 0 then Some([])
    else
      var p := ReadPointer(img, oh, rva);
      if p.None? then None
      else if p.value == 0 then Some([])
      else Prepend([p.value], AddressTable(img, oh, Add32(rva, PointerSize(oh) as u32), n - 1))
  }

  /** The RVA of entry `k` of a pointer table at `rva`; RVAs wrap at 32 bits. */
  function EntryRva(oh: OptionalHeader, rva: u32, k: nat): u32
  {
    Trunc32(rva + k * PointerSize(oh))
  }

  lemma EntryRvaNext(oh: OptionalHeader, rva: u32, k: nat)
    ensures EntryRva(oh, Add32(rva, PointerSize(oh) as u32), k) == EntryRva(oh, rva, k + 1)
  {
    var ps := PointerSize(oh);
    AddMod(rva + ps, k * ps, TWO_32);
    assert rva + ps + k * ps == rva + (k + 1) * ps;
  }

  /** Entry `k` of a pointer table at `rva`: the pointer read after stepping over `k` entries. */
  function EntryAt(img: seq<u8>, oh: OptionalHeader, rva: u32, k: nat): Option<u64>
    requires |img| < TWO_32
    decreases k
  {
    if k == 0 then ReadPointer(img, oh, rva)
    else EntryAt(img, oh, Add32(rva, PointerSize(oh) as u32), k - 1)
  }

  /** Entry `k` is the pointer at the 32-bit RVA `rva + k * PointerSize`. */
  lemma {:induction false} EntryAtRva(img: seq<u8>, oh: OptionalHeader, rva: u32, k: nat)
    requires |img| < TWO_32
    ensures EntryAt(img, oh, rva, k) == ReadPointer(img, oh, EntryRva(oh, rva, k))
    decreases k
  {
    if k == 0 {
      assert EntryRva(oh, rva, 0) == rva;
    } else {
      EntryAtRva(img, oh, Add32(rva, PointerSize(oh) as u32), k - 1);
      EntryRvaNext(oh, rva, k - 1);
    }
  }

  /** `t` holds the entries read at the start of the table at `rva`, none of them zero. */
  predicate EntriesRead(img: seq<u8>, oh: OptionalHeader, rva: u32, t: seq<u64>)
    requires |img| < TWO_32
  {
    forall k :: 0 <= k < |t| ==> EntryAt(img, oh, rva, k) == Some(t[k]) && t[k] != 0
  }

  /** A nonzero entry read at `rva`, in front of the entries read from the next one on. */
  lemma EntriesReadPrepend(img: seq<u8>, oh: OptionalHeader, rva: u32, x: u64, rest: seq<u64>)
    requires |img| < TWO_32
    requires ReadPointer(img, oh, rva) == Some(x) && x != 0
    requires EntriesRead(img, oh, Add32(rva, PointerSize(oh) as u32), rest)
    ensures EntriesRead(img, oh, rva, [x] + rest)
  {
    var t := [x] + rest;
    forall k | 0 <= k < |t|
      ensures EntryAt(img, oh, rva, k) == Some(t[k]) && t[k] != 0
    {
      if k > 0 {
        assert t[k] == rest[k - 1];
      }
    }
  }

  /**
   * The name table holds the pointers read one after the other from `rva`
   * up to, and not including, the first zero one; it is None exactly when
   * an entry before that cannot be read.
   */
  lemma {:induction false} NameTableMeaning(img: seq<u8>, oh: OptionalHeader, rva: u32)
    requires |img| < TWO_32
    ensures var t := NameTable(img, oh, rva);
      (t.Some? ==> EntriesRead(img, oh, rva, t.value) && EntryAt(img, oh, rva, |t.value|) == Some(0)) &&
      (t.None? ==> exists k :: EntryAt(img, oh, rva, k).None?)
    decreases |img| - rva
  {
    var p := ReadPointer(img, oh, rva);
    assert EntryAt(img, oh, rva, 0) == p;
    if p.Some? && p.value != 0 {
      PointerReadInImage(img, oh, rva);
      var next := Add32(rva, PointerSize(oh) as u32);
      NameTableMeaning(img, oh, next);
      var rest := NameTable(img, oh, next);
      if rest.Some? {
        EntriesReadPrepend(img, oh, rva, p.value, rest.value);
        assert EntryAt(img, oh, rva, |rest.value| + 1) == EntryAt(img, oh, next, |rest.value|);
      } else {
        var k: nat :| EntryAt(img, oh, next, k).None?;
        assert EntryAt(img, oh, rva, k + 1) == EntryAt(img, oh, next, k);
      }
    }
  }

  /**
   * The address table holds at most `n` pointers, read one after the other
   * from `rva`; it is short of `n` only at a zero pointer.
   */
  lemma {:induction false} AddressTableMeaning(img: seq<u8>, oh: OptionalHeader, rva: u32, n: nat)
    requires |img| < TWO_32
    ensures var t := AddressTable(img, oh, rva, n);
      t.Some? ==> |t.value| <= n && EntriesRead(img, oh, rva, t.value) &&
                  (|t.value| < n ==> EntryAt(img, oh, rva, |t.value|) == Some(0))
    decreases n
  {
    if n > 0 {
      var p := ReadPointer(img, oh, rva);
      if p.Some? && p.value != 0 {
        var next := Add32(rva, PointerSize(oh) as u32);
        AddressTableMeaning(img, oh, next, n - 1);
        var rest := AddressTable(img, oh, next, n - 1);
        if rest.Some? {
          EntriesReadPrepend(img, oh, rva, p.value, rest.value);
          assert EntryAt(img, oh, rva, |rest.value| + 1) == EntryAt(img, oh, next, |rest.value|);
        }
      }
    }
  }

  /** The address table is None exactly when one of its first `n` entries, before a zero one, cannot be read. */
  lemma {:induction false} AddressTableFails(img: seq<u8>, oh: OptionalHeader, rva: u32, n: nat)
    requires |img| < TWO_32
    ensures AddressTable(img, oh, rva, n).None? ==> exists k :: 0 <= k < n && EntryAt(img, oh, rva, k).None?
    decreases n
  {
    if n > 0 {
      var p := ReadPointer(img, oh, rva);
      assert EntryAt(img, oh, rva, 0) == p;
      if p.Some? && p.value != 0 {
        var next := Add32(rva, PointerSize(oh) as u32);
        AddressTableFails(img, oh, next, n - 1);
        if AddressTable(img, oh, next, n - 1).None? {
          var k: nat :| k < n - 1 && EntryAt(img, oh, next, k).None?;
          assert EntryAt(img, oh, rva, k + 1) == EntryAt(img, oh, next, k);
        }
      }
    }
  }

  /**
   * One function of the merge: an import by name (ordinal bit clear) reads
   * its hint and name at the name address, normalized first for old-format
   * descriptors; an import by ordinal takes the low 16 bits as its hint. A
   * function address inside the image is turned into an RVA. None stands
   * for a hint that cannot be read, which ends the merge.
   */
  function ImportOf(img: seq<u8>, oh: OptionalHeader, attributes: u32, nameAddress: u64, funcAddress: u64): (r: Option<DelayImport>)
    requires |img| < TWO_32
  {
    var imageBase := oh.ImageBase;
    var address := if imageBase <= funcAddress < Add64(imageBase, oh.SizeOfImage) then funcAddress - imageBase else funcAddress;
    if BitAnd(nameAddress, OrdinalMask(oh)) == 0 then
      var at := if BitAnd(attributes, DELAY_ATTRIBUTE_V2) == 0 then NormalizeDelayImportValue(imageBase, nameAddress) else nameAddress;
      var hint := ReadImage(img, Trunc32(at), 2);
      if |hint| != 2 then None
      else Some(DelayImport(address, U16At(hint, 0), ReadStringUpTo(img, Trunc32(Add64(at, 2)), IMPORT_SYMBOL_MAX_LENGTH)))
    else Some(DelayImport(address, Trunc16(nameAddress), []))
  }

  /** The values of `s` from position `i` on, up to its first None. */
  function SomePrefix<T>(s: seq<Option<T>>, i: nat): (r: seq<T>)
    decreases |s| - i
  {
    if i >= |s| || s[i].None? then [] else [s[i].value] + SomePrefix(s, i + 1)
  }

  /**
   * SomePrefix keeps the values in order and stops exactly at the first
   * None: it has every entry from `i` on when none is None.
   */
  lemma {:induction false} SomePrefixMeaning<T>(s: seq<Option<T>>, i: nat)
    requires i <= |s|
    ensures var r := SomePrefix(s, i);
      |r| <= |s| - i &&
      (forall k :: 0 <= k < |r| ==> s[i + k] == Some(r[k])) &&
      (|r| < |s| - i ==> s[i + |r|].None?)
    decreases |s| - i
  {
    if i < |s| && s[i].Some? {
      SomePrefixMeaning(s, i + 1);
      var r := SomePrefix(s, i);
      forall k | 0 <= k < |r|
        ensures s[i + k] == Some(r[k])
      {
        if k > 0 {
          assert r[k] == SomePrefix(s, i + 1)[k - 1];
        }
      }
    }
  }

  /** The candidate function of each of the first min(|names|, |funcs|) pairs. */
  function Imports(img: seq<u8>, oh: OptionalHeader, attributes: u32, names: seq<u64>, funcs: seq<u64>): (r: seq<Option<DelayImport>>)
    requires |img| < TWO_32
    ensures |r| <= |names| && |r| <= |funcs|
    ensures |r| == |names| || |r| == |funcs|
  {
    var n := if |names| <= |funcs| then |names| else |funcs|;
    seq(n, k requires 0 <= k < n => ImportOf(img, oh, attributes, names[k], funcs[k]))
  }

  /** The functions a record gets: the pairs in order, up to the first unreadable hint. */
  function Merged(img: seq<u8>, oh: OptionalHeader, attributes: u32, names: seq<u64>, funcs: seq<u64>): seq<DelayImport>
    requires |img| < TWO_32
  {
    SomePrefix(Imports(img, oh, attributes, names, funcs), 0)
  }

  /**
   * The merge has at most min(|names|, |funcs|) functions, the k-th made
   * from the k-th pair, and is short only where a hint cannot be read.
   */
  lemma MergedMeaning(img: seq<u8>, oh: OptionalHeader, attributes: u32, names: seq<u64>, funcs: seq<u64>)
    requires |img| < TWO_32
    ensures var r := Merged(img, oh, attributes, names, funcs);
      |r| <= |names| && |r| <= |funcs| &&
      (forall k :: 0 <= k < |r| ==> ImportOf(img, oh, attributes, names[k], funcs[k]) == Some(r[k])) &&
      (|r| < |names| && |r| < |funcs| ==> ImportOf(img, oh, attributes, names[|r|], funcs[|r|]).None?)
  {
    var s := Imports(img, oh, attributes, names, funcs);
    SomePrefixMeaning(s, 0);
    var r := Merged(img, oh, attributes, names, funcs);
    assert forall k :: 0 <= k < |r| ==> s[0 + k] == Some(r[k]);
  }

  // ---------------------------------------------------------------------
  // One descriptor, and the whole table

  datatype DescriptorOutcome =
    | EndOfTable
    | Invalid
    | Record(rec: DelayImportRecord)

  /** Whether a descriptor read from the image ends the table. */
  predicate EndsTable(d: DelayLoadDescriptor)
  {
    d.Attributes > DELAY_ATTRIBUTE_V2 ||
    d.NameRva < DOS_HEADER_SIZE as u32 || d.DelayImportNameTableRva < DOS_HEADER_SIZE as u32 ||
    IsTerminationEntry(d)
  }

  /** The descriptor as used: old-format descriptors of 32-bit images normalized. */
  function Normalized(oh: OptionalHeader, d: DelayLoadDescriptor): DelayLoadDescriptor
  {
    if ImageBitability(oh) == 32 && BitAnd(d.Attributes, DELAY_ATTRIBUTE_V2) == 0
    then Normalize32BitDelayImport(d, Trunc32(oh.ImageBase))
    else d
  }

  /** One pass of read's descriptor loop, for the descriptor at `at`. */
  function DescriptorStep(img: seq<u8>, oh: OptionalHeader, at: u32): (r: DescriptorOutcome)
    requires |img| < TWO_32
  {
    var raw := ReadImage(img, at, DELAY_LOAD_DESCRIPTOR_SIZE as u32);
    if |raw| == 0 then EndOfTable
    else
      var d := DescriptorFrom(raw);
      if EndsTable(d) then EndOfTable
      else
        var n := Normalized(oh, d);
        if n.DelayImportNameTableRva >= oh.SizeOfImage || n.DelayImportAddressTableRva >= oh.SizeOfImage then Invalid
        else
          var names := NameTable(img, oh, n.DelayImportNameTableRva);
          if names.None? then Invalid
          else
            var funcs := AddressTable(img, oh, n.DelayImportAddressTableRva, |names.value|);
            if funcs.None? then Invalid
            else
              var fs := Merged(img, oh, n.Attributes, names.value, funcs.value);
              Record(DelayImportRecord(HasHint(fs), fs, n, ReadStringUpTo(img, n.NameRva, IMPORT_LIBRARY_MAX_LENGTH)))
  }

  /** The records read so far and whether the loop ended without ERROR_INVALID_FILE. */
  datatype ReadResult = ReadResult(records: seq<DelayImportRecord>, ok: bool)

  /**
   * read's descriptor loop, from the descriptor `i` bytes into the table at
   * `rva`: one descriptor every 32 bytes until one lies outside the image,
   * ends the table or is invalid.
   */
  function Records(img: seq<u8>, oh: OptionalHeader, rva: u32, i: nat): (r: ReadResult)
    requires |img| < TWO_32
    decreases oh.SizeOfImage - (rva + i), 2
  {
    if rva + i >= oh.SizeOfImage then ReadResult([], true)
    else RecordsInImage(img, oh, rva, i)
  }

  /** The loop at a descriptor inside the image, whose RVA is the 32-bit `rva + i`. */
  function RecordsInImage(img: seq<u8>, oh: OptionalHeader, rva: u32, i: nat): (r: ReadResult)
    requires |img| < TWO_32 && rva + i < oh.SizeOfImage
    decreases oh.SizeOfImage - (rva + i), 1
  {
    RecordsAtDescriptor(img, oh, rva, i, (rva + i) as u32)
  }

  /** The loop at the descriptor at `at`: it stops, fails, or keeps the record and goes on 32 bytes further. */
  function RecordsAtDescriptor(img: seq<u8>, oh: OptionalHeader, rva: u32, i: nat, at: u32): (r: ReadResult)
    requires |img| < TWO_32 && rva + i < oh.SizeOfImage && at as nat == rva + i
    decreases oh.SizeOfImage - (rva + i), 0
  {
    match DescriptorStep(img, oh, at)
    case EndOfTable => ReadResult([], true)
    case Invalid => ReadResult([], false)
    case Record(rec) =>
      var rest := Records(img, oh, rva, i + DELAY_LOAD_DESCRIPTOR_SIZE);
      ReadResult([rec] + rest.records, rest.ok)
  }

  function Glue(acc: seq<DelayImportRecord>, r: ReadResult): ReadResult
  {
    ReadResult(acc + r.records, r.ok)
  }

  /** Records past the end of the image: nothing more, no error. */
  lemma RecordsPastImage(img: seq<u8>, oh: OptionalHeader, rva: u32, i: nat)
    requires |img| < TWO_32
    requires rva + i >= oh.SizeOfImage
    ensures Records(img, oh, rva, i) == ReadResult([], true)
  {
  }

  /** Records one descriptor at a time, given what the descriptor at `rva + i` gives. */
  lemma RecordsUnfold(img: seq<u8>, oh: OptionalHeader, rva: u32, i: nat, o: DescriptorOutcome)
    requires |img| < TWO_32
    requires rva + i < oh.SizeOfImage && o == DescriptorStep(img, oh, (rva + i) as u32)
    ensures o.EndOfTable? ==> Records(img, oh, rva, i) == ReadResult([], true)
    ensures o.Invalid? ==> Records(img, oh, rva, i) == ReadResult([], false)
    ensures o.Record? ==> Records(img, oh, rva, i) == Glue([o.rec], Records(img, oh, rva, i + DELAY_LOAD_DESCRIPTOR_SIZE))
  {
    assert RecordsInImage(img, oh, rva, i) == RecordsAtDescriptor(img, oh, rva, i, (rva + i) as u32);
  }

  lemma GlueEmpty(records: seq<DelayImportRecord>, ok: bool)
    ensures Glue(records, ReadResult([], ok)) == ReadResult(records, ok)
  {
    assert records + [] == records;
  }

  lemma GlueGlue(a: seq<DelayImportRecord>, b: seq<DelayImportRecord>, r: ReadResult)
    ensures Glue(a, Glue(b, r)) == Glue(a + b, r)
  {
    ConcatAssoc(a, b, r.records);
  }

  lemma GlueNil(r: ReadResult)
    ensures Glue([], r) == r
  {
    assert [] + r.records == r.records;
  }

  // ---------------------------------------------------------------------
  // Properties of read

  /**
   * A descriptor ends the table exactly when nothing of it can be read, its
   * Attributes are above 1, or its NameRva or DelayImportNameTableRva is
   * below 64; the termination check adds nothing.
   */
  lemma DescriptorStopRules(img: seq<u8>, oh: OptionalHeader, at: u32)
    requires |img| < TWO_32
    ensures var raw := ReadImage(img, at, DELAY_LOAD_DESCRIPTOR_SIZE as u32);
      DescriptorStep(img, oh, at).EndOfTable? <==>
        |raw| == 0 ||
        (var d := DescriptorFrom(raw);
         d.Attributes > DELAY_ATTRIBUTE_V2 || d.NameRva < DOS_HEADER_SIZE as u32 || d.DelayImportNameTableRva < DOS_HEADER_SIZE as u32)
  {
    var raw := ReadImage(img, at, DELAY_LOAD_DESCRIPTOR_SIZE as u32);
    if |raw| != 0 && !(DescriptorFrom(raw).NameRva < DOS_HEADER_SIZE as u32) {
      TerminationCheckSubsumed(DescriptorFrom(raw));
    }
  }

  /**
   * What a stored record holds: the normalized descriptor, both of whose
   * tables start inside the image; the DLL name; and at most
   * min(|names|, |funcs|) functions, one per pair in order, so that the flag
   * agrees with the hints.
   */
  lemma DescriptorRecord(img: seq<u8>, oh: OptionalHeader, at: u32)
    requires |img| < TWO_32
    requires DescriptorStep(img, oh, at).Record?
    ensures var raw := ReadImage(img, at, DELAY_LOAD_DESCRIPTOR_SIZE as u32);
      var rec := DescriptorStep(img, oh, at).rec;
      var n := rec.delayedImport;
      0 < |raw| && n == Normalized(oh, DescriptorFrom(raw)) &&
      n.DelayImportNameTableRva < oh.SizeOfImage && n.DelayImportAddressTableRva < oh.SizeOfImage &&
      rec.Name == ReadStringUpTo(img, n.NameRva, IMPORT_LIBRARY_MAX_LENGTH) &&
      RecordValid(rec) &&
      var names := NameTable(img, oh, n.DelayImportNameTableRva).value;
      var funcs := AddressTable(img, oh, n.DelayImportAddressTableRva, |names|).value;
      |rec.Functions| <= |funcs| <= |names| &&
      forall k :: 0 <= k < |rec.Functions| ==> ImportOf(img, oh, n.Attributes, names[k], funcs[k]) == Some(rec.Functions[k])
  {
    var raw := ReadImage(img, at, DELAY_LOAD_DESCRIPTOR_SIZE as u32);
    var n := Normalized(oh, DescriptorFrom(raw));
    var names := NameTable(img, oh, n.DelayImportNameTableRva).value;
    AddressTableMeaning(img, oh, n.DelayImportAddressTableRva, |names|);
    var funcs := AddressTable(img, oh, n.DelayImportAddressTableRva, |names|).value;
    MergedMeaning(img, oh, n.Attributes, names, funcs);
  }

  /** A record as read keeps: its flag agrees with its hints and both its tables start inside the image. */
  predicate WellRead(rec: DelayImportRecord, sizeOfImage: u32)
  {
    RecordValid(rec) &&
    rec.delayedImport.DelayImportNameTableRva < sizeOfImage &&
    rec.delayedImport.DelayImportAddressTableRva < sizeOfImage
  }

  lemma StepRecordValid(img: seq<u8>, oh: OptionalHeader, at: u32)
    requires |img| < TWO_32
    requires DescriptorStep(img, oh, at).Record?
    ensures WellRead(DescriptorStep(img, oh, at).rec, oh.SizeOfImage)
  {
  }

  predicate AllWellRead(rs: seq<DelayImportRecord>, sizeOfImage: u32)
  {
    forall k :: 0 <= k < |rs| ==> WellRead(rs[k], sizeOfImage)
  }

  lemma AllWellReadCons(rec: DelayImportRecord, rest: seq<DelayImportRecord>, sizeOfImage: u32)
    requires WellRead(rec, sizeOfImage) && AllWellRead(rest, sizeOfImage)
    ensures AllWellRead([rec] + rest, sizeOfImage)
  {
    var rs := [rec] + rest;
    forall k | 0 <= k < |rs|
      ensures WellRead(rs[k], sizeOfImage)
    {
      if k > 0 {
        assert rs[k] == rest[k - 1];
      }
    }
  }

  /** The first record read from `rva + i` on, if any, is well read, and the rest are read from the next descriptor. */
  lemma RecordsHead(img: seq<u8>, oh: OptionalHeader, rva: u32, i: nat)
    requires |img| < TWO_32
    requires rva + i < oh.SizeOfImage
    ensures var r := Records(img, oh, rva, i);
      r.records == [] ||
      (WellRead(r.records[0], oh.SizeOfImage) && r == Glue([r.records[0]], Records(img, oh, rva, i + DELAY_LOAD_DESCRIPTOR_SIZE)))
  {
    var o := DescriptorStep(img, oh, (rva + i) as u32);
    RecordsUnfold(img, oh, rva, i, o);
    if o.Record? {
      StepRecordValid(img, oh, (rva + i) as u32);
    }
  }

  /** Every record read has its flag in agreement with its hints and both its tables inside the image. */
  lemma {:induction false} RecordsValid(img: seq<u8>, oh: OptionalHeader, rva: u32, i: nat)
    requires |img| < TWO_32
    ensures AllWellRead(Records(img, oh, rva, i).records, oh.SizeOfImage)
    decreases oh.SizeOfImage - (rva + i)
  {
    if rva + i < oh.SizeOfImage {
      RecordsHead(img, oh, rva, i);
      var r := Records(img, oh, rva, i);
      if r.records != [] {
        RecordsValid(img, oh, rva, i + DELAY_LOAD_DESCRIPTOR_SIZE);
        AllWellReadCons(r.records[0], Records(img, oh, rva, i + DELAY_LOAD_DESCRIPTOR_SIZE).records, oh.SizeOfImage);
      }
    }
  }

  // ---------------------------------------------------------------------
  // read's loops

  /** The name-table loop: read pointers until a zero one, failing when one cannot be read. */
  method ReadNameTable(img: seq<u8>, oh: OptionalHeader, start: u32) returns (r: Option<seq<u64>>)
    requires |img| < TWO_32
    ensures r == NameTable(img, oh, start)
  {
    var nameAddresses: seq<u64> := [];
    var rva2 := start;
    PrependNil(NameTable(img, oh, start));
    while true
      invariant NameTable(img, oh, start) == Prepend(nameAddresses, NameTable(img, oh, rva2))
      decreases |img| - rva2
    {
      var nameAddress := ReadPointer(img, oh, rva2);
      if nameAddress.None? {
        return None;
      }
      PointerReadInImage(img, oh, rva2);
      var next := Add32(rva2, PointerSize(oh) as u32);
      if nameAddress.value == 0 {
        assert nameAddresses + [] == nameAddresses;
        return Some(nameAddresses);
      }
      PrependPrepend(nameAddresses, [nameAddress.value], NameTable(img, oh, next));
      nameAddresses := nameAddresses + [nameAddress.value];
      rva2 := next;
    }
  }

  /** The address-table loop: at most `n` pointers, up to a zero one, failing when one cannot be read. */
  method ReadAddressTable(img: seq<u8>, oh: OptionalHeader, start: u32, n: nat) returns (r: Option<seq<u64>>)
    requires |img| < TWO_32
    ensures r == AddressTable(img, oh, start, n)
  {
    var funcAddresses: seq<u64> := [];
    var rva2 := start;
    PrependNil(AddressTable(img, oh, start, n));
    for i := 0 to n
      invariant AddressTable(img, oh, start, n) == Prepend(funcAddresses, AddressTable(img, oh, rva2, n - i))
    {
      var funcAddress := ReadPointer(img, oh, rva2);
      if funcAddress.None? {
        return None;
      }
      var next := Add32(rva2, PointerSize(oh) as u32);
      if funcAddress.value == 0 {
        assert funcAddresses + [] == funcAddresses;
        return Some(funcAddresses);
      }
      PrependPrepend(funcAddresses, [funcAddress.value], AddressTable(img, oh, next, n - i - 1));
      funcAddresses := funcAddresses + [funcAddress.value];
      rva2 := next;
    }
    assert funcAddresses + [] == funcAddresses;
    r := Some(funcAddresses);
  }

  /** The merge loop: add the first min(|names|, |funcs|) functions to `rec`, up to an unreadable hint. */
  method MergeFunctions(img: seq<u8>, oh: OptionalHeader, rec0: DelayImportRecord, names: seq<u64>, funcs: seq<u64>)
    returns (rec: DelayImportRecord)
    requires |img| < TWO_32
    requires RecordValid(rec0)
    ensures rec == rec0.(Functions := rec.Functions, hasOrdinalNumbers := rec.hasOrdinalNumbers)
    ensures rec.Functions == rec0.Functions + Merged(img, oh, rec0.delayedImport.Attributes, names, funcs)
    ensures RecordValid(rec)
  {
    var attributes := rec0.delayedImport.Attributes;
    var numberOfFunctions := if |names| <= |funcs| then |names| else |funcs|;
    ghost var imports := Imports(img, oh, attributes, names, funcs);
    rec := rec0;
    for i := 0 to numberOfFunctions
      invariant rec == rec0.(Functions := rec.Functions, hasOrdinalNumbers := rec.hasOrdinalNumbers)
      invariant RecordValid(rec)
      invariant rec.Functions + SomePrefix(imports, i) == rec0.Functions + SomePrefix(imports, 0)
    {
      var imported := ImportOf(img, oh, attributes, names[i], funcs[i]);
      assert imported == imports[i];
      if imported.None? {
        assert rec.Functions + [] == rec.Functions;
        return;
      }
      ConcatAssoc(rec.Functions, [imported.value], SomePrefix(imports, i + 1));
      rec := AddFunction(rec, imported.value);
    }
    assert rec.Functions + [] == rec.Functions;
  }

  /** One pass of the descriptor loop. */
  method ReadDescriptor(img: seq<u8>, oh: OptionalHeader, at: u32) returns (o: DescriptorOutcome)
    requires |img| < TWO_32
    ensures o == DescriptorStep(img, oh, at)
  {
    var raw := ReadImage(img, at, DELAY_LOAD_DESCRIPTOR_SIZE as u32);
    if |raw| == 0 {
      return EndOfTable;
    }
    var rec := InitRecord().(delayedImport := DescriptorFrom(raw));
    if EndsTable(rec.delayedImport) {
      return EndOfTable;
    }
    rec := rec.(delayedImport := Normalized(oh, rec.delayedImport));
    var n := rec.delayedImport;
    if n.DelayImportNameTableRva >= oh.SizeOfImage || n.DelayImportAddressTableRva >= oh.SizeOfImage {
      return Invalid;
    }
    rec := rec.(Name := ReadStringUpTo(img, n.NameRva, IMPORT_LIBRARY_MAX_LENGTH));
    var names := ReadNameTable(img, oh, n.DelayImportNameTableRva);
    if names.None? {
      return Invalid;
    }
    var funcs := ReadAddressTable(img, oh, n.DelayImportAddressTableRva, |names.value|);
    if funcs.None? {
      return Invalid;
    }
    rec := MergeFunctions(img, oh, rec, names.value, funcs.value);
    assert [] + Merged(img, oh, n.Attributes, names.value, funcs.value) == Merged(img, oh, n.Attributes, names.value, funcs.value);
    o := Record(rec);
  }

  /**
   * The descriptor at `rva + i`, read, and what it makes of the loop from
   * there on, after the records already read.
   */
  method ReadDescriptorAt(img: seq<u8>, oh: OptionalHeader, rva: u32, i: nat, records: seq<DelayImportRecord>)
    returns (o: DescriptorOutcome)
    requires |img| < TWO_32
    requires rva + i < oh.SizeOfImage
    ensures !o.Record? ==> Glue(records, Records(img, oh, rva, i)) == ReadResult(records, o.EndOfTable?)
    ensures o.Record? ==>
      Glue(records + [o.rec], Records(img, oh, rva, i + DELAY_LOAD_DESCRIPTOR_SIZE)) == Glue(records, Records(img, oh, rva, i))
  {
    o := ReadDescriptor(img, oh, (rva + i) as u32);
    RecordsUnfold(img, oh, rva, i, o);
    if o.Record? {
      GlueGlue(records, [o.rec], Records(img, oh, rva, i + DELAY_LOAD_DESCRIPTOR_SIZE));
    } else {
      GlueEmpty(records, o.EndOfTable?);
    }
  }

  /** The descriptor loop: one descriptor every 32 bytes until one ends the table or is invalid. */
  method ReadRecords(img: seq<u8>, oh: OptionalHeader, rva: u32) returns (records: seq<DelayImportRecord>, ok: bool)
    requires |img| < TWO_32
    ensures ReadResult(records, ok) == Records(img, oh, rva, 0)
  {
    records := [];
    var i: nat := 0;
    GlueNil(Records(img, oh, rva, 0));
    while rva + i < oh.SizeOfImage
      invariant Records(img, oh, rva, 0) == Glue(records, Records(img, oh, rva, i))
      decreases oh.SizeOfImage - (rva + i)
    {
      var o := ReadDescriptorAt(img, oh, rva, i, records);
      if !o.Record? {
        // The end of the table, or ERROR_INVALID_FILE.
        return records, o.EndOfTable?;
      }
      records, i := records + [o.rec], i + DELAY_LOAD_DESCRIPTOR_SIZE;
    }
    RecordsPastImage(img, oh, rva, i);
    GlueEmpty(records, true);
    ok := true;
  }

  // ---------------------------------------------------------------------
  // The directory

  class DelayImportDirectory {
    var records: seq<DelayImportRecord>

    constructor ()
      ensures records == []
    {
      records := [];
    }

    /**
     * read: ERROR_INVALID_FILE at once, with the records kept, when the
     * directory RVA is outside the image; otherwise the records are
     * replaced by those the loop reads, and a descriptor whose tables
     * cannot be read ends it with ERROR_INVALID_FILE, keeping the records
     * read before it.
     */
    method Read(img: seq<u8>, oh: OptionalHeader) returns (r: int)
      requires |img| < TWO_32
      modifies this
      ensures var rva := DataDirRva(oh, DIR_DELAY_IMPORT);
        (rva >= oh.SizeOfImage ==> r == ERROR_INVALID_FILE && records == old(records)) &&
        (rva < oh.SizeOfImage ==>
          records == Records(img, oh, rva, 0).records &&
          r == if Records(img, oh, rva, 0).ok then ERROR_NONE else ERROR_INVALID_FILE)
    {
      var rva := DataDirRva(oh, DIR_DELAY_IMPORT);
      if rva >= oh.SizeOfImage {
        return ERROR_INVALID_FILE;
      }
      var ok;
      records, ok := ReadRecords(img, oh, rva);
      r := if ok then ERROR_NONE else ERROR_INVALID_FILE;
    }

    function GetNumberOfFiles(): (n: nat)
      reads this
      ensures n == |records|
    {
      |records|
    }

    /** getFile: the i-th record, or nothing (a null pointer) out of range. */
    function GetFile(i: nat): (r: Option<DelayImportRecord>)
      reads this
      ensures r.Some? <==> i < |records|
      ensures r.Some? ==> r.value == records[i]
    {
      if i < |records| then Some(records[i]) else None
    }
  }
}
