// ImportDirectory: the import table of section 6.4 of the Microsoft PE/COFF
// Specification. One 20-byte import descriptor per DLL points at the DLL's
// name and at a table of pointer-sized thunks, one per imported function;
// a thunk with the top bit set imports by ordinal, any other names a
// hint/name pair. The directory keeps the DLLs read from the file (the old
// list) apart from those added since (the new list).
module Imports {
  import opened Bytes
  import opened PeAux
  import opened LoaderErrors
  import opened ImageLoader
  import opened FilePages
  import TlsDirectories

  /** PELIB_MAX_IMPORT_DLLS: more distinct DLL names than this end the read. */
  const MAX_IMPORT_DLLS: nat := 0x100

  /** PELIB_MAX_IMPORTED_FUNCTIONS: the most thunks read for one DLL. */
  const MAX_IMPORTED_FUNCTIONS: nat := 0x1000

  // ---------------------------------------------------------------------
  // Bits of a thunk

  /** AND with every bit of a `w`-bit word but bit `k` clears bit `k`. */
  lemma {:induction false} AndAllButOneBit(x: nat, w: nat, k: nat, m: nat)
    requires k < w && x < Pow2(w) && m + 1 + Pow2(k) == Pow2(w)
    ensures BitAnd(x, m) == x - BitAnd(x, Pow2(k))
    decreases k
  {
    if x > 0 {
      if k == 0 {
        AndAllButLowBit(x, w, m);
      } else {
        var p, q := Pow2(k - 1), Pow2(w - 1);
        assert Pow2(k) == 2 * p && Pow2(w) == 2 * q;
        assert x / 2 < q && p < q;
        AndAllButOneBit(x / 2, w - 1, k - 1, q - 1 - p);
        AndAllButBitStep(x, w, k, m);
      }
    }
  }

  /** The case of bit 0: the mask is all ones but the lowest. */
  lemma AndAllButLowBit(x: nat, w: nat, m: nat)
    requires 0 < w && 0 < x < Pow2(w) && m + 1 + Pow2(0) == Pow2(w)
    ensures BitAnd(x, m) == x - BitAnd(x, Pow2(0))
  {
    var h := Pow2(w - 1);
    assert Pow2(w) == 2 * h && Pow2(0) == 1;
    UnderLowMask(x / 2, w - 1);
    EvenMaskStep(x, m, h - 1, 0);
    assert BitAnd(x / 2, 0) == 0;
  }

  /** A value below 2^k is unchanged by the mask of the `k` low bits. */
  lemma UnderLowMask(x: nat, k: nat)
    requires x < Pow2(k)
    ensures BitAnd(x, Pow2(k) - 1) == x
  {
    LowMaskAnd(x, k);
    DivModUnique(x, Pow2(k), 0, x);
  }

  /** The case of a higher bit, from the same mask one bit narrower on `x / 2`. */
  lemma AndAllButBitStep(x: nat, w: nat, k: nat, m: nat)
    requires 0 < k < w && 0 < x && m + 1 + Pow2(k) == Pow2(w)
    requires Pow2(k - 1) < Pow2(w - 1)
    requires BitAnd(x / 2, Pow2(w - 1) - 1 - Pow2(k - 1)) == x / 2 - BitAnd(x / 2, Pow2(k - 1))
    ensures BitAnd(x, m) == x - BitAnd(x, Pow2(k))
  {
    var p, q := Pow2(k - 1), Pow2(w - 1);
    assert Pow2(k) == 2 * p && Pow2(w) == 2 * q;
    var l := x / 2 - BitAnd(x / 2, p);
    OddMaskStep(x, m, q - p, l);
    EvenBitAnd(x, p);
    assert x == 2 * (x / 2) + x % 2;
  }

  /** AND with an even value 2p is the AND of the halves, doubled. */
  lemma EvenBitAnd(x: nat, p: nat)
    requires p >= 1
    ensures BitAnd(x, 2 * p) == 2 * BitAnd(x / 2, p)
  {
    if x > 0 {
      DivModUnique(2 * p, 2, p, 0);
    }
  }

  /** 2^16 and 2^64. */
  lemma Pow2Words()
    ensures Pow2(16) == 0x1_0000 && Pow2(64) == TWO_64
  {
    Pow2Values();
    assert Pow2(4) == 16;
    Pow2Add(4, 12);
    Pow2Add(32, 32);
  }

  /**
   * `x & ~mask` for the one-bit mask 2^k on a 64-bit word, where `~mask` is
   * `m`: `x` with that bit cleared.
   */
  lemma ClearOrdinalBit(x: u64, k: nat, m: nat)
    requires k < 64 && m + 1 + Pow2(k) == TWO_64
    ensures BitAnd(x, m) == x - BitAnd(x, Pow2(k))
  {
    Pow2Words();
    AndAllButOneBit(x, 64, k, m);
  }

  // ---------------------------------------------------------------------
  // isBadImportName

  /** A `char` of a std::string as the first-byte test reads it: signed, as on the x86 ABIs. */
  function SignedChar(c: u8): (r: int)
    ensures -0x80 <= r < 0x80
    ensures r < 0 <==> c >= 0x80
    ensures r >= 0 ==> r == c
  {
    if c >= 0x80 then c - 0x100 else c
  }

  /** An acceptable DLL name: non-empty, printable ASCII throughout, and not starting with a space. */
  predicate GoodImportName(name: seq<u8>)
  {
    name != [] && name[0] != 0x20 && forall i :: 0 <= i < |name| ==> IsPrintableChar(name[i])
  }

  /**
   * isBadImportName: an empty name, a first character at or below a space
   * (compared as a signed `char`) and any character outside 0x20..0x7E are
   * refused; together they refuse exactly the names that are not good.
   */
  method IsBadImportName(importName: seq<u8>) returns (bad: bool)
    ensures bad <==> !GoodImportName(importName)
  {
    if |importName| == 0 {
      return true;
    }
    if SignedChar(importName[0]) <= 0x20 {
      return true;
    }
    var i := 0;
    while i < |importName|
      invariant 0 <= i <= |importName|
      invariant forall k :: 0 <= k < i ==> IsPrintableChar(importName[k])
    {
      var singleChar := importName[i];
      if singleChar < 0x20 || singleChar >= 0x7F {
        return true;
      }
      i := i + 1;
    }
    return false;
  }

  // ---------------------------------------------------------------------
  // The lists of imported DLLs

  /** The entry is for the DLL `file`: DLL names compare ignoring case. */
  predicate IsFile(e: ImportDirectoryEntry, file: seq<u8>)
  {
    IsEqualNc(e.name, file)
  }

  /** Some entry for `file` holds a thunk that `matches` accepts. */
  predicate Imported(list: seq<ImportDirectoryEntry>, file: seq<u8>, matches: ThunkData -> bool)
  {
    exists i, j :: 0 <= i < |list| && 0 <= j < |list[i].thunk_data| &&
      IsFile(list[i], file) && matches(list[i].thunk_data[j])
  }

  /** PELIB_THUNK_DATA::equalHint. */
  function HintIs(hint: u16): ThunkData -> bool
  {
    (t: ThunkData) => t.hint == hint
  }

  /** PELIB_THUNK_DATA::equalFunctionName: function names compare ignoring case. */
  function NameIs(fname: seq<u8>): ThunkData -> bool
  {
    (t: ThunkData) => IsEqualNc(t.fname, fname)
  }

  /** hasFunction over one list: look through every entry for `file`. */
  method FindThunk(list: seq<ImportDirectoryEntry>, file: seq<u8>, matches: ThunkData -> bool) returns (found: bool)
    ensures found <==> Imported(list, file, matches)
  {
    var i := 0;
    while i < |list|
      invariant i <= |list|
      invariant forall a, b :: 0 <= a < i && 0 <= b < |list[a].thunk_data| && IsFile(list[a], file) ==> !matches(list[a].thunk_data[b])
    {
      if IsFile(list[i], file) {
        var j := 0;
        while j < |list[i].thunk_data|
          invariant j <= |list[i].thunk_data|
          invariant forall b :: 0 <= b < j ==> !matches(list[i].thunk_data[b])
        {
          if matches(list[i].thunk_data[j]) {
            return true;
          }
          j := j + 1;
        }
      }
      i := i + 1;
    }
    return false;
  }

  /** The entry a DLL gets when its first function is added: a zeroed descriptor, its name and that thunk. */
  function NewEntry(file: seq<u8>, td: ThunkData): ImportDirectoryEntry
  {
    ImportDirectoryEntry(EmptyImportDescriptor, file, [td])
  }

  /** The position of the first entry for `file`, or |list|. */
  function FileIndex(list: seq<ImportDirectoryEntry>, file: seq<u8>): (i: nat)
    ensures i <= |list|
    ensures i < |list| ==> IsFile(list[i], file)
    ensures forall k :: 0 <= k < i ==> !IsFile(list[k], file)
  {
    FirstIndex(list, e => IsFile(e, file), 0)
  }

  /** addFunction's update of the new list: the thunk joins the first entry for `file`, or a new last entry. */
  function AppendThunk(list: seq<ImportDirectoryEntry>, file: seq<u8>, td: ThunkData): seq<ImportDirectoryEntry>
  {
    var i := FileIndex(list, file);
    if i < |list| then list[i := list[i].(thunk_data := list[i].thunk_data + [td])]
    else list + [NewEntry(file, td)]
  }

  /**
   * After the thunk is appended, the list imports a thunk from a DLL exactly
   * when it did before, or the DLL is `file` (ignoring case) and the thunk
   * is the new one.
   */
  lemma AppendThunkImports(list: seq<ImportDirectoryEntry>, file: seq<u8>, td: ThunkData, file': seq<u8>, matches: ThunkData -> bool)
    ensures Imported(AppendThunk(list, file, td), file', matches) <==>
      Imported(list, file', matches) || (IsEqualNc(file, file') && matches(td))
  {
    var r := AppendThunk(list, file, td);
    var i := FileIndex(list, file);
    var e := if i < |list| then list[i] else NewEntry(file, td);
    assert IsEqualNc(e.name, file) by { IsEqualNcEquivalence(file, file, file); }
    IsEqualNcEquivalence(e.name, file, file');
    IsEqualNcEquivalence(file, e.name, file');
    if Imported(list, file', matches) {
      var a, b :| 0 <= a < |list| && 0 <= b < |list[a].thunk_data| && IsFile(list[a], file') && matches(list[a].thunk_data[b]);
      assert r[a].thunk_data[b] == list[a].thunk_data[b];
    }
    if IsEqualNc(file, file') && matches(td) {
      var n := if i < |list| then |list[i].thunk_data| else 0;
      assert r[i].thunk_data[n] == td;
    }
    if Imported(r, file', matches) {
      var a, b :| 0 <= a < |r| && 0 <= b < |r[a].thunk_data| && IsFile(r[a], file') && matches(r[a].thunk_data[b]);
      if a != i || b < |r[a].thunk_data| - 1 {
        assert r[a].thunk_data[b] == list[a].thunk_data[b];
      }
    }
  }

  /**
   * The appended thunk is the last function of the first entry for `file`;
   * every other entry is kept, and a new entry appears only when there was
   * none for `file`.
   */
  lemma AppendThunkPlacesThunk(list: seq<ImportDirectoryEntry>, file: seq<u8>, td: ThunkData)
    ensures var r := AppendThunk(list, file, td); var i := FileIndex(list, file);
      i < |r| && IsEqualNc(r[i].name, file) && r[i].thunk_data != [] && r[i].thunk_data[|r[i].thunk_data| - 1] == td &&
      |r| == |list| + (if i < |list| then 0 else 1) &&
      (i < |list| ==> r[i].thunk_data[..|r[i].thunk_data| - 1] == list[i].thunk_data && r[i].impdesc == list[i].impdesc) &&
      forall k :: 0 <= k < |list| && k != i ==> r[k] == list[k]
  {
    var i := FileIndex(list, file);
    if i == |list| {
      IsEqualNcEquivalence(file, file, file);
    }
  }

  /** The elements of `s` that `p` accepts, in order: std::remove_if followed by erase. */
  function Keep<T>(s: seq<T>, p: T -> bool): (r: seq<T>)
    ensures |r| <= |s|
  {
    if s == [] then []
    else if p(s[0]) then [s[0]] + Keep(s[1..], p)
    else Keep(s[1..], p)
  }

  /**
   * Keep holds exactly the accepted elements, and has every element of `s`
   * exactly when `p` accepts them all.
   */
  lemma {:induction false} KeepMeaning<T>(s: seq<T>, p: T -> bool)
    ensures forall x :: x in Keep(s, p) <==> x in s && p(x)
    ensures |Keep(s, p)| == |s| <==> forall k :: 0 <= k < |s| ==> p(s[k])
    decreases |s|
  {
    if s != [] {
      KeepMeaning(s[1..], p);
      if !p(s[0]) {
        assert |Keep(s, p)| < |s|;
      } else {
        forall k | 0 <= k < |s| && (forall k' :: 0 <= k' < |s[1..]| ==> p(s[1..][k']))
          ensures p(s[k])
        {
          if k > 0 {
            assert s[k] == s[1..][k - 1];
          }
        }
      }
      forall x ensures x in s <==> x == s[0] || x in s[1..] {
        if x in s {
          var k :| 0 <= k < |s| && s[k] == x;
          if k > 0 {
            assert s[1..][k - 1] == x;
          }
        }
      }
    }
  }

  /** Filtering twice removes nothing more. */
  lemma {:induction false} KeepIdempotent<T>(s: seq<T>, p: T -> bool)
    ensures Keep(Keep(s, p), p) == Keep(s, p)
    decreases |s|
  {
    if s != [] {
      KeepIdempotent(s[1..], p);
      if p(s[0]) {
        var r := [s[0]] + Keep(s[1..], p);
        assert r[1..] == Keep(s[1..], p);
      }
    }
  }

  /** removeFile's update of the new list: every entry for `file` goes. */
  function WithoutFile(list: seq<ImportDirectoryEntry>, file: seq<u8>): seq<ImportDirectoryEntry>
  {
    Keep(list, e => !IsFile(e, file))
  }

  /**
   * No entry for `file` is left and every other entry stays; the list
   * shrinks exactly when it held an entry for `file`.
   */
  lemma WithoutFileMeaning(list: seq<ImportDirectoryEntry>, file: seq<u8>)
    ensures var r := WithoutFile(list, file);
      (forall e :: e in r <==> e in list && !IsFile(e, file)) &&
      (|r| < |list| <==> exists k :: 0 <= k < |list| && IsFile(list[k], file))
  {
    KeepMeaning(list, e => !IsFile(e, file));
  }

  /** removeFunction's update of the new list: from every entry for `file`, the thunks `matches` accepts go. */
  function WithoutThunks(list: seq<ImportDirectoryEntry>, file: seq<u8>, matches: ThunkData -> bool): (r: seq<ImportDirectoryEntry>)
    ensures |r| == |list|
  {
    seq(|list|, i requires 0 <= i < |list| =>
      if IsFile(list[i], file) then list[i].(thunk_data := Keep(list[i].thunk_data, t => !matches(t))) else list[i])
  }

  /**
   * Afterwards no entry for `file` holds an accepted thunk; nothing new is
   * imported; and every thunk of another DLL, or one `matches` refuses, is
   * still there.
   */
  lemma WithoutThunksMeaning(list: seq<ImportDirectoryEntry>, file: seq<u8>, matches: ThunkData -> bool, file': seq<u8>, other: ThunkData -> bool)
    ensures !Imported(WithoutThunks(list, file, matches), file, matches)
    ensures Imported(WithoutThunks(list, file, matches), file', other) ==> Imported(list, file', other)
    ensures (forall t :: other(t) ==> !matches(t)) && Imported(list, file', other) ==>
      Imported(WithoutThunks(list, file, matches), file', other)
  {
    var r := WithoutThunks(list, file, matches);
    forall i | 0 <= i < |list|
      ensures forall t :: t in r[i].thunk_data <==> t in list[i].thunk_data && (IsFile(list[i], file) ==> !matches(t))
      ensures r[i].name == list[i].name
    {
      KeepMeaning(list[i].thunk_data, t => !matches(t));
    }
    if Imported(r, file', other) {
      var a, b :| 0 <= a < |r| && 0 <= b < |r[a].thunk_data| && IsFile(r[a], file') && other(r[a].thunk_data[b]);
      assert r[a].thunk_data[b] in list[a].thunk_data;
    }
    if (forall t :: other(t) ==> !matches(t)) && Imported(list, file', other) {
      var a, b :| 0 <= a < |list| && 0 <= b < |list[a].thunk_data| && IsFile(list[a], file') && other(list[a].thunk_data[b]);
      var t := list[a].thunk_data[b];
      assert t in r[a].thunk_data;
      var c :| 0 <= c < |r[a].thunk_data| && r[a].thunk_data[c] == t;
    }
  }

  /**
   * removeFunction's loop: filter the thunks of every entry for `file`;
   * the status is 0 when some thunk went, 1 when none did.
   */
  method RemoveThunks(list: seq<ImportDirectoryEntry>, file: seq<u8>, matches: ThunkData -> bool)
    returns (r: seq<ImportDirectoryEntry>, notFound: int)
    ensures r == WithoutThunks(list, file, matches)
    ensures notFound == if Imported(list, file, matches) then 0 else 1
  {
    notFound := 1;
    r := [];
    var i := 0;
    while i < |list|
      invariant i <= |list| && |r| == i
      invariant forall k :: 0 <= k < i ==> r[k] == WithoutThunks(list, file, matches)[k]
      invariant notFound == if Imported(list[..i], file, matches) then 0 else 1
    {
      var e := list[i];
      if IsFile(e, file) {
        var kept := Keep(e.thunk_data, t => !matches(t));
        KeepMeaning(e.thunk_data, t => !matches(t));
        if |kept| != |e.thunk_data| {
          notFound := 0;
        }
        e := e.(thunk_data := kept);
      }
      ImportedExtend(list, i, file, matches);
      r := r + [e];
      i := i + 1;
    }
    assert list[..i] == list;
  }

  /** Import through the first i + 1 entries: through the first i, or through entry i. */
  lemma ImportedExtend(list: seq<ImportDirectoryEntry>, i: nat, file: seq<u8>, matches: ThunkData -> bool)
    requires i < |list|
    ensures Imported(list[..i + 1], file, matches) <==>
      Imported(list[..i], file, matches) ||
      (IsFile(list[i], file) && exists j :: 0 <= j < |list[i].thunk_data| && matches(list[i].thunk_data[j]))
  {
    var p, q := list[..i + 1], list[..i];
    if Imported(p, file, matches) {
      var a, b :| 0 <= a < |p| && 0 <= b < |p[a].thunk_data| && IsFile(p[a], file) && matches(p[a].thunk_data[b]);
      if a < i {
        assert q[a] == p[a];
      }
    }
    if Imported(q, file, matches) {
      var a, b :| 0 <= a < |q| && 0 <= b < |q[a].thunk_data| && IsFile(q[a], file) && matches(q[a].thunk_data[b]);
      assert p[a] == q[a];
    }
    if IsFile(list[i], file) && exists j :: 0 <= j < |list[i].thunk_data| && matches(list[i].thunk_data[j]) {
      var j :| 0 <= j < |list[i].thunk_data| && matches(list[i].thunk_data[j]);
      assert p[i].thunk_data[j] == list[i].thunk_data[j];
    }
  }

  // ---------------------------------------------------------------------
  // Sizes

  /** The exact size calculateSize gives one entry: descriptor, name, NUL, thunks and a terminating pointer. */
  function EntrySize(e: ImportDirectoryEntry, p: u32): nat
  {
    IMPORT_DESCRIPTOR_SIZE + |e.name| + 1 + ThunksTotal(e.thunk_data, p) + p
  }

  /** The exact sum of the entries' sizes. */
  function EntriesTotal(list: seq<ImportDirectoryEntry>, p: u32): nat
  {
    if list == [] then 0
    else EntriesTotal(list[..|list| - 1], p) + EntrySize(list[|list| - 1], p)
  }

  /** Replacing one entry changes the total by the difference of the two entries' sizes. */
  lemma {:induction false} EntriesTotalUpdate(list: seq<ImportDirectoryEntry>, i: nat, e: ImportDirectoryEntry, p: u32)
    requires i < |list|
    ensures EntriesTotal(list[i := e], p) + EntrySize(list[i], p) == EntriesTotal(list, p) + EntrySize(e, p)
    decreases |list|
  {
    var n := |list|;
    var u := list[i := e];
    if i == n - 1 {
      assert u[..n - 1] == list[..n - 1];
    } else {
      assert u[..n - 1] == list[..n - 1][i := e];
      EntriesTotalUpdate(list[..n - 1], i, e, p);
    }
  }

  lemma EntriesTotalAppend(list: seq<ImportDirectoryEntry>, e: ImportDirectoryEntry, p: u32)
    ensures EntriesTotal(list + [e], p) == EntriesTotal(list, p) + EntrySize(e, p)
  {
    assert (list + [e])[..|list|] == list;
  }

  lemma ThunksTotalAppend(ts: seq<ThunkData>, t: ThunkData, p: u32)
    ensures ThunksTotal(ts + [t], p) == ThunksTotal(ts, p) + ThunkSize(t, p)
  {
    assert (ts + [t])[..|ts|] == ts;
  }

  /**
   * Adding a function grows the size by the thunk's size, plus a whole new
   * entry's descriptor, name and terminator when the DLL was not listed.
   */
  lemma AppendThunkSize(list: seq<ImportDirectoryEntry>, file: seq<u8>, td: ThunkData, p: u32)
    ensures EntriesTotal(AppendThunk(list, file, td), p) ==
      EntriesTotal(list, p) + ThunkSize(td, p) +
      (if FileIndex(list, file) < |list| then 0 else IMPORT_DESCRIPTOR_SIZE + |file| + 1 + p)
  {
    var i := FileIndex(list, file);
    if i < |list| {
      var ts := list[i].thunk_data;
      ThunksTotalAppend(ts, td, p);
      EntriesTotalUpdate(list, i, list[i].(thunk_data := ts + [td]), p);
    } else {
      ThunksTotalAppend([], td, p);
      assert [] + [td] == [td];
      EntriesTotalAppend(list, NewEntry(file, td), p);
    }
  }

  // ---------------------------------------------------------------------
  // getImportedFunction

  /** What getImportedFunction reports about one function. */
  datatype ImportedFunction = ImportedFunction(
    importName: seq<u8>, importHint: u16, importOrdinal: u32, patchRva: u32, isImportByOrdinal: bool)

  /**
   * One thunk as reported: by ordinal when the ordinal bit is set, with the
   * low 32 bits of the rest as the ordinal; by name otherwise, with its hint.
   */
  function FunctionOf(t: ThunkData, ordinalMask: u64): (f: ImportedFunction)
    ensures f.isImportByOrdinal <==> BitAnd(t.Ordinal, ordinalMask) != 0
    ensures f.isImportByOrdinal ==> f.importHint == 0
    ensures !f.isImportByOrdinal ==> f.importOrdinal == 0 && f.importHint == t.hint
    ensures f.importName == t.fname && f.patchRva == t.patchRva
  {
    if BitAnd(t.Ordinal, ordinalMask) != 0 then
      ImportedFunction(t.fname, 0, Trunc32(t.Ordinal - BitAnd(t.Ordinal, ordinalMask)), t.patchRva, true)
    else ImportedFunction(t.fname, t.hint, 0, t.patchRva, false)
  }

  /** The thunk addFunction(file, hint) adds: the hint, and the ordinal bit over it. */
  function HintThunk(hint: u16, ordinalMask: u64): ThunkData
  {
    Pow2Words();
    Pow2Mono(16, 64);
    BitOrBound(hint, ordinalMask, 64);
    ThunkData(BitOr(hint, ordinalMask), [], 0, hint)
  }

  /** The thunk addFunction(file, name) adds: only the name. */
  function NameThunk(fname: seq<u8>): ThunkData
  {
    ThunkData(0, fname, 0, 0)
  }

  /** A function added by hint is reported as an import by ordinal whose ordinal is the hint. */
  lemma HintThunkReported(hint: u16, k: nat)
    requires 16 <= k < 64
    ensures Pow2(k) < TWO_64
    ensures FunctionOf(HintThunk(hint, Pow2(k)), Pow2(k)) == ImportedFunction([], 0, hint, 0, true)
  {
    HintThunkOrdinal(hint, k);
    var m := Pow2(k);
    var t := HintThunk(hint, m);
    HighBitAnd(hint, k);
    assert BitAnd(t.Ordinal, m) == m;
    assert t.Ordinal - m == hint;
  }

  /** The ordinal word of a hint thunk is the hint with the mask bit above it. */
  lemma HintThunkOrdinal(hint: u16, k: nat)
    requires 16 <= k < 64
    ensures Pow2(k) < TWO_64 && hint < Pow2(k)
    ensures HintThunk(hint, Pow2(k)).Ordinal == hint + Pow2(k)
  {
    Pow2Words();
    Pow2Mono(16, k);
    Pow2Mono(k + 1, 64);
    assert Pow2(k + 1) == 2 * Pow2(k);
    OrHighBit(hint, k);
  }

  /** A function added by name is reported by name, with hint 0. */
  lemma NameThunkReported(fname: seq<u8>, ordinalMask: u64)
    ensures FunctionOf(NameThunk(fname), ordinalMask) == ImportedFunction(fname, 0, 0, 0, false)
  {
  }

  // ---------------------------------------------------------------------
  // read: the descriptors

  /** A descriptor read into a zeroed record: bytes short of 20 stay zero. */
  function DescriptorOf(raw: seq<u8>): ImportDescriptor
    requires |raw| <= IMPORT_DESCRIPTOR_SIZE
  {
    var b := raw + Zeros(IMPORT_DESCRIPTOR_SIZE - |raw|);
    ImportDescriptor(U32At(b, 0), U32At(b, 4), U32At(b, 8), U32At(b, 12), U32At(b, 16))
  }

  /** The descriptor at `at`, as read puts it together. */
  function DescriptorAt(img: seq<u8>, at: u32): ImportDescriptor
    requires |img| < TWO_32
  {
    DescriptorOf(ReadImage(img, at, IMPORT_DESCRIPTOR_SIZE as u32))
  }

  /** The (x + 1) & ~1 of read: a 32-bit end rounded up to an even one. */
  function RoundUpEven(e: u32): (r: u32)
    ensures e < TWO_32 - 1 ==> r % 2 == 0 && e <= r <= e + 1
    ensures e == TWO_32 - 1 ==> r == 0
  {
    var v := Add32(e, 1);
    v - v % 2
  }

  /**
   * The range read records for a DLL name, as written: the name and its
   * NUL, then one byte more when that end is even.
   */
  function NameRangeAsWritten(nameRva: u32, len: nat): (u32, u32)
  {
    var e := Trunc32(nameRva + len + 1);
    (nameRva, if e % 2 == 0 then e + 1 else e)
  }

  /** As written, every recorded DLL name range ends at an odd address. */
  lemma NameRangeAsWrittenEndsOdd(nameRva: u32, len: nat)
    ensures NameRangeAsWritten(nameRva, len).1 % 2 == 1
  {
  }

  /**
   * A 6-byte name at 0x1000 ends, NUL included, at 0x1007 and is recorded up
   * to 0x1007: the padding byte before the next even address is left out,
   * while a 7-byte name's range runs on into 0x1008, the next even address.
   */
  lemma NameRangeAsWrittenSample()
    ensures NameRangeAsWritten(0x1000, 6) == (0x1000, 0x1007)
    ensures NameRangeAsWritten(0x1000, 7) == (0x1000, 0x1009)
  {
  }

  /**
   * The range of a DLL name as intended: the name and its NUL, the end
   * rounded up to an even address as for the names of functions, so that the
   * next name starts at an even address.
   */
  function NameRange(nameRva: u32, len: nat): (r: (u32, u32))
    ensures r.0 == nameRva
    ensures nameRva + len + 2 < TWO_32 ==> r.1 % 2 == 0 && nameRva + len + 1 <= r.1 <= nameRva + len + 2
  {
    (nameRva, RoundUpEven(Trunc32(nameRva + len + 1)))
  }

  datatype DescriptorOutcome =
    | Terminator
    | Rejected(error: LoaderError)
    | Candidate(desc: ImportDescriptor, name: seq<u8>)

  /**
   * One pass of read's descriptor loop at `at`: a descriptor whose Name or
   * FirstThunk is 0 ends the table; one whose Name or FirstThunk lies past
   * the image, or whose DLL name is bad, ends it with an error; any other is
   * a DLL, with the name read from the image.
   */
  function DescriptorStep(img: seq<u8>, sizeOfImage: u32, at: u32): (o: DescriptorOutcome)
    requires |img| < TWO_32
    ensures var d := DescriptorAt(img, at);
      (o.Terminator? <==> d.Name == 0 || d.FirstThunk == 0) &&
      (o.Candidate? <==>
        (d.Name != 0 && d.FirstThunk != 0 && d.Name <= sizeOfImage && d.FirstThunk <= sizeOfImage &&
         GoodImportName(ReadStringUpTo(img, d.Name, IMPORT_LIBRARY_MAX_LENGTH)))) &&
      (o.Candidate? ==> o.desc == d && o.name == ReadStringUpTo(img, d.Name, IMPORT_LIBRARY_MAX_LENGTH)) &&
      (o.Rejected? ==> (o.error == LDR_ERROR_IMPDIR_THUNK_RVA_INVALID <==> d.Name <= sizeOfImage && d.FirstThunk > sizeOfImage)) &&
      (o.Rejected? ==> o.error in {LDR_ERROR_IMPDIR_NAME_RVA_INVALID, LDR_ERROR_IMPDIR_THUNK_RVA_INVALID})
  {
    var d := DescriptorAt(img, at);
    if d.Name == 0 || d.FirstThunk == 0 then Terminator
    else if d.Name > sizeOfImage then Rejected(LDR_ERROR_IMPDIR_NAME_RVA_INVALID)
    else if d.FirstThunk > sizeOfImage then Rejected(LDR_ERROR_IMPDIR_THUNK_RVA_INVALID)
    else
      var name := ReadStringUpTo(img, d.Name, IMPORT_LIBRARY_MAX_LENGTH);
      if !GoodImportName(name) then Rejected(LDR_ERROR_IMPDIR_NAME_RVA_INVALID)
      else Candidate(d, name)
  }

  /**
   * What read's descriptor loop gathers: the DLLs, the ranges of their
   * names, the RVA it stops at and the error it reports (LDR_ERROR_NONE when
   * a null descriptor ends the table).
   */
  datatype DescriptorScan = DescriptorScan(
    entries: seq<ImportDirectoryEntry>, nameRanges: seq<(u32, u32)>, end: u32, error: LoaderError)

  /**
   * read's descriptor loop from `rva`, with the DLL names `seen` so far:
   * LDR_ERROR_IMPDIR_CUT when the descriptor does not end before the end of
   * the image, otherwise one descriptor and on 20 bytes further.
   */
  function Descriptors(img: seq<u8>, sizeOfImage: u32, rva: u32, seen: set<seq<u8>>): (s: DescriptorScan)
    requires |img| < TWO_32
    decreases sizeOfImage - rva, 1
  {
    if rva + IMPORT_DESCRIPTOR_SIZE >= sizeOfImage then DescriptorScan([], [], rva, LDR_ERROR_IMPDIR_CUT)
    else DescriptorsAt(img, sizeOfImage, rva, seen)
  }

  /**
   * The loop at a descriptor that ends inside the image: it stops, or keeps
   * the DLL unless it is one DLL too many.
   */
  function DescriptorsAt(img: seq<u8>, sizeOfImage: u32, rva: u32, seen: set<seq<u8>>): (s: DescriptorScan)
    requires |img| < TWO_32 && rva + IMPORT_DESCRIPTOR_SIZE < sizeOfImage
    decreases sizeOfImage - rva, 0
  {
    var next := (rva + IMPORT_DESCRIPTOR_SIZE) as u32;
    match DescriptorStep(img, sizeOfImage, rva)
    case Terminator => DescriptorScan([], [], next, LDR_ERROR_NONE)
    case Rejected(e) => DescriptorScan([], [], next, e)
    case Candidate(d, name) =>
      if name !in seen && |seen + {name}| > MAX_IMPORT_DLLS then
        DescriptorScan([], [], next, LDR_ERROR_IMPDIR_COUNT_EXCEEDED)
      else
        var rest := Descriptors(img, sizeOfImage, next, seen + {name});
        DescriptorScan([ImportDirectoryEntry(d, name, [])] + rest.entries,
          [NameRange(d.Name, |name|)] + rest.nameRanges, rest.end, rest.error)
  }

  function GlueScan(entries: seq<ImportDirectoryEntry>, ranges: seq<(u32, u32)>, s: DescriptorScan): DescriptorScan
  {
    DescriptorScan(entries + s.entries, ranges + s.nameRanges, s.end, s.error)
  }

  lemma GlueScanNil(s: DescriptorScan)
    ensures GlueScan([], [], s) == s
  {
    assert [] + s.entries == s.entries && [] + s.nameRanges == s.nameRanges;
  }

  lemma GlueScanEmpty(entries: seq<ImportDirectoryEntry>, ranges: seq<(u32, u32)>, end: u32, error: LoaderError)
    ensures GlueScan(entries, ranges, DescriptorScan([], [], end, error)) == DescriptorScan(entries, ranges, end, error)
  {
    assert entries + [] == entries && ranges + [] == ranges;
  }

  lemma GlueScanGlue(entries: seq<ImportDirectoryEntry>, ranges: seq<(u32, u32)>,
                     e: seq<ImportDirectoryEntry>, r: seq<(u32, u32)>, s: DescriptorScan)
    ensures GlueScan(entries, ranges, GlueScan(e, r, s)) == GlueScan(entries + e, ranges + r, s)
  {
    ConcatAssoc(entries, e, s.entries);
    ConcatAssoc(ranges, r, s.nameRanges);
  }

  /** How many DLLs `seen` may hold before the descriptor naming a new one ends the loop. */
  predicate TooMany(seen: set<seq<u8>>, name: seq<u8>)
  {
    name !in seen && |seen + {name}| > MAX_IMPORT_DLLS
  }

  /** The descriptor loop one descriptor at a time, given what the descriptor at `rva` gives. */
  lemma DescriptorsUnfold(img: seq<u8>, sizeOfImage: u32, rva: u32, seen: set<seq<u8>>, o: DescriptorOutcome)
    requires |img| < TWO_32 && rva + IMPORT_DESCRIPTOR_SIZE < sizeOfImage
    requires o == DescriptorStep(img, sizeOfImage, rva)
    ensures var next := (rva + IMPORT_DESCRIPTOR_SIZE) as u32;
      var s := Descriptors(img, sizeOfImage, rva, seen);
      (o.Terminator? ==> s == DescriptorScan([], [], next, LDR_ERROR_NONE)) &&
      (o.Rejected? ==> s == DescriptorScan([], [], next, o.error)) &&
      (o.Candidate? && TooMany(seen, o.name) ==> s == DescriptorScan([], [], next, LDR_ERROR_IMPDIR_COUNT_EXCEEDED)) &&
      (o.Candidate? && !TooMany(seen, o.name) ==>
        s == GlueScan([ImportDirectoryEntry(o.desc, o.name, [])], [NameRange(o.desc.Name, |o.name|)],
          Descriptors(img, sizeOfImage, next, seen + {o.name})))
  {
    assert Descriptors(img, sizeOfImage, rva, seen) == DescriptorsAt(img, sizeOfImage, rva, seen);
  }

  /** One pass of the descriptor loop, on what the loop has gathered so far. */
  lemma DescriptorsGlueStep(img: seq<u8>, sizeOfImage: u32, rva: u32, seen: set<seq<u8>>, o: DescriptorOutcome,
                            entries: seq<ImportDirectoryEntry>, ranges: seq<(u32, u32)>)
    requires |img| < TWO_32 && rva + IMPORT_DESCRIPTOR_SIZE < sizeOfImage
    requires o == DescriptorStep(img, sizeOfImage, rva)
    ensures var next := (rva + IMPORT_DESCRIPTOR_SIZE) as u32;
      var g := GlueScan(entries, ranges, Descriptors(img, sizeOfImage, rva, seen));
      (o.Terminator? ==> g == DescriptorScan(entries, ranges, next, LDR_ERROR_NONE)) &&
      (o.Rejected? ==> g == DescriptorScan(entries, ranges, next, o.error)) &&
      (o.Candidate? && TooMany(seen, o.name) ==> g == DescriptorScan(entries, ranges, next, LDR_ERROR_IMPDIR_COUNT_EXCEEDED)) &&
      (o.Candidate? && !TooMany(seen, o.name) ==>
        g == GlueScan(entries + [ImportDirectoryEntry(o.desc, o.name, [])], ranges + [NameRange(o.desc.Name, |o.name|)],
          Descriptors(img, sizeOfImage, next, seen + {o.name})))
  {
    DescriptorsUnfold(img, sizeOfImage, rva, seen, o);
    var next := (rva + IMPORT_DESCRIPTOR_SIZE) as u32;
    if o.Candidate? && !TooMany(seen, o.name) {
      GlueScanGlue(entries, ranges, [ImportDirectoryEntry(o.desc, o.name, [])], [NameRange(o.desc.Name, |o.name|)],
        Descriptors(img, sizeOfImage, next, seen + {o.name}));
    } else if o.Candidate? {
      GlueScanEmpty(entries, ranges, next, LDR_ERROR_IMPDIR_COUNT_EXCEEDED);
    } else if o.Rejected? {
      GlueScanEmpty(entries, ranges, next, o.error);
    } else {
      GlueScanEmpty(entries, ranges, next, LDR_ERROR_NONE);
    }
  }

  /** A DLL read from the descriptor at `at`: the step's checks passed, its name read, no functions yet. */
  predicate WellRead(img: seq<u8>, sizeOfImage: u32, e: ImportDirectoryEntry, at: nat)
    requires |img| < TWO_32
  {
    at + IMPORT_DESCRIPTOR_SIZE < sizeOfImage &&
    e.impdesc == DescriptorAt(img, at as u32) &&
    e.impdesc.Name != 0 && e.impdesc.FirstThunk != 0 &&
    e.impdesc.Name <= sizeOfImage && e.impdesc.FirstThunk <= sizeOfImage &&
    e.name == ReadStringUpTo(img, e.impdesc.Name, IMPORT_LIBRARY_MAX_LENGTH) &&
    GoodImportName(e.name) && e.thunk_data == []
  }

  /** The errors the descriptor loop may end with. */
  predicate DescriptorError(e: LoaderError)
  {
    e in {LDR_ERROR_NONE, LDR_ERROR_IMPDIR_CUT, LDR_ERROR_IMPDIR_NAME_RVA_INVALID,
          LDR_ERROR_IMPDIR_THUNK_RVA_INVALID, LDR_ERROR_IMPDIR_COUNT_EXCEEDED}
  }

  /** Each of `es` read from the descriptor 20 bytes after the one before, the first at `at`. */
  predicate WellReadFrom(img: seq<u8>, sizeOfImage: u32, es: seq<ImportDirectoryEntry>, at: nat)
    requires |img| < TWO_32
    decreases |es|
  {
    es == [] || (WellRead(img, sizeOfImage, es[0], at) && WellReadFrom(img, sizeOfImage, es[1..], at + IMPORT_DESCRIPTOR_SIZE))
  }

  lemma RangesCons(e: ImportDirectoryEntry, rest: seq<ImportDirectoryEntry>, ranges: seq<(u32, u32)>)
    requires |ranges| == |rest|
    requires forall k :: 0 <= k < |rest| ==> ranges[k] == NameRange(rest[k].impdesc.Name, |rest[k].name|)
    ensures var es := [e] + rest; var rs := [NameRange(e.impdesc.Name, |e.name|)] + ranges;
      |rs| == |es| && forall k :: 0 <= k < |es| ==> rs[k] == NameRange(es[k].impdesc.Name, |es[k].name|)
  {
    var es := [e] + rest;
    var rs := [NameRange(e.impdesc.Name, |e.name|)] + ranges;
    forall k | 0 <= k < |es|
      ensures rs[k] == NameRange(es[k].impdesc.Name, |es[k].name|)
    {
      if k > 0 {
        assert rs[k] == ranges[k - 1] && es[k] == rest[k - 1];
      }
    }
  }

  /**
   * What the descriptor loop promises of a scan from `rva`: every DLL it
   * keeps is read from the descriptor 20 bytes after the one before and
   * passed every check; each one has its name range; the loop stops 20 bytes
   * past the last descriptor it read (at the descriptor that does not fit
   * when the table is cut), and reports only the errors of the loop.
   */
  predicate ScanWellFormed(img: seq<u8>, sizeOfImage: u32, rva: nat, s: DescriptorScan)
    requires |img| < TWO_32
  {
    WellReadFrom(img, sizeOfImage, s.entries, rva) &&
    |s.nameRanges| == |s.entries| &&
    (forall k :: 0 <= k < |s.entries| ==> s.nameRanges[k] == NameRange(s.entries[k].impdesc.Name, |s.entries[k].name|)) &&
    s.end as nat == rva + IMPORT_DESCRIPTOR_SIZE * (|s.entries| + if s.error == LDR_ERROR_IMPDIR_CUT then 0 else 1) &&
    DescriptorError(s.error)
  }

  /** A DLL read at `rva` in front of a well-formed scan from 20 bytes on. */
  lemma ScanCons(img: seq<u8>, sizeOfImage: u32, rva: nat, next: nat, e: ImportDirectoryEntry, rest: DescriptorScan)
    requires |img| < TWO_32 && next == rva + IMPORT_DESCRIPTOR_SIZE
    requires WellRead(img, sizeOfImage, e, rva) && ScanWellFormed(img, sizeOfImage, next, rest)
    ensures ScanWellFormed(img, sizeOfImage, rva, GlueScan([e], [NameRange(e.impdesc.Name, |e.name|)], rest))
  {
    assert ([e] + rest.entries)[1..] == rest.entries;
    RangesCons(e, rest.entries, rest.nameRanges);
  }

  /** The descriptor loop from any `rva` gives a well-formed scan. */
  lemma {:induction false} DescriptorsWellFormed(img: seq<u8>, sizeOfImage: u32, rva: u32, seen: set<seq<u8>>)
    requires |img| < TWO_32
    ensures ScanWellFormed(img, sizeOfImage, rva, Descriptors(img, sizeOfImage, rva, seen))
    decreases sizeOfImage - rva
  {
    if rva + IMPORT_DESCRIPTOR_SIZE < sizeOfImage {
      var o := DescriptorStep(img, sizeOfImage, rva);
      DescriptorsUnfold(img, sizeOfImage, rva, seen, o);
      if o.Candidate? && !TooMany(seen, o.name) {
        var next := (rva + IMPORT_DESCRIPTOR_SIZE) as u32;
        DescriptorsWellFormed(img, sizeOfImage, next, seen + {o.name});
        var e := ImportDirectoryEntry(o.desc, o.name, []);
        assert WellRead(img, sizeOfImage, e, rva);
        ScanCons(img, sizeOfImage, rva, next, e, Descriptors(img, sizeOfImage, next, seen + {o.name}));
      }
    }
  }

  /** The DLL names of a list of entries. */
  function EntryNames(entries: seq<ImportDirectoryEntry>): (r: set<seq<u8>>)
    ensures forall k :: 0 <= k < |entries| ==> entries[k].name in r
  {
    if entries == [] then {} else {entries[0].name} + EntryNames(entries[1..])
  }

  /**
   * The descriptor loop keeps at most 0x100 distinct DLL names, counting
   * those seen before: a descriptor with one more new name ends it.
   */
  lemma {:induction false} DescriptorsNameCount(img: seq<u8>, sizeOfImage: u32, rva: u32, seen: set<seq<u8>>)
    requires |img| < TWO_32 && |seen| <= MAX_IMPORT_DLLS
    ensures |seen + EntryNames(Descriptors(img, sizeOfImage, rva, seen).entries)| <= MAX_IMPORT_DLLS
    decreases sizeOfImage - rva
  {
    if rva + IMPORT_DESCRIPTOR_SIZE < sizeOfImage {
      var o := DescriptorStep(img, sizeOfImage, rva);
      DescriptorsUnfold(img, sizeOfImage, rva, seen, o);
      if o.Candidate? && !TooMany(seen, o.name) {
        var next := (rva + IMPORT_DESCRIPTOR_SIZE) as u32;
        var seen' := seen + {o.name};
        assert |seen'| <= MAX_IMPORT_DLLS by {
          if o.name in seen { assert seen' == seen; }
        }
        DescriptorsNameCount(img, sizeOfImage, next, seen');
        NamesCons(seen, ImportDirectoryEntry(o.desc, o.name, []), Descriptors(img, sizeOfImage, next, seen').entries);
      } else {
        assert EntryNames(Descriptors(img, sizeOfImage, rva, seen).entries) == {};
      }
    } else {
      assert EntryNames(Descriptors(img, sizeOfImage, rva, seen).entries) == {};
    }
  }

  /** The names of one more entry in front. */
  lemma NamesCons(seen: set<seq<u8>>, e: ImportDirectoryEntry, rest: seq<ImportDirectoryEntry>)
    ensures seen + EntryNames([e] + rest) == (seen + {e.name}) + EntryNames(rest)
  {
    assert ([e] + rest)[1..] == rest;
  }

  /** One pass of read's descriptor loop: the descriptor at `at`, checked. */
  method ReadDescriptor(img: seq<u8>, sizeOfImage: u32, at: u32) returns (o: DescriptorOutcome)
    requires |img| < TWO_32
    ensures o == DescriptorStep(img, sizeOfImage, at)
  {
    var raw := ReadImage(img, at, IMPORT_DESCRIPTOR_SIZE as u32);
    var d := DescriptorOf(raw);
    if d.Name == 0 || d.FirstThunk == 0 {
      return Terminator;
    }
    if d.Name > sizeOfImage {
      return Rejected(LDR_ERROR_IMPDIR_NAME_RVA_INVALID);
    }
    if d.FirstThunk > sizeOfImage {
      return Rejected(LDR_ERROR_IMPDIR_THUNK_RVA_INVALID);
    }
    var name := ReadStringUpTo(img, d.Name, IMPORT_LIBRARY_MAX_LENGTH);
    var bad := IsBadImportName(name);
    if bad {
      return Rejected(LDR_ERROR_IMPDIR_NAME_RVA_INVALID);
    }
    o := Candidate(d, name);
  }

  /**
   * One pass of read's descriptor loop at `rva`, the DLL names seen so far
   * kept in a set: either the loop ends here, or the DLL is kept and the
   * loop goes on at `next`.
   */
  method DescriptorPass(img: seq<u8>, sizeOfImage: u32, rva: u32, seen: set<seq<u8>>,
                        entries: seq<ImportDirectoryEntry>, nameRanges: seq<(u32, u32)>)
    returns (done: bool, entries': seq<ImportDirectoryEntry>, nameRanges': seq<(u32, u32)>, next: u32, error: LoaderError, seen': set<seq<u8>>)
    requires |img| < TWO_32 && rva + IMPORT_DESCRIPTOR_SIZE < sizeOfImage
    ensures next as nat == rva + IMPORT_DESCRIPTOR_SIZE
    ensures done ==>
      (GlueScan(entries, nameRanges, Descriptors(img, sizeOfImage, rva, seen)) ==
       DescriptorScan(entries', nameRanges', next, error))
    ensures !done ==>
      (GlueScan(entries, nameRanges, Descriptors(img, sizeOfImage, rva, seen)) ==
       GlueScan(entries', nameRanges', Descriptors(img, sizeOfImage, next, seen')))
  {
    var o := ReadDescriptor(img, sizeOfImage, rva);
    next := (rva + IMPORT_DESCRIPTOR_SIZE) as u32;
    entries', nameRanges', seen' := entries, nameRanges, seen;
    if o.Terminator? {
      GlueStepEnds(img, sizeOfImage, rva, seen, o, entries, nameRanges, LDR_ERROR_NONE);
      return true, entries, nameRanges, next, LDR_ERROR_NONE, seen;
    }
    if o.Rejected? {
      GlueStepEnds(img, sizeOfImage, rva, seen, o, entries, nameRanges, o.error);
      return true, entries, nameRanges, next, o.error, seen;
    }
    if o.name !in seen {
      seen' := seen + {o.name};
      if |seen'| > MAX_IMPORT_DLLS {
        GlueStepEnds(img, sizeOfImage, rva, seen, o, entries, nameRanges, LDR_ERROR_IMPDIR_COUNT_EXCEEDED);
        return true, entries, nameRanges, next, LDR_ERROR_IMPDIR_COUNT_EXCEEDED, seen';
      }
    } else {
      assert seen + {o.name} == seen;
    }
    GlueStepKeeps(img, sizeOfImage, rva, seen, o, entries, nameRanges);
    done, error := false, LDR_ERROR_NONE;
    entries', nameRanges' := entries + [ImportDirectoryEntry(o.desc, o.name, [])], nameRanges + [NameRange(o.desc.Name, |o.name|)];
  }

  /** A pass of the descriptor loop that ends it, with the error it reports. */
  lemma GlueStepEnds(img: seq<u8>, sizeOfImage: u32, rva: u32, seen: set<seq<u8>>, o: DescriptorOutcome,
                     entries: seq<ImportDirectoryEntry>, ranges: seq<(u32, u32)>, error: LoaderError)
    requires |img| < TWO_32 && rva + IMPORT_DESCRIPTOR_SIZE < sizeOfImage
    requires o == DescriptorStep(img, sizeOfImage, rva)
    requires (o.Terminator? && error == LDR_ERROR_NONE) || (o.Rejected? && error == o.error) ||
      (o.Candidate? && TooMany(seen, o.name) && error == LDR_ERROR_IMPDIR_COUNT_EXCEEDED)
    ensures GlueScan(entries, ranges, Descriptors(img, sizeOfImage, rva, seen)) ==
      DescriptorScan(entries, ranges, (rva + IMPORT_DESCRIPTOR_SIZE) as u32, error)
  {
    DescriptorsGlueStep(img, sizeOfImage, rva, seen, o, entries, ranges);
  }

  /** A pass of the descriptor loop that keeps the DLL and goes on. */
  lemma GlueStepKeeps(img: seq<u8>, sizeOfImage: u32, rva: u32, seen: set<seq<u8>>, o: DescriptorOutcome,
                      entries: seq<ImportDirectoryEntry>, ranges: seq<(u32, u32)>)
    requires |img| < TWO_32 && rva + IMPORT_DESCRIPTOR_SIZE < sizeOfImage
    requires o == DescriptorStep(img, sizeOfImage, rva) && o.Candidate? && !TooMany(seen, o.name)
    ensures GlueScan(entries, ranges, Descriptors(img, sizeOfImage, rva, seen)) ==
      GlueScan(entries + [ImportDirectoryEntry(o.desc, o.name, [])], ranges + [NameRange(o.desc.Name, |o.name|)],
        Descriptors(img, sizeOfImage, (rva + IMPORT_DESCRIPTOR_SIZE) as u32, seen + {o.name}))
  {
    DescriptorsGlueStep(img, sizeOfImage, rva, seen, o, entries, ranges);
  }

  /** read's descriptor loop. */
  method ReadDescriptors(img: seq<u8>, sizeOfImage: u32, rvaBegin: u32)
    returns (entries: seq<ImportDirectoryEntry>, nameRanges: seq<(u32, u32)>, rva: u32, error: LoaderError)
    requires |img| < TWO_32
    ensures DescriptorScan(entries, nameRanges, rva, error) == Descriptors(img, sizeOfImage, rvaBegin, {})
  {
    entries, nameRanges, rva := [], [], rvaBegin;
    var seen: set<seq<u8>> := {};
    GlueScanNil(Descriptors(img, sizeOfImage, rvaBegin, {}));
    while rva + IMPORT_DESCRIPTOR_SIZE < sizeOfImage
      invariant Descriptors(img, sizeOfImage, rvaBegin, {}) == GlueScan(entries, nameRanges, Descriptors(img, sizeOfImage, rva, seen))
      decreases sizeOfImage - rva
    {
      var done, next;
      done, entries, nameRanges, next, error, seen := DescriptorPass(img, sizeOfImage, rva, seen, entries, nameRanges);
      if done {
        return entries, nameRanges, next, error;
      }
      rva := next;
    }
    GlueScanEmpty(entries, nameRanges, rva, LDR_ERROR_IMPDIR_CUT);
    error := LDR_ERROR_IMPDIR_CUT;
  }

  // ---------------------------------------------------------------------
  // read: the thunks

  /** ordLookUp: the name a DLL's export has for an ordinal (code outside this model). */
  type OrdinalLookUp = (seq<u8>, u32) -> seq<u8>

  /** A thunk as read, with the range its hint and name occupy and the error it reports. */
  datatype ThunkRead = ThunkRead(thunk: ThunkData, ranges: seq<(u32, u32)>, errors: seq<LoaderError>)

  /**
   * One thunk of value `value` whose slot in the address table is
   * `patchRva`. With the ordinal bit clear it names a hint/name pair, which
   * must start inside the image; read takes the 2-byte hint (0 and
   * LDR_ERROR_IMPDIR_THUNK_RVA_INVALID when it cannot) and the name after
   * it. With the bit set the rest, cut to 32 bits, is the ordinal, which
   * must fit in 16 bits; the name is looked up.
   */
  function ThunkOf(img: seq<u8>, oh: OptionalHeader, lookUp: OrdinalLookUp, dllName: seq<u8>, value: u64, patchRva: u32): (r: ThunkRead)
    requires |img| < TWO_32
    ensures r.thunk.Ordinal == value && r.thunk.patchRva == patchRva
    ensures r.errors == [] || r.errors == [LDR_ERROR_IMPDIR_THUNK_RVA_INVALID]
  {
    var mask := OrdinalMask(oh);
    if BitAnd(value, mask) == 0 then
      if value < oh.SizeOfImage as nat then
        var h := ReadImage(img, value as u32, 2);
        var fname := ReadStringUpTo(img, Trunc32(value + 2), IMPORT_SYMBOL_MAX_LENGTH);
        var range := (value as u32, RoundUpEven(Trunc32(value + 2 + |fname| + 1)));
        if |h| == 2 then ThunkRead(ThunkData(value, fname, patchRva, U16At(h, 0)), [range], [])
        else ThunkRead(ThunkData(value, fname, patchRva, 0), [range], [LDR_ERROR_IMPDIR_THUNK_RVA_INVALID])
      else ThunkRead(ThunkData(value, [], patchRva, 0), [], [LDR_ERROR_IMPDIR_THUNK_RVA_INVALID])
    else
      var ordinal := Trunc32(value - BitAnd(value, mask));
      if ordinal < 0x1_0000 then ThunkRead(ThunkData(value, lookUp(dllName, ordinal), patchRva, 0), [], [])
      else ThunkRead(ThunkData(value, [], patchRva, 0), [], [LDR_ERROR_IMPDIR_THUNK_RVA_INVALID])
  }

  /**
   * How getImportedFunction reports a thunk read: by ordinal exactly when
   * the ordinal bit was set, and then with the looked-up name when the
   * ordinal fits in 16 bits and as an error otherwise; by name with the hint
   * from the image when the hint/name pair lies in the image, the pair's
   * range covering hint, name and NUL.
   */
  lemma ThunkReported(img: seq<u8>, oh: OptionalHeader, lookUp: OrdinalLookUp, dllName: seq<u8>, value: u64, patchRva: u32)
    requires |img| < TWO_32
    ensures var t := ThunkOf(img, oh, lookUp, dllName, value, patchRva);
      var f := FunctionOf(t.thunk, OrdinalMask(oh));
      (f.isImportByOrdinal <==> BitAnd(value, OrdinalMask(oh)) != 0) &&
      (f.isImportByOrdinal ==>
        (f.importName == (if f.importOrdinal < 0x1_0000 then lookUp(dllName, f.importOrdinal) else []) &&
         (t.errors == [] <==> f.importOrdinal < 0x1_0000))) &&
      (!f.isImportByOrdinal ==>
        (t.errors == [] <==> value < oh.SizeOfImage as nat && |ReadImage(img, value as u32, 2)| == 2) &&
        (t.errors == [] ==> f.importHint == U16At(ReadImage(img, value as u32, 2), 0)) &&
        (value < oh.SizeOfImage as nat && value + |f.importName| + 4 < TWO_32 ==>
          t.ranges == [(value as u32, t.ranges[0].1)] && t.ranges[0].1 % 2 == 0 &&
          value + 2 + |f.importName| + 1 <= t.ranges[0].1 <= value + 2 + |f.importName| + 2))
  {
  }

  /** What read's thunk loop gathers for one DLL. */
  datatype ThunkScan = ThunkScan(thunks: seq<ThunkData>, nameRanges: seq<(u32, u32)>, errors: seq<LoaderError>)

  /**
   * read's thunk loop for one DLL, at the `index`-th thunk, read from the
   * lookup table at `ot` and patched at `ft`: it ends at a pointer that
   * cannot be read or is zero, and with LDR_ERROR_IMPDIR_IMPORT_COUNT_EXCEEDED
   * at the 0x1001st function.
   */
  function Thunks(img: seq<u8>, oh: OptionalHeader, lookUp: OrdinalLookUp, dllName: seq<u8>, ot: u32, ft: u32, index: nat): (s: ThunkScan)
    requires |img| < TWO_32 && index <= MAX_IMPORTED_FUNCTIONS
    decreases MAX_IMPORTED_FUNCTIONS - index, 1
  {
    ThunksPastRead(img, oh, lookUp, dllName, ot, ft, index, Add32(ot, PointerSize(oh)), Add32(ft, PointerSize(oh)))
  }

  /** The thunk loop, with the slots that follow `ot` and `ft`. */
  function ThunksPastRead(img: seq<u8>, oh: OptionalHeader, lookUp: OrdinalLookUp, dllName: seq<u8>,
                          ot: u32, ft: u32, index: nat, nextOt: u32, nextFt: u32): (s: ThunkScan)
    requires |img| < TWO_32 && index <= MAX_IMPORTED_FUNCTIONS
    requires nextOt == Add32(ot, PointerSize(oh)) && nextFt == Add32(ft, PointerSize(oh))
    decreases MAX_IMPORTED_FUNCTIONS - index, 0
  {
    match ReadPointer(img, oh, ot)
    case None => ThunkScan([], [], [])
    case Some(v) =>
      if v == 0 then ThunkScan([], [], [])
      else if index >= MAX_IMPORTED_FUNCTIONS then ThunkScan([], [], [LDR_ERROR_IMPDIR_IMPORT_COUNT_EXCEEDED])
      else
        var t := ThunkOf(img, oh, lookUp, dllName, v, ft);
        var rest := Thunks(img, oh, lookUp, dllName, nextOt, nextFt, index + 1);
        ThunkScan([t.thunk] + rest.thunks, t.ranges + rest.nameRanges, t.errors + rest.errors)
  }

  function GlueThunks(acc: ThunkScan, s: ThunkScan): ThunkScan
  {
    ThunkScan(acc.thunks + s.thunks, acc.nameRanges + s.nameRanges, acc.errors + s.errors)
  }

  function AddThunk(acc: ThunkScan, t: ThunkRead): ThunkScan
  {
    ThunkScan(acc.thunks + [t.thunk], acc.nameRanges + t.ranges, acc.errors + t.errors)
  }

  lemma GlueThunksEmpty(acc: ThunkScan)
    ensures GlueThunks(acc, ThunkScan([], [], [])) == acc
  {
    assert acc.thunks + [] == acc.thunks && acc.nameRanges + [] == acc.nameRanges && acc.errors + [] == acc.errors;
  }

  lemma GlueThunksNil(s: ThunkScan)
    ensures GlueThunks(ThunkScan([], [], []), s) == s
  {
    assert [] + s.thunks == s.thunks && [] + s.nameRanges == s.nameRanges && [] + s.errors == s.errors;
  }

  lemma GlueThunksAdd(acc: ThunkScan, t: ThunkRead, s: ThunkScan)
    ensures GlueThunks(acc, ThunkScan([t.thunk] + s.thunks, t.ranges + s.nameRanges, t.errors + s.errors)) ==
      GlueThunks(AddThunk(acc, t), s)
  {
    ConcatAssoc(acc.thunks, [t.thunk], s.thunks);
    ConcatAssoc(acc.nameRanges, t.ranges, s.nameRanges);
    ConcatAssoc(acc.errors, t.errors, s.errors);
  }

  /** The thunk loop one thunk at a time, given the pointer read at `ot`. */
  lemma ThunksUnfold(img: seq<u8>, oh: OptionalHeader, lookUp: OrdinalLookUp, dllName: seq<u8>,
                     ot: u32, ft: u32, index: nat, value: Option<u64>)
    requires |img| < TWO_32 && index <= MAX_IMPORTED_FUNCTIONS && value == ReadPointer(img, oh, ot)
    ensures var s := Thunks(img, oh, lookUp, dllName, ot, ft, index);
      (value.None? || value.value == 0 ==> s == ThunkScan([], [], [])) &&
      (value.Some? && value.value != 0 && index >= MAX_IMPORTED_FUNCTIONS ==>
        s == ThunkScan([], [], [LDR_ERROR_IMPDIR_IMPORT_COUNT_EXCEEDED])) &&
      (value.Some? && value.value != 0 && index < MAX_IMPORTED_FUNCTIONS ==>
        var t := ThunkOf(img, oh, lookUp, dllName, value.value, ft);
        var rest := Thunks(img, oh, lookUp, dllName, Add32(ot, PointerSize(oh)), Add32(ft, PointerSize(oh)), index + 1);
        s == ThunkScan([t.thunk] + rest.thunks, t.ranges + rest.nameRanges, t.errors + rest.errors))
  {
    assert Thunks(img, oh, lookUp, dllName, ot, ft, index) ==
      ThunksPastRead(img, oh, lookUp, dllName, ot, ft, index, Add32(ot, PointerSize(oh)), Add32(ft, PointerSize(oh)));
  }

  /**
   * The thunk loop reads at most 0x1000 - index functions and reports
   * LDR_ERROR_IMPDIR_IMPORT_COUNT_EXCEEDED only once it has read them all.
   */
  lemma {:induction false} ThunksCount(img: seq<u8>, oh: OptionalHeader, lookUp: OrdinalLookUp, dllName: seq<u8>, ot: u32, ft: u32, index: nat)
    requires |img| < TWO_32 && index <= MAX_IMPORTED_FUNCTIONS
    ensures var s := Thunks(img, oh, lookUp, dllName, ot, ft, index);
      |s.thunks| <= MAX_IMPORTED_FUNCTIONS - index &&
      (LDR_ERROR_IMPDIR_IMPORT_COUNT_EXCEEDED in s.errors ==> |s.thunks| == MAX_IMPORTED_FUNCTIONS - index)
    decreases MAX_IMPORTED_FUNCTIONS - index
  {
    ThunksShape(img, oh, lookUp, dllName, ot, ft, index);
    if |Thunks(img, oh, lookUp, dllName, ot, ft, index).thunks| > 0 {
      var ps := PointerSize(oh);
      ThunksCount(img, oh, lookUp, dllName, Add32(ot, ps), Add32(ft, ps), index + 1);
    }
  }

  /** The shape of one pass of the thunk loop: no function, or one and the loop from the next slots. */
  lemma ThunksShape(img: seq<u8>, oh: OptionalHeader, lookUp: OrdinalLookUp, dllName: seq<u8>, ot: u32, ft: u32, index: nat)
    requires |img| < TWO_32 && index <= MAX_IMPORTED_FUNCTIONS
    ensures var s := Thunks(img, oh, lookUp, dllName, ot, ft, index);
      (|s.thunks| == 0 ==> (LDR_ERROR_IMPDIR_IMPORT_COUNT_EXCEEDED in s.errors ==> index == MAX_IMPORTED_FUNCTIONS)) &&
      (|s.thunks| > 0 ==>
        (index < MAX_IMPORTED_FUNCTIONS &&
         var rest := Thunks(img, oh, lookUp, dllName, Add32(ot, PointerSize(oh)), Add32(ft, PointerSize(oh)), index + 1);
         |s.thunks| == 1 + |rest.thunks| &&
         (LDR_ERROR_IMPDIR_IMPORT_COUNT_EXCEEDED in s.errors ==> LDR_ERROR_IMPDIR_IMPORT_COUNT_EXCEEDED in rest.errors)))
  {
    var value := ReadPointer(img, oh, ot);
    ThunksUnfold(img, oh, lookUp, dllName, ot, ft, index, value);
    if value.Some? && value.value != 0 && index < MAX_IMPORTED_FUNCTIONS {
      var t := ThunkOf(img, oh, lookUp, dllName, value.value, ft);
      var rest := Thunks(img, oh, lookUp, dllName, Add32(ot, PointerSize(oh)), Add32(ft, PointerSize(oh)), index + 1);
      assert LDR_ERROR_IMPDIR_IMPORT_COUNT_EXCEEDED !in t.errors;
      assert Thunks(img, oh, lookUp, dllName, ot, ft, index).errors == t.errors + rest.errors;
    }
  }

  /** The first function of a DLL is the non-zero pointer at `ot`, as ThunkOf makes it, patched at `ft`. */
  lemma ThunkFirst(img: seq<u8>, oh: OptionalHeader, lookUp: OrdinalLookUp, dllName: seq<u8>, ot: u32, ft: u32, index: nat)
    requires |img| < TWO_32 && index <= MAX_IMPORTED_FUNCTIONS
    requires |Thunks(img, oh, lookUp, dllName, ot, ft, index).thunks| > 0
    ensures ThunkFromSlot(img, oh, lookUp, dllName, Thunks(img, oh, lookUp, dllName, ot, ft, index).thunks[0], ot, ft)
  {
    ThunksUnfold(img, oh, lookUp, dllName, ot, ft, index, ReadPointer(img, oh, ot));
  }

  /** The functions after the first are those of the loop from the next slots. */
  lemma ThunksTail(img: seq<u8>, oh: OptionalHeader, lookUp: OrdinalLookUp, dllName: seq<u8>, ot: u32, ft: u32, index: nat)
    requires |img| < TWO_32 && index <= MAX_IMPORTED_FUNCTIONS
    requires |Thunks(img, oh, lookUp, dllName, ot, ft, index).thunks| > 0
    ensures index < MAX_IMPORTED_FUNCTIONS
    ensures Thunks(img, oh, lookUp, dllName, ot, ft, index).thunks[1..] ==
      Thunks(img, oh, lookUp, dllName, Add32(ot, PointerSize(oh)), Add32(ft, PointerSize(oh)), index + 1).thunks
  {
    ThunksUnfold(img, oh, lookUp, dllName, ot, ft, index, ReadPointer(img, oh, ot));
  }

  /**
   * A function read from the lookup slot at `lookupRva`, patched at the
   * address slot at `addressRva`: the slot's non-zero pointer, as ThunkOf
   * makes it.
   */
  predicate ThunkFromSlot(img: seq<u8>, oh: OptionalHeader, lookUp: OrdinalLookUp, dllName: seq<u8>,
                          t: ThunkData, lookupRva: u32, addressRva: u32)
    requires |img| < TWO_32
  {
    t.Ordinal != 0 && ReadPointer(img, oh, lookupRva) == Some(t.Ordinal) &&
    t == ThunkOf(img, oh, lookUp, dllName, t.Ordinal, addressRva).thunk
  }

  /**
   * Each of `s` read from the slots one pointer after those of the one
   * before, the first from the slots at `ot` and `ft`.
   */
  predicate ThunksFromSlots(img: seq<u8>, oh: OptionalHeader, lookUp: OrdinalLookUp, dllName: seq<u8>,
                            s: seq<ThunkData>, ot: u32, ft: u32)
    requires |img| < TWO_32
    decreases |s|
  {
    s == [] ||
    (ThunkFromSlot(img, oh, lookUp, dllName, s[0], ot, ft) &&
     ThunksFromSlots(img, oh, lookUp, dllName, s[1..], Add32(ot, PointerSize(oh)), Add32(ft, PointerSize(oh))))
  }

  /** The functions of a DLL are read slot by slot from its two tables. */
  lemma {:induction false} ThunksReadFromSlots(img: seq<u8>, oh: OptionalHeader, lookUp: OrdinalLookUp, dllName: seq<u8>,
                                               ot: u32, ft: u32, index: nat)
    requires |img| < TWO_32 && index <= MAX_IMPORTED_FUNCTIONS
    ensures ThunksFromSlots(img, oh, lookUp, dllName, Thunks(img, oh, lookUp, dllName, ot, ft, index).thunks, ot, ft)
    decreases MAX_IMPORTED_FUNCTIONS - index
  {
    if |Thunks(img, oh, lookUp, dllName, ot, ft, index).thunks| > 0 {
      var ps := PointerSize(oh);
      ThunkFirst(img, oh, lookUp, dllName, ot, ft, index);
      ThunksTail(img, oh, lookUp, dllName, ot, ft, index);
      ThunksReadFromSlots(img, oh, lookUp, dllName, Add32(ot, ps), Add32(ft, ps), index + 1);
    }
  }

  /** One pass of the thunk loop, on what the loop has gathered so far. */
  lemma ThunksGlueStep(img: seq<u8>, oh: OptionalHeader, lookUp: OrdinalLookUp, dllName: seq<u8>,
                       ot: u32, ft: u32, index: nat, value: Option<u64>, acc: ThunkScan)
    requires |img| < TWO_32 && index <= MAX_IMPORTED_FUNCTIONS && value == ReadPointer(img, oh, ot)
    ensures var g := GlueThunks(acc, Thunks(img, oh, lookUp, dllName, ot, ft, index));
      (value.None? || value.value == 0 ==> g == acc) &&
      (value.Some? && value.value != 0 && index >= MAX_IMPORTED_FUNCTIONS ==>
        g == ThunkScan(acc.thunks, acc.nameRanges, acc.errors + [LDR_ERROR_IMPDIR_IMPORT_COUNT_EXCEEDED])) &&
      (value.Some? && value.value != 0 && index < MAX_IMPORTED_FUNCTIONS ==>
        g == GlueThunks(AddThunk(acc, ThunkOf(img, oh, lookUp, dllName, value.value, ft)),
          Thunks(img, oh, lookUp, dllName, Add32(ot, PointerSize(oh)), Add32(ft, PointerSize(oh)), index + 1)))
  {
    ThunksUnfold(img, oh, lookUp, dllName, ot, ft, index, value);
    if value.None? || value.value == 0 {
      GlueThunksEmpty(acc);
    } else if index >= MAX_IMPORTED_FUNCTIONS {
      assert acc.thunks + [] == acc.thunks && acc.nameRanges + [] == acc.nameRanges;
    } else {
      var t := ThunkOf(img, oh, lookUp, dllName, value.value, ft);
      GlueThunksAdd(acc, t, Thunks(img, oh, lookUp, dllName, Add32(ot, PointerSize(oh)), Add32(ft, PointerSize(oh)), index + 1));
    }
  }

  /** read's thunk loop for one DLL. */
  method ReadThunks(img: seq<u8>, oh: OptionalHeader, lookUp: OrdinalLookUp, dllName: seq<u8>, originalThunk: u32, firstThunk: u32)
    returns (s: ThunkScan)
    requires |img| < TWO_32
    ensures s == Thunks(img, oh, lookUp, dllName, originalThunk, firstThunk, 0)
  {
    var ot, ft, index := originalThunk, firstThunk, 0;
    s := ThunkScan([], [], []);
    GlueThunksNil(Thunks(img, oh, lookUp, dllName, originalThunk, firstThunk, 0));
    while true
      invariant index <= MAX_IMPORTED_FUNCTIONS
      invariant Thunks(img, oh, lookUp, dllName, originalThunk, firstThunk, 0) ==
        GlueThunks(s, Thunks(img, oh, lookUp, dllName, ot, ft, index))
      decreases MAX_IMPORTED_FUNCTIONS - index
    {
      var done;
      done, s, ot, ft := ReadThunk(img, oh, lookUp, dllName, ot, ft, index, s);
      if done {
        return;
      }
      index := index + 1;
    }
  }

  /**
   * One pass of the thunk loop: it stops at a null or unreadable pointer or
   * at one too many, or adds the function and moves both tables on one slot.
   */
  method ReadThunk(img: seq<u8>, oh: OptionalHeader, lookUp: OrdinalLookUp, dllName: seq<u8>,
                   ot: u32, ft: u32, index: nat, acc: ThunkScan)
    returns (done: bool, s: ThunkScan, ot': u32, ft': u32)
    requires |img| < TWO_32 && index <= MAX_IMPORTED_FUNCTIONS
    ensures done ==> s == GlueThunks(acc, Thunks(img, oh, lookUp, dllName, ot, ft, index))
    ensures !done ==> (index < MAX_IMPORTED_FUNCTIONS &&
      GlueThunks(s, Thunks(img, oh, lookUp, dllName, ot', ft', index + 1)) ==
      GlueThunks(acc, Thunks(img, oh, lookUp, dllName, ot, ft, index)))
  {
    var value := ReadPointer(img, oh, ot);
    ThunksGlueStep(img, oh, lookUp, dllName, ot, ft, index, value, acc);
    ot', ft' := ot, ft;
    if value.None? || value.value == 0 {
      return true, acc, ot', ft';
    }
    if index >= MAX_IMPORTED_FUNCTIONS {
      return true, ThunkScan(acc.thunks, acc.nameRanges, acc.errors + [LDR_ERROR_IMPDIR_IMPORT_COUNT_EXCEEDED]), ot', ft';
    }
    s := AddThunk(acc, ThunkOf(img, oh, lookUp, dllName, value.value, ft));
    var ps := PointerSize(oh);
    done, ot', ft' := false, Add32(ot, ps), Add32(ft, ps);
  }

  // ---------------------------------------------------------------------
  // read: the thunks of every DLL

  /** hasValidOriginalFirstThunk: the lookup table lies between the headers and the end of the image. */
  predicate HasValidOriginalFirstThunk(oh: OptionalHeader, d: ImportDescriptor)
  {
    oh.SizeOfHeaders <= d.OriginalFirstThunk < oh.SizeOfImage
  }

  /** The table read takes a DLL's thunks from: the lookup table when valid, otherwise the address table. */
  function LookupTable(oh: OptionalHeader, d: ImportDescriptor): (r: u32)
    ensures HasValidOriginalFirstThunk(oh, d) ==> r == d.OriginalFirstThunk
    ensures !HasValidOriginalFirstThunk(oh, d) ==> r == d.FirstThunk
  {
    if HasValidOriginalFirstThunk(oh, d) then d.OriginalFirstThunk else d.FirstThunk
  }

  /** The thunk loop for one DLL. */
  function EntryThunks(img: seq<u8>, oh: OptionalHeader, lookUp: OrdinalLookUp, e: ImportDirectoryEntry): ThunkScan
    requires |img| < TWO_32
  {
    Thunks(img, oh, lookUp, e.name, LookupTable(oh, e.impdesc), e.impdesc.FirstThunk, 0)
  }

  /** What read's second loop makes of the DLLs: their functions, the name ranges and errors on the way. */
  datatype EntriesScan = EntriesScan(entries: seq<ImportDirectoryEntry>, nameRanges: seq<(u32, u32)>, errors: seq<LoaderError>)

  /**
   * read's loop over the DLLs: each gets the functions of its thunk loop,
   * except that a DLL whose FirstThunk an earlier one (or `seen`) had is
   * skipped, keeping its functions as they were.
   */
  function AllThunks(img: seq<u8>, oh: OptionalHeader, lookUp: OrdinalLookUp, entries: seq<ImportDirectoryEntry>, seen: set<u32>): (r: EntriesScan)
    requires |img| < TWO_32
    decreases |entries|
  {
    if entries == [] then EntriesScan([], [], [])
    else
      var e := entries[0];
      var ft := e.impdesc.FirstThunk;
      if ft in seen then
        var rest := AllThunks(img, oh, lookUp, entries[1..], seen);
        EntriesScan([e] + rest.entries, rest.nameRanges, rest.errors)
      else
        var t := EntryThunks(img, oh, lookUp, e);
        var rest := AllThunks(img, oh, lookUp, entries[1..], seen + {ft});
        EntriesScan([e.(thunk_data := e.thunk_data + t.thunks)] + rest.entries, t.nameRanges + rest.nameRanges, t.errors + rest.errors)
  }

  /** Entry `k`'s address table was met before: in `seen` or at an earlier entry. */
  predicate TableSeen(entries: seq<ImportDirectoryEntry>, seen: set<u32>, k: nat)
    requires k < |entries|
  {
    entries[k].impdesc.FirstThunk in seen ||
    exists j :: 0 <= j < k && entries[j].impdesc.FirstThunk == entries[k].impdesc.FirstThunk
  }

  /** What AllThunks does to entry `k`. */
  predicate EntryDone(img: seq<u8>, oh: OptionalHeader, lookUp: OrdinalLookUp, entries: seq<ImportDirectoryEntry>,
                      seen: set<u32>, k: nat, r: ImportDirectoryEntry)
    requires |img| < TWO_32 && k < |entries|
  {
    if TableSeen(entries, seen, k) then r == entries[k]
    else r == entries[k].(thunk_data := entries[k].thunk_data + EntryThunks(img, oh, lookUp, entries[k]).thunks)
  }

  lemma TableSeenShift(entries: seq<ImportDirectoryEntry>, seen: set<u32>, k: nat)
    requires 0 < k < |entries|
    ensures var ft := entries[0].impdesc.FirstThunk;
      TableSeen(entries, seen, k) <==> TableSeen(entries[1..], if ft in seen then seen else seen + {ft}, k - 1)
  {
    var ft := entries[0].impdesc.FirstThunk;
    var x := entries[k].impdesc.FirstThunk;
    if TableSeen(entries, seen, k) && x !in seen {
      var j :| 0 <= j < k && entries[j].impdesc.FirstThunk == x;
      if j > 0 {
        assert entries[1..][j - 1].impdesc.FirstThunk == x;
      }
    }
    if TableSeen(entries[1..], if ft in seen then seen else seen + {ft}, k - 1) && x !in seen {
      if x != ft {
        var j :| 0 <= j < k - 1 && entries[1..][j].impdesc.FirstThunk == x;
        assert entries[j + 1].impdesc.FirstThunk == x;
      } else {
        assert entries[0].impdesc.FirstThunk == x;
      }
    }
  }

  /**
   * Don't let two DLLs take functions from the same table: AllThunks keeps
   * every DLL with its descriptor and name, gives each the functions of its
   * thunk loop, and leaves a DLL whose FirstThunk was met before as it was.
   */
  lemma {:induction false} AllThunksMeaning(img: seq<u8>, oh: OptionalHeader, lookUp: OrdinalLookUp,
                                            entries: seq<ImportDirectoryEntry>, seen: set<u32>)
    requires |img| < TWO_32
    ensures var r := AllThunks(img, oh, lookUp, entries, seen);
      |r.entries| == |entries| &&
      forall k :: 0 <= k < |entries| ==> EntryDone(img, oh, lookUp, entries, seen, k, r.entries[k])
    decreases |entries|
  {
    if entries != [] {
      var ft := entries[0].impdesc.FirstThunk;
      var seen' := if ft in seen then seen else seen + {ft};
      AllThunksMeaning(img, oh, lookUp, entries[1..], seen');
      var r := AllThunks(img, oh, lookUp, entries, seen);
      var rest := AllThunks(img, oh, lookUp, entries[1..], seen');
      assert r.entries[1..] == rest.entries;
      forall k | 0 <= k < |entries|
        ensures EntryDone(img, oh, lookUp, entries, seen, k, r.entries[k])
      {
        if k > 0 {
          TableSeenShift(entries, seen, k);
          assert r.entries[k] == rest.entries[k - 1];
          assert EntryDone(img, oh, lookUp, entries[1..], seen', k - 1, rest.entries[k - 1]);
          assert entries[1..][k - 1] == entries[k];
        }
      }
    }
  }

  function GlueEntries(acc: EntriesScan, s: EntriesScan): EntriesScan
  {
    EntriesScan(acc.entries + s.entries, acc.nameRanges + s.nameRanges, acc.errors + s.errors)
  }

  lemma GlueEntriesStep(acc: EntriesScan, e: ImportDirectoryEntry, ranges: seq<(u32, u32)>, errors: seq<LoaderError>, s: EntriesScan)
    ensures GlueEntries(acc, EntriesScan([e] + s.entries, ranges + s.nameRanges, errors + s.errors)) ==
      GlueEntries(EntriesScan(acc.entries + [e], acc.nameRanges + ranges, acc.errors + errors), s)
  {
    ConcatAssoc(acc.entries, [e], s.entries);
    ConcatAssoc(acc.nameRanges, ranges, s.nameRanges);
    ConcatAssoc(acc.errors, errors, s.errors);
  }

  /** One pass of read's loop over the DLLs, on what the loop has gathered so far. */
  lemma AllThunksGlueStep(img: seq<u8>, oh: OptionalHeader, lookUp: OrdinalLookUp, entries: seq<ImportDirectoryEntry>,
                          i: nat, seen: set<u32>, acc: EntriesScan)
    requires |img| < TWO_32 && i < |entries|
    ensures var e := entries[i];
      var g := GlueEntries(acc, AllThunks(img, oh, lookUp, entries[i..], seen));
      (e.impdesc.FirstThunk in seen ==>
        g == GlueEntries(EntriesScan(acc.entries + [e], acc.nameRanges, acc.errors), AllThunks(img, oh, lookUp, entries[i + 1..], seen))) &&
      (e.impdesc.FirstThunk !in seen ==>
        var t := EntryThunks(img, oh, lookUp, e);
        g == GlueEntries(EntriesScan(acc.entries + [e.(thunk_data := e.thunk_data + t.thunks)], acc.nameRanges + t.nameRanges, acc.errors + t.errors),
          AllThunks(img, oh, lookUp, entries[i + 1..], seen + {e.impdesc.FirstThunk})))
  {
    var e := entries[i];
    assert entries[i..][0] == e && entries[i..][1..] == entries[i + 1..];
    if e.impdesc.FirstThunk in seen {
      var s := AllThunks(img, oh, lookUp, entries[i + 1..], seen);
      GlueEntriesStep(acc, e, [], [], s);
      assert [] + s.nameRanges == s.nameRanges && [] + s.errors == s.errors;
      assert acc.nameRanges + [] == acc.nameRanges && acc.errors + [] == acc.errors;
    } else {
      var t := EntryThunks(img, oh, lookUp, e);
      GlueEntriesStep(acc, e.(thunk_data := e.thunk_data + t.thunks), t.nameRanges, t.errors,
        AllThunks(img, oh, lookUp, entries[i + 1..], seen + {e.impdesc.FirstThunk}));
    }
  }

  /** read's loop over the DLLs, with the FirstThunks met kept in a set. */
  method ReadAllThunks(img: seq<u8>, oh: OptionalHeader, lookUp: OrdinalLookUp, entries: seq<ImportDirectoryEntry>)
    returns (r: EntriesScan)
    requires |img| < TWO_32
    ensures r == AllThunks(img, oh, lookUp, entries, {})
  {
    r := EntriesScan([], [], []);
    var seenOffsets: set<u32> := {};
    var i := 0;
    assert entries[0..] == entries;
    assert GlueEntries(r, AllThunks(img, oh, lookUp, entries, {})) == AllThunks(img, oh, lookUp, entries, {}) by {
      var a := AllThunks(img, oh, lookUp, entries, {});
      assert [] + a.entries == a.entries && [] + a.nameRanges == a.nameRanges && [] + a.errors == a.errors;
    }
    while i < |entries|
      invariant i <= |entries|
      invariant AllThunks(img, oh, lookUp, entries, {}) == GlueEntries(r, AllThunks(img, oh, lookUp, entries[i..], seenOffsets))
    {
      var e := entries[i];
      var firstThunk := e.impdesc.FirstThunk;
      AllThunksGlueStep(img, oh, lookUp, entries, i, seenOffsets, r);
      if firstThunk in seenOffsets {
        r := EntriesScan(r.entries + [e], r.nameRanges, r.errors);
      } else {
        seenOffsets := seenOffsets + {firstThunk};
        var t := ReadThunks(img, oh, lookUp, e.name, LookupTable(oh, e.impdesc), firstThunk);
        r := EntriesScan(r.entries + [e.(thunk_data := e.thunk_data + t.thunks)], r.nameRanges + t.nameRanges, r.errors + t.errors);
      }
      i := i + 1;
    }
    assert entries[i..] == [];
    assert r.entries + [] == r.entries && r.nameRanges + [] == r.nameRanges && r.errors + [] == r.errors;
  }

  // ---------------------------------------------------------------------
  // The directory object

  class ImportDirectory {
    var oldiid: seq<ImportDirectoryEntry>
    var newiid: seq<ImportDirectoryEntry>
    var occupiedAddresses: seq<(u32, u32)>
    var ordinalMask: u64
    var ldrError: LoaderError
    var thunkSize: nat

    /** The ordinal mask is the top bit of a thunk of thunkSize bytes. */
    ghost predicate Valid()
      reads this
    {
      1 <= thunkSize <= 8 && ordinalMask == Pow2(8 * thunkSize - 1)
    }

    constructor ()
      ensures Valid()
      ensures oldiid == [] && newiid == [] && occupiedAddresses == []
      ensures ordinalMask == 0x8000_0000 && thunkSize == 4 && ldrError == LDR_ERROR_NONE
    {
      oldiid, newiid, occupiedAddresses := [], [], [];
      ldrError := LDR_ERROR_NONE;
      ordinalMask := 0x8000_0000;
      thunkSize := 4;
      Pow2TopBits();
    }

    /** getImportList. */
    function ImportList(newDir: bool): seq<ImportDirectoryEntry>
      reads this
    {
      if newDir then newiid else oldiid
    }

    /** setPointerSize: the thunk size, and the ordinal mask as its top bit. */
    method SetPointerSize(pointerSize: u32)
      requires 1 <= pointerSize <= 8
      modifies this
      ensures Valid() && thunkSize == pointerSize
      ensures oldiid == old(oldiid) && newiid == old(newiid)
      ensures occupiedAddresses == old(occupiedAddresses) && ldrError == old(ldrError)
    {
      thunkSize := pointerSize;
      Pow2Mono(8 * pointerSize - 1, 63);
      Pow2TopBits();
      ordinalMask := Pow2(8 * pointerSize - 1);
    }

    /** setLoaderError: the first error reported is kept. */
    method SetLoaderError(e: LoaderError)
      modifies this
      ensures ldrError == KeepFirst(old(ldrError), e)
      ensures oldiid == old(oldiid) && newiid == old(newiid)
      ensures occupiedAddresses == old(occupiedAddresses) && ordinalMask == old(ordinalMask) && thunkSize == old(thunkSize)
    {
      if ldrError == LDR_ERROR_NONE {
        ldrError := e;
      }
    }

    /** hasFunction: a thunk `matches` accepts, for `file`, in the old list or the new one. */
    method HasFunction(file: seq<u8>, matches: ThunkData -> bool) returns (found: bool)
      ensures found <==> Imported(oldiid, file, matches) || Imported(newiid, file, matches)
    {
      found := FindThunk(oldiid, file, matches);
      if !found {
        found := FindThunk(newiid, file, matches);
      }
    }

    /**
     * addFunction(file, hint): ERROR_DUPLICATE_ENTRY, changing nothing, when
     * a function with that hint is already imported from `file`; otherwise
     * the function goes into the new list.
     */
    method AddFunctionByHint(file: seq<u8>, hint: u16) returns (r: int)
      requires Valid()
      modifies this
      ensures Valid() && oldiid == old(oldiid) && ordinalMask == old(ordinalMask) && thunkSize == old(thunkSize)
      ensures occupiedAddresses == old(occupiedAddresses) && ldrError == old(ldrError)
      ensures Imported(old(oldiid), file, HintIs(hint)) || Imported(old(newiid), file, HintIs(hint)) ==>
        r == ERROR_DUPLICATE_ENTRY && newiid == old(newiid)
      ensures !(Imported(old(oldiid), file, HintIs(hint)) || Imported(old(newiid), file, HintIs(hint))) ==>
        r == ERROR_NONE && newiid == AppendThunk(old(newiid), file, HintThunk(hint, ordinalMask))
    {
      var found := HasFunction(file, HintIs(hint));
      if found {
        return ERROR_DUPLICATE_ENTRY;
      }
      Pow2Mono(8 * thunkSize - 1, 63);
      Pow2TopBits();
      newiid := AppendThunk(newiid, file, HintThunk(hint, ordinalMask));
      r := ERROR_NONE;
    }

    /**
     * addFunction(file, name): ERROR_DUPLICATE_ENTRY, changing nothing, when
     * a function of that name (ignoring case) is already imported from
     * `file`; otherwise the function goes into the new list.
     */
    method AddFunctionByName(file: seq<u8>, fname: seq<u8>) returns (r: int)
      modifies this
      ensures oldiid == old(oldiid) && ordinalMask == old(ordinalMask) && thunkSize == old(thunkSize)
      ensures occupiedAddresses == old(occupiedAddresses) && ldrError == old(ldrError)
      ensures Imported(old(oldiid), file, NameIs(fname)) || Imported(old(newiid), file, NameIs(fname)) ==>
        r == ERROR_DUPLICATE_ENTRY && newiid == old(newiid)
      ensures !(Imported(old(oldiid), file, NameIs(fname)) || Imported(old(newiid), file, NameIs(fname))) ==>
        r == ERROR_NONE && newiid == AppendThunk(old(newiid), file, NameThunk(fname))
    {
      var found := HasFunction(file, NameIs(fname));
      if found {
        return ERROR_DUPLICATE_ENTRY;
      }
      newiid := AppendThunk(newiid, file, NameThunk(fname));
      r := ERROR_NONE;
    }

    /** removeFile: every new-list entry for `file` goes; 0 when one did, 1 when none was there. */
    method RemoveFile(file: seq<u8>) returns (r: int)
      modifies this
      ensures newiid == WithoutFile(old(newiid), file)
      ensures r == if exists k :: 0 <= k < |old(newiid)| && IsFile(old(newiid)[k], file) then 0 else 1
      ensures oldiid == old(oldiid) && ordinalMask == old(ordinalMask) && thunkSize == old(thunkSize)
      ensures occupiedAddresses == old(occupiedAddresses) && ldrError == old(ldrError)
    {
      var oldSize := |newiid|;
      WithoutFileMeaning(newiid, file);
      newiid := WithoutFile(newiid, file);
      r := if oldSize == |newiid| then 1 else 0;
    }

    /** removeFunction(file, name): 0 when a function of that name went from a new-list entry for `file`, else 1. */
    method RemoveFunctionByName(file: seq<u8>, fname: seq<u8>) returns (r: int)
      modifies this
      ensures newiid == WithoutThunks(old(newiid), file, NameIs(fname))
      ensures r == if Imported(old(newiid), file, NameIs(fname)) then 0 else 1
      ensures oldiid == old(oldiid) && ordinalMask == old(ordinalMask) && thunkSize == old(thunkSize)
      ensures occupiedAddresses == old(occupiedAddresses) && ldrError == old(ldrError)
    {
      newiid, r := RemoveThunks(newiid, file, NameIs(fname));
    }

    /** removeFunction(file, hint): 0 when a function with that hint went from a new-list entry for `file`, else 1. */
    method RemoveFunctionByHint(file: seq<u8>, hint: u16) returns (r: int)
      modifies this
      ensures newiid == WithoutThunks(old(newiid), file, HintIs(hint))
      ensures r == if Imported(old(newiid), file, HintIs(hint)) then 0 else 1
      ensures oldiid == old(oldiid) && ordinalMask == old(ordinalMask) && thunkSize == old(thunkSize)
      ensures occupiedAddresses == old(occupiedAddresses) && ldrError == old(ldrError)
    {
      newiid, r := RemoveThunks(newiid, file, HintIs(hint));
    }

    /** getNumberOfFunctions: the function count of an entry, 0 for an index out of range. */
    function GetNumberOfFunctions(filenr: nat, newDir: bool): (r: u32)
      reads this
      ensures filenr >= |ImportList(newDir)| ==> r == 0
      ensures filenr < |ImportList(newDir)| && |ImportList(newDir)[filenr].thunk_data| < TWO_32 ==>
        r == |ImportList(newDir)[filenr].thunk_data|
    {
      var il := ImportList(newDir);
      if filenr < |il| then Trunc32(|il[filenr].thunk_data|) else 0
    }

    /** getImportedFunction: the function at (filenr, funcnr), or nothing (false) out of range. */
    function GetImportedFunction(filenr: nat, funcnr: nat, newDir: bool): (r: Option<ImportedFunction>)
      reads this
      ensures r.Some? <==> filenr < |ImportList(newDir)| && funcnr < |ImportList(newDir)[filenr].thunk_data|
      ensures r.Some? ==> r.value == FunctionOf(ImportList(newDir)[filenr].thunk_data[funcnr], ordinalMask)
    {
      var il := ImportList(newDir);
      if filenr < |il| && funcnr < |il[filenr].thunk_data| then Some(FunctionOf(il[filenr].thunk_data[funcnr], ordinalMask))
      else None
    }

    /**
     * calculateSize: the sizes of the new entries, summed in 32 bits, plus a
     * descriptor for each old entry and one for the terminator.
     */
    method CalculateSize(pointerSize: u32) returns (r: u32)
      ensures r == (EntriesTotal(newiid, pointerSize) + (|oldiid| + 1) * IMPORT_DESCRIPTOR_SIZE) % TWO_32
    {
      var entries := newiid;
      var totalSize: u32 := 0;
      ghost var exact: nat := 0;
      var i := 0;
      while i < |entries|
        invariant i <= |entries|
        invariant exact == EntriesTotal(entries[..i], pointerSize)
        invariant totalSize == exact % TWO_32
      {
        var size := ImportEntrySize(entries[i], pointerSize);
        assert entries[..i + 1][..i] == entries[..i];
        AddStep(exact, totalSize, EntrySize(entries[i], pointerSize));
        totalSize := Add32(totalSize, size);
        exact := exact + EntrySize(entries[i], pointerSize);
        i := i + 1;
      }
      assert entries[..i] == entries;
      AddStep(exact, totalSize, (|oldiid| + 1) * IMPORT_DESCRIPTOR_SIZE);
      r := Add32(totalSize, Trunc32((|oldiid| + 1) * IMPORT_DESCRIPTOR_SIZE));
    }
    /**
     * read: the pointer size and ordinal mask of the image, the loader error
     * cleared; ERROR_INVALID_FILE with LDR_ERROR_IMPDIR_OUT_OF_FILE, the old
     * list and the occupied ranges kept, when the directory starts past the
     * image; otherwise the old list becomes the DLLs of the descriptor loop
     * with their functions, the ranges of the names, of the descriptors and
     * of the function names are added in that order, and the loader error
     * is the first either loop reported.
     */
    method Read(img: seq<u8>, oh: OptionalHeader, lookUp: OrdinalLookUp) returns (r: int)
      requires |img| < TWO_32
      modifies this
      ensures Valid() && thunkSize == PointerSize(oh) && ordinalMask == OrdinalMask(oh) && newiid == old(newiid)
      ensures var rva := DataDirRva(oh, DIR_IMPORT);
        rva > oh.SizeOfImage ==>
          r == ERROR_INVALID_FILE && ldrError == LDR_ERROR_IMPDIR_OUT_OF_FILE &&
          oldiid == old(oldiid) && occupiedAddresses == old(occupiedAddresses)
      ensures var rva := DataDirRva(oh, DIR_IMPORT);
        var s := Descriptors(img, oh.SizeOfImage, rva, {});
        var t := AllThunks(img, oh, lookUp, s.entries, {});
        rva <= oh.SizeOfImage ==>
          r == ERROR_NONE && oldiid == t.entries &&
          occupiedAddresses == old(occupiedAddresses) + s.nameRanges + [(rva, s.end)] + t.nameRanges &&
          ldrError == FirstError([s.error] + t.errors)
    {
      var sizeOfImage := oh.SizeOfImage;
      var rvaBegin := DataDirRva(oh, DIR_IMPORT);
      SetPointerSize(PointerSize(oh) as u32);
      assert ordinalMask == OrdinalMask(oh);
      ldrError := LDR_ERROR_NONE;
      if rvaBegin > sizeOfImage {
        SetLoaderError(LDR_ERROR_IMPDIR_OUT_OF_FILE);
        return ERROR_INVALID_FILE;
      }
      ReadTables(img, oh, lookUp, rvaBegin);
      r := ERROR_NONE;
    }

    /**
     * The two loops of read once the directory starts inside the image: the
     * descriptor loop, then the thunk loop of every DLL it kept.
     */
    method ReadTables(img: seq<u8>, oh: OptionalHeader, lookUp: OrdinalLookUp, rvaBegin: u32)
      requires |img| < TWO_32 && ldrError == LDR_ERROR_NONE
      modifies this
      ensures thunkSize == old(thunkSize) && ordinalMask == old(ordinalMask) && newiid == old(newiid)
      ensures var s := Descriptors(img, oh.SizeOfImage, rvaBegin, {});
        var t := AllThunks(img, oh, lookUp, s.entries, {});
        oldiid == t.entries &&
        occupiedAddresses == old(occupiedAddresses) + s.nameRanges + [(rvaBegin, s.end)] + t.nameRanges &&
        ldrError == FirstError([s.error] + t.errors)
    {
      var entries, nameRanges, rva, error := ReadDescriptors(img, oh.SizeOfImage, rvaBegin);
      SetLoaderError(error);
      occupiedAddresses := occupiedAddresses + nameRanges + [(rvaBegin, rva)];
      var t := ReadAllThunks(img, oh, lookUp, entries);
      occupiedAddresses := occupiedAddresses + t.nameRanges;
      RecordAllKeepsFirst(ldrError, t.errors);
      ldrError := RecordAll(ldrError, t.errors);
      oldiid := t.entries;
    }
  }
}
