// The export directory's records (PELIB_IMAGE_EXPORT_DIRECTORY,
// PELIB_EXP_FUNC_INFORMATION, PELIB_IMAGE_EXP_DIRECTORY), their sizes, and
// the byte layout that ExportDirectory::rebuild writes (section 6.3 of the
// Microsoft PE/COFF Specification).
module ExportLayout {
  import opened Bytes
  import opened PeAux

  /** The 40-byte export directory table. */
  datatype ExportDirectoryHeader = ExportDirectoryHeader(
    Characteristics: u32,
    TimeDateStamp: u32,
    MajorVersion: u16,
    MinorVersion: u16,
    Name: u32,
    Base: u32,
    NumberOfFunctions: u32,
    NumberOfNames: u32,
    AddressOfFunctions: u32,
    AddressOfNames: u32,
    AddressOfNameOrdinals: u32)

  const EmptyExportHeader: ExportDirectoryHeader := ExportDirectoryHeader(0, 0, 0, 0, 0, 0, 0, 0, 0, 0, 0)

  /** One exported function: its RVA, the RVA of its name, its ordinal and its name. */
  datatype ExpFuncInformation = ExpFuncInformation(addroffunc: u32, addrofname: u32, ordinal: u16, funcname: seq<u8>)

  /** The export table as PeLib keeps it: the header, the module's file name and the functions. */
  datatype ExpDirectory = ExpDirectory(ied: ExportDirectoryHeader, name: seq<u8>, functions: seq<ExpFuncInformation>)

  const EmptyExpDirectory: ExpDirectory := ExpDirectory(EmptyExportHeader, [], [])

  /** The header as read from 40 bytes at `at`, little-endian. */
  function HeaderAt(b: seq<u8>, at: nat): ExportDirectoryHeader
    requires at + EXPORT_DIRECTORY_SIZE <= |b|
  {
    ExportDirectoryHeader(
      U32At(b, at), U32At(b, at + 4), U16At(b, at + 8), U16At(b, at + 10), U32At(b, at + 12),
      U32At(b, at + 16), U32At(b, at + 20), U32At(b, at + 24), U32At(b, at + 28), U32At(b, at + 32),
      U32At(b, at + 36))
  }

  /** The header's bytes, in the order rebuild streams its fields. */
  function EncodeHeader(h: ExportDirectoryHeader): (r: seq<u8>)
    ensures |r| == EXPORT_DIRECTORY_SIZE
  {
    Enc32(h.Characteristics) + Enc32(h.TimeDateStamp) + Enc16(h.MajorVersion) + Enc16(h.MinorVersion) +
    Enc32(h.Name) + Enc32(h.Base) + Enc32(h.NumberOfFunctions) + Enc32(h.NumberOfNames) +
    Enc32(h.AddressOfFunctions) + Enc32(h.AddressOfNames) + Enc32(h.AddressOfNameOrdinals)
  }

  /** A header written and read back, whatever follows it, is the same header. */
  lemma HeaderRoundTrip(h: ExportDirectoryHeader, post: seq<u8>)
    ensures HeaderAt(EncodeHeader(h) + post, 0) == h
  {
    var s := EncodeHeader(h) + post;
    assert s[0..4] == Enc32(h.Characteristics);
    assert s[4..8] == Enc32(h.TimeDateStamp);
    assert s[8..10] == Enc16(h.MajorVersion);
    assert s[10..12] == Enc16(h.MinorVersion);
    assert s[12..16] == Enc32(h.Name);
    assert s[16..20] == Enc32(h.Base);
    assert s[20..24] == Enc32(h.NumberOfFunctions);
    assert s[24..28] == Enc32(h.NumberOfNames);
    assert s[28..32] == Enc32(h.AddressOfFunctions);
    assert s[32..36] == Enc32(h.AddressOfNames);
    assert s[36..40] == Enc32(h.AddressOfNameOrdinals);
    U32AtEnc(s, 0, h.Characteristics);
    U32AtEnc(s, 4, h.TimeDateStamp);
    U16AtEnc(s, 8, h.MajorVersion);
    U16AtEnc(s, 10, h.MinorVersion);
    U32AtEnc(s, 12, h.Name);
    U32AtEnc(s, 16, h.Base);
    U32AtEnc(s, 20, h.NumberOfFunctions);
    U32AtEnc(s, 24, h.NumberOfNames);
    U32AtEnc(s, 28, h.AddressOfFunctions);
    U32AtEnc(s, 32, h.AddressOfNames);
    U32AtEnc(s, 36, h.AddressOfNameOrdinals);
  }

  // ---------------------------------------------------------------------
  // Sizes
  // ---------------------------------------------------------------------

  /** A function with a name takes a name pointer and the name with its NUL. */
  predicate Named(f: ExpFuncInformation)
  {
    |f.funcname| > 0
  }

  /**
   * PELIB_EXP_FUNC_INFORMATION::size: 4 bytes, 2 more for a nonzero address,
   * and 4 + the name + its NUL for a named function, as an unsigned int.
   */
  function FuncInfoSize(f: ExpFuncInformation): u32
  {
    Trunc32(4 + (if f.addroffunc != 0 then 2 else 0) + (if Named(f) then 4 + |f.funcname| + 1 else 0))
  }

  function FuncInfoSizes(fs: seq<ExpFuncInformation>): nat
  {
    if fs == [] then 0 else FuncInfoSizes(fs[..|fs| - 1]) + FuncInfoSize(fs[|fs| - 1])
  }

  /**
   * PELIB_IMAGE_EXP_DIRECTORY::size: the header, the file name and its NUL,
   * and every function's size, in 32-bit arithmetic.
   */
  function ExportSize(d: ExpDirectory): u32
  {
    Trunc32(EXPORT_DIRECTORY_SIZE + |d.name| + 1 + FuncInfoSizes(d.functions))
  }

  /** Appending a function adds its own size to the directory's. */
  lemma ExportSizeAppend(d: ExpDirectory, f: ExpFuncInformation)
    ensures ExportSize(d.(functions := d.functions + [f])) == Add32(ExportSize(d), FuncInfoSize(f))
  {
    var fs := d.functions + [f];
    assert fs[..|fs| - 1] == d.functions;
    AddStep(EXPORT_DIRECTORY_SIZE + |d.name| + 1 + FuncInfoSizes(d.functions), ExportSize(d), FuncInfoSize(f));
  }

  // ---------------------------------------------------------------------
  // rebuild
  // ---------------------------------------------------------------------

  function NamedCount(fs: seq<ExpFuncInformation>): (r: nat)
    ensures r <= |fs|
  {
    if fs == [] then 0 else NamedCount(fs[..|fs| - 1]) + (if Named(fs[|fs| - 1]) then 1 else 0)
  }

  /** The functions exported by ordinal only that still have an address. */
  function UnnamedWithAddress(fs: seq<ExpFuncInformation>): (r: nat)
    ensures r <= |fs|
  {
    if fs == [] then 0
    else UnnamedWithAddress(fs[..|fs| - 1]) + (if !Named(fs[|fs| - 1]) && fs[|fs| - 1].addroffunc != 0 then 1 else 0)
  }

  /** The bytes the function names take with their NULs. */
  function NamesBytes(fs: seq<ExpFuncInformation>): nat
  {
    if fs == [] then 0 else NamesBytes(fs[..|fs| - 1]) + (if Named(fs[|fs| - 1]) then |fs[|fs| - 1].funcname| + 1 else 0)
  }

  /** The export address table: every function's RVA. */
  function FuncAddrs(fs: seq<ExpFuncInformation>): (r: seq<u8>)
    ensures |r| == 4 * |fs|
  {
    if fs == [] then [] else FuncAddrs(fs[..|fs| - 1]) + Enc32(fs[|fs| - 1].addroffunc)
  }

  /** The name pointer table: for each named function, the running name position from `c0`. */
  function NamePointers(fs: seq<ExpFuncInformation>, c0: u32): (r: seq<u8>)
    ensures |r| == 4 * NamedCount(fs)
  {
    if fs == [] then []
    else
      var p := fs[..|fs| - 1];
      NamePointers(p, c0) + (if Named(fs[|fs| - 1]) then Enc32(Trunc32(c0 + NamesBytes(p))) else [])
  }

  /** The ordinals of the named functions. */
  function NamedOrdinals(fs: seq<ExpFuncInformation>): (r: seq<u8>)
    ensures |r| == 2 * NamedCount(fs)
  {
    if fs == [] then []
    else NamedOrdinals(fs[..|fs| - 1]) + (if Named(fs[|fs| - 1]) then Enc16(fs[|fs| - 1].ordinal) else [])
  }

  /** The ordinals written after them, one per unnamed function with a nonzero address. */
  function UnnamedOrdinals(fs: seq<ExpFuncInformation>): (r: seq<u8>)
    ensures |r| == 2 * UnnamedWithAddress(fs)
  {
    if fs == [] then []
    else
      var f := fs[|fs| - 1];
      UnnamedOrdinals(fs[..|fs| - 1]) + (if !Named(f) && f.addroffunc != 0 then Enc16(f.ordinal) else [])
  }

  /** The function names, each with its NUL. */
  function NameStrings(fs: seq<ExpFuncInformation>): (r: seq<u8>)
    ensures |r| == NamesBytes(fs)
  {
    if fs == [] then []
    else
      var f := fs[|fs| - 1];
      NameStrings(fs[..|fs| - 1]) + (if Named(f) then f.funcname + [0] else [])
  }

  /**
   * The header rebuild writes for a directory placed at `rva`, when the
   * ordinal table is taken to be `ordinalsSize` bytes long: the tables follow
   * the header back to back, and the file name follows them.
   */
  function RebuildHeader(d: ExpDirectory, rva: u32, ordinalsSize: nat): ExportDirectoryHeader
  {
    var n := |d.functions|;
    var k := NamedCount(d.functions);
    ExportDirectoryHeader(
      d.ied.Characteristics, d.ied.TimeDateStamp, d.ied.MajorVersion, d.ied.MinorVersion,
      Trunc32(rva + EXPORT_DIRECTORY_SIZE + 4 * n + 4 * k + ordinalsSize),
      d.ied.Base, Trunc32(n), Trunc32(n),
      Trunc32(rva + EXPORT_DIRECTORY_SIZE),
      Trunc32(rva + EXPORT_DIRECTORY_SIZE + 4 * n),
      Trunc32(rva + EXPORT_DIRECTORY_SIZE + 4 * n + 4 * k))
  }

  /** The bytes rebuild writes, for a given accounting of the ordinal table. */
  function RebuildBytesWith(d: ExpDirectory, rva: u32, ordinalsSize: nat): seq<u8>
  {
    var h := RebuildHeader(d, rva, ordinalsSize);
    var fs := d.functions;
    EncodeHeader(h) + RebuildTail(d, Trunc32(h.Name + |d.name| + 1))
  }

  /** What rebuild writes after the header, the name pointers counting from `c0`. */
  function RebuildTail(d: ExpDirectory, c0: u32): (r: seq<u8>)
    ensures |r| == 4 * |d.functions| + 6 * NamedCount(d.functions) + 2 * UnnamedWithAddress(d.functions) +
      |d.name| + 1 + NamesBytes(d.functions)
  {
    FuncAddrs(d.functions) + AfterAddresses(d, c0)
  }

  /** What follows the export address table: the other tables, the file name, the function names. */
  function AfterAddresses(d: ExpDirectory, c0: u32): (r: seq<u8>)
    ensures |r| == 6 * NamedCount(d.functions) + 2 * UnnamedWithAddress(d.functions) +
      |d.name| + 1 + NamesBytes(d.functions)
  {
    OrdinalTables(d, c0) + (d.name + [0]) + NameStrings(d.functions)
  }

  /** The name pointers, the named ordinals and the other ordinals. */
  function OrdinalTables(d: ExpDirectory, c0: u32): (r: seq<u8>)
    ensures |r| == 6 * NamedCount(d.functions) + 2 * UnnamedWithAddress(d.functions)
  {
    var fs := d.functions;
    NamePointers(fs, c0) + NamedOrdinals(fs) + UnnamedOrdinals(fs)
  }

  /** The ordinal table's length as rebuild's size loop accounts it: two bytes per named function. */
  function OrdinalsSizeAsWritten(fs: seq<ExpFuncInformation>): nat
  {
    2 * NamedCount(fs)
  }

  /** The ordinal table's length as rebuild writes it: two bytes per named function and per unnamed one with an address. */
  function OrdinalsSize(fs: seq<ExpFuncInformation>): nat
  {
    2 * NamedCount(fs) + 2 * UnnamedWithAddress(fs)
  }

  /** rebuild as written: the ordinal table is counted as two bytes per named function only. */
  function RebuildAsWritten(d: ExpDirectory, rva: u32): seq<u8>
  {
    RebuildBytesWith(d, rva, OrdinalsSizeAsWritten(d.functions))
  }

  /** rebuild with the ordinals of unnamed functions counted too, so that the name pointers land on the names. */
  function Rebuild(d: ExpDirectory, rva: u32): seq<u8>
  {
    RebuildBytesWith(d, rva, OrdinalsSize(d.functions))
  }

  /** Where the file name is placed in the rebuilt bytes. */
  function FileNamePosition(fs: seq<ExpFuncInformation>): nat
  {
    EXPORT_DIRECTORY_SIZE + 4 * |fs| + 6 * NamedCount(fs) + 2 * UnnamedWithAddress(fs)
  }

  /** The k-th word of the export address table is the k-th function's RVA. */
  lemma {:induction false} FuncAddrsAt(fs: seq<ExpFuncInformation>, k: nat)
    requires k < |fs|
    ensures FuncAddrs(fs)[4 * k..4 * k + 4] == Enc32(fs[k].addroffunc)
    decreases |fs|
  {
    var p := fs[..|fs| - 1];
    assert FuncAddrs(fs) == FuncAddrs(p) + Enc32(fs[|fs| - 1].addroffunc);
    if k < |fs| - 1 {
      FuncAddrsAt(p, k);
      assert p[k] == fs[k];
    }
  }

  /**
   * The layout rebuild writes: the header reads back with the export address
   * table right after it, the name pointer table after that, and the ordinal
   * table after the name pointers; both counts are the number of functions.
   */
  lemma RebuildLayout(d: ExpDirectory, rva: u32, ordinalsSize: nat)
    ensures var out := RebuildBytesWith(d, rva, ordinalsSize);
      |out| == EXPORT_DIRECTORY_SIZE + 4 * |d.functions| + 6 * NamedCount(d.functions) +
        2 * UnnamedWithAddress(d.functions) + |d.name| + 1 + NamesBytes(d.functions)
    ensures var h := HeaderAt(RebuildBytesWith(d, rva, ordinalsSize), 0);
      h.AddressOfFunctions == Trunc32(rva + EXPORT_DIRECTORY_SIZE) &&
      h.AddressOfNames == Trunc32(rva + EXPORT_DIRECTORY_SIZE + 4 * |d.functions|) &&
      h.AddressOfNameOrdinals == Trunc32(rva + EXPORT_DIRECTORY_SIZE + 4 * |d.functions| + 4 * NamedCount(d.functions)) &&
      h.NumberOfFunctions == Trunc32(|d.functions|) && h.NumberOfNames == Trunc32(|d.functions|) &&
      h.Base == d.ied.Base && h.Characteristics == d.ied.Characteristics
  {
    HeaderFields(d, rva, ordinalsSize);
  }

  /** The header read back from the rebuilt bytes is the header rebuild computed. */
  lemma HeaderFields(d: ExpDirectory, rva: u32, ordinalsSize: nat)
    ensures HeaderAt(RebuildBytesWith(d, rva, ordinalsSize), 0) == RebuildHeader(d, rva, ordinalsSize)
  {
    var h := RebuildHeader(d, rva, ordinalsSize);
    var tail := RebuildTail(d, Trunc32(h.Name + |d.name| + 1));
    assert RebuildBytesWith(d, rva, ordinalsSize) == EncodeHeader(h) + tail;
    HeaderRoundTrip(h, tail);
  }

  /** The three table RVAs chain: each is the previous one plus the previous table's size. */
  lemma AddressChain(d: ExpDirectory, rva: u32, ordinalsSize: nat)
    ensures var h := RebuildHeader(d, rva, ordinalsSize);
      h.AddressOfNames == Trunc32(h.AddressOfFunctions + 4 * |d.functions|) &&
      h.AddressOfNameOrdinals == Trunc32(h.AddressOfNames + 4 * NamedCount(d.functions))
  {
    var n := |d.functions|;
    var k := NamedCount(d.functions);
    TruncAdd(rva + EXPORT_DIRECTORY_SIZE, 4 * n);
    TruncAdd(rva + EXPORT_DIRECTORY_SIZE + 4 * n, 4 * k);
  }

  /** Truncating a part of a sum before adding the rest does not change the truncated sum. */
  lemma TruncAdd(x: nat, y: nat)
    ensures Trunc32(Trunc32(x) + y) == Trunc32(x + y)
  {
    AddMod(x, y, TWO_32);
  }

  /** The export address table right after the header holds each function's RVA in order. */
  lemma FunctionTableAt(d: ExpDirectory, rva: u32, ordinalsSize: nat)
    ensures var out := RebuildBytesWith(d, rva, ordinalsSize);
      forall j :: 0 <= j < |d.functions| ==> U32At(out, EXPORT_DIRECTORY_SIZE + 4 * j) == d.functions[j].addroffunc
  {
    var h := RebuildHeader(d, rva, ordinalsSize);
    var c0 := Trunc32(h.Name + |d.name| + 1);
    var e := EncodeHeader(h);
    var rest := AfterAddresses(d, c0);
    ConcatAssoc(e, FuncAddrs(d.functions), rest);
    forall j | 0 <= j < |d.functions|
      ensures U32At(e + FuncAddrs(d.functions) + rest, EXPORT_DIRECTORY_SIZE + 4 * j) == d.functions[j].addroffunc
    {
      WordInTable(e, d.functions, rest, j);
    }
  }

  /** The j-th word of an export address table placed anywhere is the j-th function's RVA. */
  lemma WordInTable(pre: seq<u8>, fs: seq<ExpFuncInformation>, post: seq<u8>, j: nat)
    requires j < |fs|
    ensures U32At(pre + FuncAddrs(fs) + post, |pre| + 4 * j) == fs[j].addroffunc
  {
    FuncAddrsAt(fs, j);
    WordAt(pre, FuncAddrs(fs), post, 4 * j, fs[j].addroffunc);
  }

  /** A word encoded at offset `k` of the middle part of a concatenation reads back. */
  lemma WordAt(pre: seq<u8>, mid: seq<u8>, post: seq<u8>, k: nat, x: u32)
    requires k + 4 <= |mid| && mid[k..k + 4] == Enc32(x)
    ensures U32At(pre + mid + post, |pre| + k) == x
  {
    var before := pre + mid[..k];
    var after := mid[k + 4..] + post;
    assert mid == mid[..k] + mid[k..k + 4] + mid[k + 4..];
    assert pre + mid + post == before + Enc32(x) + after;
    Dec32Enc32(x, before, after);
  }

  /** The file name with its NUL sits at FileNamePosition, and the function names follow it. */
  lemma FileNameAt(d: ExpDirectory, rva: u32, ordinalsSize: nat)
    ensures var out := RebuildBytesWith(d, rva, ordinalsSize); var p := FileNamePosition(d.functions);
      p + |d.name| + 1 <= |out| && out[p..p + |d.name| + 1] == d.name + [0] &&
      out[p + |d.name| + 1..] == NameStrings(d.functions)
  {
    var h := RebuildHeader(d, rva, ordinalsSize);
    var c0 := Trunc32(h.Name + |d.name| + 1);
    var e := EncodeHeader(h);
    var fa := FuncAddrs(d.functions);
    var ot := OrdinalTables(d, c0);
    var tail := RebuildTail(d, c0);
    assert RebuildBytesWith(d, rva, ordinalsSize) == e + tail;
    assert tail == fa + (ot + (d.name + [0]) + NameStrings(d.functions));
    FourthPart(e, fa, ot, d.name + [0], NameStrings(d.functions));
  }

  /** In `a + (b + (c + m + z))`, `m` starts after `a`, `b` and `c`, and `z` follows it. */
  lemma FourthPart(a: seq<u8>, b: seq<u8>, c: seq<u8>, m: seq<u8>, z: seq<u8>)
    ensures var s := a + (b + (c + m + z)); var p := |a| + |b| + |c|;
      s[p..p + |m|] == m && s[p + |m|..] == z && s[|a| + |b|..p] == c
  {
    var s := a + (b + (c + m + z));
    assert s == (a + b + c) + m + z;
    SliceAt(a + b + c, m, z);
  }

  lemma SliceAt(pre: seq<u8>, mid: seq<u8>, post: seq<u8>)
    ensures (pre + mid + post)[|pre|..|pre| + |mid|] == mid
    ensures (pre + mid + post)[|pre| + |mid|..] == post
  {
  }

  /**
   * The header's Name field points at the file name exactly when the ordinal
   * table is accounted as long as it is written (absent a 32-bit wrap of the
   * directory's RVAs).
   */
  lemma NameFieldPointsAtName(d: ExpDirectory, rva: u32, ordinalsSize: nat)
    requires rva + FileNamePosition(d.functions) < TWO_32
    requires rva + EXPORT_DIRECTORY_SIZE + 4 * |d.functions| + 4 * NamedCount(d.functions) + ordinalsSize < TWO_32
    ensures HeaderAt(RebuildBytesWith(d, rva, ordinalsSize), 0).Name == rva + FileNamePosition(d.functions)
      <==> ordinalsSize == OrdinalsSize(d.functions)
  {
    var h := RebuildHeader(d, rva, ordinalsSize);
    var out := RebuildBytesWith(d, rva, ordinalsSize);
    HeaderRoundTrip(h, out[EXPORT_DIRECTORY_SIZE..]);
    assert out == EncodeHeader(h) + out[EXPORT_DIRECTORY_SIZE..];
  }

  /** The corrected layout: the Name field is the file name's RVA. */
  lemma RebuildNameFieldIsName(d: ExpDirectory, rva: u32)
    requires rva + FileNamePosition(d.functions) < TWO_32
    ensures var out := Rebuild(d, rva); var p := FileNamePosition(d.functions);
      HeaderAt(out, 0).Name == rva + p && out[p..p + |d.name| + 1] == d.name + [0]
  {
    NameFieldPointsAtName(d, rva, OrdinalsSize(d.functions));
    FileNameAt(d, rva, OrdinalsSize(d.functions));
  }

  /**
   * rebuild as written: as soon as one function without a name has an
   * address, the Name field points 2 bytes per such function before the
   * file name, into the ordinal table.
   */
  lemma RebuildAsWrittenMisplacesName(d: ExpDirectory, rva: u32)
    requires 0 < UnnamedWithAddress(d.functions)
    requires rva + FileNamePosition(d.functions) < TWO_32
    ensures var name := HeaderAt(RebuildAsWritten(d, rva), 0).Name;
      name == rva + FileNamePosition(d.functions) - 2 * UnnamedWithAddress(d.functions) &&
      name != rva + FileNamePosition(d.functions)
  {
    HeaderFields(d, rva, OrdinalsSizeAsWritten(d.functions));
  }

  /**
   * One function without a name but with an address, and a one-letter file
   * name: rebuild as written points the Name field at byte 44, where the
   * function's ordinal was written, while the name starts at byte 46.
   */
  const ORDINAL_ONLY_EXPORT: ExpDirectory :=
    ExpDirectory(EmptyExportHeader, [0x61], [ExpFuncInformation(0x1000, 0, 0, [])])

  lemma OrdinalOnlyExportMisplacesName()
    ensures HeaderAt(RebuildAsWritten(ORDINAL_ONLY_EXPORT, 0), 0).Name == 44
    ensures FileNamePosition(ORDINAL_ONLY_EXPORT.functions) == 46
  {
    var fs := ORDINAL_ONLY_EXPORT.functions;
    assert fs[..0] == [];
    assert NamedCount(fs) == 0 && UnnamedWithAddress(fs) == 1;
    RebuildAsWrittenMisplacesName(ORDINAL_ONLY_EXPORT, 0);
  }
}
