// Helpers and record layouts shared by the whole PE library (PeLibAux.h and
// PeLibAux.cpp): alignment arithmetic, the case-insensitive name comparison,
// the resource-entry order, section-header setters and the record sizes.
module PeAux {
  import opened Bytes

  // ---------------------------------------------------------------------
  // Record sizes of the on-disk structures (Microsoft PE/COFF Specification)

  const DOS_HEADER_SIZE: nat := 64
  const FILE_HEADER_SIZE: nat := 20
  const DATA_DIRECTORY_SIZE: nat := 8
  const NT_SIGNATURE_SIZE: nat := 4
  const IMPORT_DESCRIPTOR_SIZE: nat := 20
  const BOUND_IMPORT_DESCRIPTOR_SIZE: nat := 8
  const RESOURCE_DIRECTORY_SIZE: nat := 16
  const RESOURCE_DIRECTORY_ENTRY_SIZE: nat := 8
  const RESOURCE_DATA_ENTRY_SIZE: nat := 16
  const DEBUG_DIRECTORY_SIZE: nat := 28
  const CERTIFICATE_ENTRY_SIZE: nat := 8
  const COFF_SYMBOL_SIZE: nat := 18
  const EXPORT_DIRECTORY_SIZE: nat := 40
  const TLS_DIRECTORY32_SIZE: nat := 24
  const TLS_DIRECTORY64_SIZE: nat := 40
  /** The on-disk header of a relocation block. */
  const SIZEOF_BASE_RELOCATION: nat := 8
  /**
   * What PELIB_IMAGE_BASE_RELOCATION::size() reports: 72, not the 8 bytes of
   * the on-disk header. The library uses it when sizing rebuilt relocations.
   */
  const BASE_RELOCATION_REPORTED_SIZE: nat := 72

  /** The bounds on a DLL name and on an imported function's name. */
  const IMPORT_LIBRARY_MAX_LENGTH: nat := 256
  const IMPORT_SYMBOL_MAX_LENGTH: nat := 256

  const PAGE_SIZE: nat := 0x1000
  const SECTOR_SIZE: nat := 0x200
  const NUMBER_OF_DIRECTORY_ENTRIES: nat := 16

  /** sizeof the library's common optional header: fixed part 120 + 16 directories. */
  const OPTIONAL_HEADER_STRUCT_SIZE: nat := 248

  const RESOURCE_NAME_IS_STRING: u32 := 0x8000_0000
  const RESOURCE_DATA_IS_DIRECTORY: u32 := 0x8000_0000

  // Data directory indices.
  const DIR_EXPORT: nat := 0
  const DIR_IMPORT: nat := 1
  const DIR_RESOURCE: nat := 2
  const DIR_EXCEPTION: nat := 3
  const DIR_SECURITY: nat := 4
  const DIR_BASERELOC: nat := 5
  const DIR_DEBUG: nat := 6
  const DIR_ARCHITECTURE: nat := 7
  const DIR_GLOBALPTR: nat := 8
  const DIR_TLS: nat := 9
  const DIR_LOAD_CONFIG: nat := 10
  const DIR_BOUND_IMPORT: nat := 11
  const DIR_IAT: nat := 12
  const DIR_DELAY_IMPORT: nat := 13

  // ---------------------------------------------------------------------
  // Alignment

  /** The least multiple of `a` (> 0) that is at least `x`, over the integers. */
  function RoundUp(x: nat, a: nat): (r: nat)
    requires a > 0
    ensures r % a == 0 && x <= r < x + a
  {
    DivModUnique(x + (a - x % a), a, x / a + 1, 0);
    if x % a == 0 then x else x + (a - x % a)
  }

  /** From a * p < a * q with a > 0 follows p < q. */
  lemma MulCancelLess(a: int, p: int, q: int)
    requires a > 0 && a * p < a * q
    ensures p < q
  {
    MulBound(a, p - q + 1);
    assert a * (p - q + 1) == a * p - a * q + a;
  }

  /** Two multiples of `a` inside one window [n, n + a) coincide. */
  lemma MultipleInWindow(p: nat, q: nat, a: nat, n: nat)
    requires a > 0 && p % a == 0 && q % a == 0
    requires n <= p < n + a && n <= q < n + a
    ensures p == q
  {
    assert a * (p / a - q / a) == p - q;
    MulBound(a, p / a - q / a);
  }

  /** A multiple of `a` is `a` times its quotient. */
  lemma MultipleIsProduct(m: nat, a: nat)
    requires a > 0 && m % a == 0
    ensures m == a * (m / a)
  {
  }

  lemma MulMono(a: nat, p: int, q: int)
    requires p <= q
    ensures a * p <= a * q
  {
    assert a * q - a * p == a * (q - p);
  }

  /** `RoundUp` is below every other multiple of `a` that is at least `x`. */
  lemma RoundUpIsLeast(x: nat, a: nat, m: nat)
    requires a > 0 && m % a == 0 && m >= x
    ensures RoundUp(x, a) <= m
  {
    var r := RoundUp(x, a);
    var rq, mq := r / a, m / a;
    MultipleIsProduct(r, a);
    MultipleIsProduct(m, a);
    assert a * (mq + 1) == a * mq + a;
    assert a * rq < a * (mq + 1);
    MulCancelLess(a, rq, mq + 1);
    MulMono(a, rq, mq);
  }

  /** Rounding n + a - 1 down to a multiple of `a` is rounding n up. */
  lemma RoundDownIsRoundUp(n: nat, a: nat)
    requires a > 0
    ensures (n + a - 1) - (n + a - 1) % a == RoundUp(n, a)
  {
    var s := n + a - 1;
    var d := s - s % a;
    assert s == a * (s / a) + s % a;
    DivModUnique(d, a, s / a, 0);
    MultipleInWindow(d, RoundUp(n, a), a, n);
  }

  /** alignOffset: 0 for a zero alignment, else x rounded up (32-bit wrap). */
  function AlignOffset(x: u32, a: u32): (r: u32)
    ensures a == 0 ==> r == 0
    ensures a != 0 ==> r == RoundUp(x, a) % TWO_32
    ensures a != 0 && RoundUp(x, a) < TWO_32 ==> r % a == 0 && x <= r < x + a
  {
    if a == 0 then 0
    else if x % a != 0 then Add32(x, a - x % a)
    else x
  }

  /** AlignToSize: the mask-based round-up `(n + (a - 1)) & ~(a - 1)` on 32 bits. */
  function AlignToSize(n: u32, a: u32): u32
  {
    And32(Add32(n, Sub32(a, 1)), U32_MAX - Sub32(a, 1))
  }

  /** A zero alignment makes the mask empty, so AlignToSize yields 0 as alignOffset does. */
  lemma AlignToSizeZero(n: u32)
    ensures AlignToSize(n, 0) == 0 == AlignOffset(n, 0)
  {
  }

  /** BytesToPages: `(n >> 12) + ((n & 0xFFF) != 0)`. */
  function BytesToPages(n: u32): (r: u32)
    ensures r * PAGE_SIZE >= n && (r == 0 || (r - 1) * PAGE_SIZE < n)
  {
    Pow2Values();
    LowMaskAnd(n, 12);
    n / 0x1000 + (if And32(n, 0xFFF) != 0 then 1 else 0)
  }

  // ---------------------------------------------------------------------
  // Names

  /** Whether a byte is printable in the C locale (space through tilde). */
  predicate IsPrintableChar(c: u8)
  {
    0x20 <= c <= 0x7E
  }

  /** toupper in the C locale. */
  function ToUpper(c: u8): (r: u8)
    ensures 'a' as int <= c <= 'z' as int ==> r == c - 0x20
    ensures !('a' as int <= c <= 'z' as int) ==> r == c
  {
    if 'a' as int <= c <= 'z' as int then c - 0x20 else c
  }

  function Upper(s: seq<u8>): (r: seq<u8>)
    ensures |r| == |s|
    ensures forall i :: 0 <= i < |s| ==> r[i] == ToUpper(s[i])
  {
    seq(|s|, i requires 0 <= i < |s| => ToUpper(s[i]))
  }

  /** isEqualNc: equality after upper-casing both strings. */
  predicate IsEqualNc(s1: seq<u8>, s2: seq<u8>)
  {
    Upper(s1) == Upper(s2)
  }

  /**
   * Two names are equal ignoring case exactly when they have the same length
   * and agree position by position after upper-casing.
   */
  lemma IsEqualNcPointwise(s1: seq<u8>, s2: seq<u8>)
    ensures IsEqualNc(s1, s2) <==>
      (|s1| == |s2| && forall i :: 0 <= i < |s1| ==> ToUpper(s1[i]) == ToUpper(s2[i]))
  {
    if |s1| == |s2| && forall i :: 0 <= i < |s1| ==> ToUpper(s1[i]) == ToUpper(s2[i]) {
      assert Upper(s1) == Upper(s2) by {
        forall i | 0 <= i < |s1| ensures Upper(s1)[i] == Upper(s2)[i] { }
      }
    }
  }

  /** The comparison is an equivalence relation that also ignores case. */
  lemma IsEqualNcEquivalence(s1: seq<u8>, s2: seq<u8>, s3: seq<u8>)
    ensures IsEqualNc(s1, s1)
    ensures IsEqualNc(s1, s2) ==> IsEqualNc(s2, s1)
    ensures IsEqualNc(s1, s2) && IsEqualNc(s2, s3) ==> IsEqualNc(s1, s3)
    ensures IsEqualNc(s1, Upper(s1))
  {
    assert Upper(Upper(s1)) == Upper(s1) by {
      forall i | 0 <= i < |s1| ensures Upper(Upper(s1))[i] == Upper(s1)[i] { }
    }
  }

  /** std::string's operator<: lexicographic over bytes taken as unsigned. */
  predicate LexLess(a: seq<u8>, b: seq<u8>)
    decreases |a|
  {
    if a == [] then b != []
    else if b == [] then false
    else if a[0] != b[0] then a[0] < b[0]
    else LexLess(a[1..], b[1..])
  }

  /** The string order is a strict total order. */
  lemma {:induction false} LexLessStrictTotal(a: seq<u8>, b: seq<u8>, c: seq<u8>)
    ensures !LexLess(a, a)
    ensures LexLess(a, b) ==> !LexLess(b, a)
    ensures LexLess(a, b) && LexLess(b, c) ==> LexLess(a, c)
    ensures a != b ==> LexLess(a, b) || LexLess(b, a)
    decreases |a|
  {
    if a != [] && b != [] && c != [] {
      LexLessStrictTotal(a[1..], b[1..], c[1..]);
      if a[0] == b[0] && a[1..] == b[1..] {
        assert a == [a[0]] + a[1..] && b == [b[0]] + b[1..];
      }
    } else if a != [] && b != [] {
      LexLessStrictTotal(a[1..], b[1..], b[1..]);
      if a[0] == b[0] && a[1..] == b[1..] {
        assert a == [a[0]] + a[1..] && b == [b[0]] + b[1..];
      }
    } else if a != [] {
      LexLessStrictTotal(a[1..], a[1..], a[1..]);
    }
  }

  /** A resource directory entry with the name read for string-named entries. */
  datatype ResDirEntry = ResDirEntry(Name: u32, OffsetToData: u32, wstrName: seq<u8>)

  predicate NameIsString(e: ResDirEntry)
  {
    e.Name >= RESOURCE_NAME_IS_STRING
  }

  /** PELIB_IMG_RES_DIR_ENTRY::operator<. */
  predicate ResDirEntryLess(x: ResDirEntry, y: ResDirEntry)
  {
    if NameIsString(x) && NameIsString(y) then LexLess(x.wstrName, y.wstrName)
    else if NameIsString(x) then true
    else if NameIsString(y) then false
    else x.Name < y.Name
  }

  /**
   * The order puts every string-named entry before every ID entry, orders
   * names as strings and IDs as numbers, and is a strict weak order (as
   * std::sort requires).
   */
  lemma ResDirEntryOrder(x: ResDirEntry, y: ResDirEntry, z: ResDirEntry)
    ensures NameIsString(x) && !NameIsString(y) ==> ResDirEntryLess(x, y) && !ResDirEntryLess(y, x)
    ensures NameIsString(x) && NameIsString(y) ==> (ResDirEntryLess(x, y) <==> LexLess(x.wstrName, y.wstrName))
    ensures !NameIsString(x) && !NameIsString(y) ==> (ResDirEntryLess(x, y) <==> x.Name < y.Name)
    ensures !ResDirEntryLess(x, x)
    ensures ResDirEntryLess(x, y) ==> !ResDirEntryLess(y, x)
    ensures ResDirEntryLess(x, y) && ResDirEntryLess(y, z) ==> ResDirEntryLess(x, z)
  {
    LexLessStrictTotal(x.wstrName, y.wstrName, z.wstrName);
  }

  // ---------------------------------------------------------------------
  // Section headers

  const SIZEOF_SHORT_NAME: nat := 8

  datatype SectionHeader = SectionHeader(
    Name: seq<u8>,
    VirtualSize: u32,
    VirtualAddress: u32,
    SizeOfRawData: u32,
    PointerToRawData: u32,
    PointerToRelocations: u32,
    PointerToLinenumbers: u32,
    NumberOfRelocations: u16,
    NumberOfLinenumbers: u16,
    Characteristics: u32,
    sectionName: seq<u8>)

  /** A zeroed header, as the struct's constructor leaves it. */
  const EmptySectionHeader: SectionHeader :=
    SectionHeader([0, 0, 0, 0, 0, 0, 0, 0], 0, 0, 0, 0, 0, 0, 0, 0, 0, [])

  /** The fixed 8-byte name field for a C string: its first 8 bytes, zero-padded. */
  function ShortName(newName: seq<u8>): (r: seq<u8>)
    ensures |r| == SIZEOF_SHORT_NAME
  {
    var c := CString(newName);
    seq(SIZEOF_SHORT_NAME, i requires 0 <= i < SIZEOF_SHORT_NAME => if i < |c| then c[i] else 0)
  }

  /**
   * PELIB_SECTION_HEADER::setName. `newName` holds the C string's bytes; a
   * NUL inside it, or its end, terminates the string.
   */
  method SetName(h: SectionHeader, newName: seq<u8>) returns (r: SectionHeader)
    ensures |r.Name| == SIZEOF_SHORT_NAME
    ensures forall i :: 0 <= i < SIZEOF_SHORT_NAME ==>
      r.Name[i] == (if i < |CString(newName)| then newName[i] else 0)
    ensures r.sectionName == CString(newName)
    ensures r == h.(Name := r.Name, sectionName := r.sectionName)
  {
    var name := [0, 0, 0, 0, 0, 0, 0, 0];
    var i := 0;
    var c := CString(newName);
    while i < SIZEOF_SHORT_NAME
      invariant 0 <= i <= SIZEOF_SHORT_NAME && |name| == SIZEOF_SHORT_NAME
      invariant i <= |c|
      invariant forall j :: 0 <= j < i ==> name[j] == newName[j]
      invariant forall j :: i <= j < SIZEOF_SHORT_NAME ==> name[j] == 0
    {
      CStringEnd(newName, i);
      if ByteAt(newName, i) == 0 {
        break;
      }
      name := name[i := newName[i]];
      i := i + 1;
    }
    assert i == |c| || i == SIZEOF_SHORT_NAME <= |c|;
    r := h.(Name := name, sectionName := c);
  }

  /** Up to the end of its C string, a byte of `s` is zero (or past the end) exactly at the string's end. */
  lemma CStringEnd(s: seq<u8>, i: nat)
    requires i <= |CString(s)|
    ensures ByteAt(s, i) == 0 <==> i == |CString(s)|
  {
    var c := CString(s);
    if i < |c| {
      assert c[i] == s[i];
    }
  }

  /** setVirtualRange: U32_MAX leaves the corresponding field unchanged. */
  function SetVirtualRange(h: SectionHeader, va: u32, vs: u32): (r: SectionHeader)
    ensures r.VirtualAddress == if va != U32_MAX then va else h.VirtualAddress
    ensures r.VirtualSize == if vs != U32_MAX then vs else h.VirtualSize
    ensures r.(VirtualAddress := h.VirtualAddress, VirtualSize := h.VirtualSize) == h
  {
    var h1 := if va != U32_MAX then h.(VirtualAddress := va) else h;
    if vs != U32_MAX then h1.(VirtualSize := vs) else h1
  }

  /** setRawDataRange: U32_MAX leaves the corresponding field unchanged. */
  function SetRawDataRange(h: SectionHeader, ptr: u32, size: u32): (r: SectionHeader)
    ensures r.PointerToRawData == if ptr != U32_MAX then ptr else h.PointerToRawData
    ensures r.SizeOfRawData == if size != U32_MAX then size else h.SizeOfRawData
    ensures r.(PointerToRawData := h.PointerToRawData, SizeOfRawData := h.SizeOfRawData) == h
  {
    var h1 := if ptr != U32_MAX then h.(PointerToRawData := ptr) else h;
    if size != U32_MAX then h1.(SizeOfRawData := size) else h1
  }

  /** Both range setters are idempotent, and the all-sentinel call changes nothing. */
  lemma RangeSettersIdempotent(h: SectionHeader, x: u32, y: u32)
    ensures SetVirtualRange(SetVirtualRange(h, x, y), x, y) == SetVirtualRange(h, x, y)
    ensures SetRawDataRange(SetRawDataRange(h, x, y), x, y) == SetRawDataRange(h, x, y)
    ensures SetVirtualRange(h, U32_MAX, U32_MAX) == h && SetRawDataRange(h, U32_MAX, U32_MAX) == h
  {
  }

  // ---------------------------------------------------------------------
  // NT headers

  /** PELIB_IMAGE_NT_HEADERS_EX::size: signature, file header, optional header, directories. */
  function NtHeadersSize(numberOfDirectories: nat): u32
  {
    Trunc32(NT_SIGNATURE_SIZE + FILE_HEADER_SIZE + OPTIONAL_HEADER_STRUCT_SIZE
            + Trunc32(numberOfDirectories) * DATA_DIRECTORY_SIZE)
  }

  /** loadedSize: four bytes fewer when the last directory's Size field was cut off. */
  function NtHeadersLoadedSize(numberOfDirectories: nat, lastDirectoryIsIncomplete: bool): (r: u32)
    ensures lastDirectoryIsIncomplete && numberOfDirectories > 0 ==> r == Sub32(NtHeadersSize(numberOfDirectories), 4)
    ensures !(lastDirectoryIsIncomplete && numberOfDirectories > 0) ==> r == NtHeadersSize(numberOfDirectories)
  {
    var res := NtHeadersSize(numberOfDirectories);
    if lastDirectoryIsIncomplete && numberOfDirectories > 0 then Sub32(res, 4) else res
  }

  /** Without wrap-around the NT headers take 272 bytes plus 8 per directory. */
  lemma NtHeadersSizeValue(n: nat)
    requires n <= NUMBER_OF_DIRECTORY_ENTRIES
    ensures NtHeadersSize(n) == 272 + 8 * n
    ensures NtHeadersLoadedSize(n, true) == if n > 0 then 268 + 8 * n else 272
  {
  }

  // ---------------------------------------------------------------------
  // Import sizes

  datatype ThunkData = ThunkData(Ordinal: u64, fname: seq<u8>, patchRva: u32, hint: u16)

  /** PELIB_THUNK_DATA::calculateSize: pointer, name, NUL and the 2-byte hint. */
  function ThunkSize(t: ThunkData, pointerSize: u32): u32
  {
    Trunc32(pointerSize + |t.fname| + 1 + 2)
  }

  /** The exact (unbounded) sum of the thunks' sizes. */
  function ThunksTotal(thunks: seq<ThunkData>, pointerSize: u32): nat
  {
    if thunks == [] then 0
    else ThunksTotal(thunks[..|thunks| - 1], pointerSize) + ThunkSize(thunks[|thunks| - 1], pointerSize)
  }

  datatype ImportDescriptor = ImportDescriptor(
    OriginalFirstThunk: u32, TimeDateStamp: u32, ForwarderChain: u32, Name: u32, FirstThunk: u32)

  const EmptyImportDescriptor: ImportDescriptor := ImportDescriptor(0, 0, 0, 0, 0)

  datatype ImportDirectoryEntry = ImportDirectoryEntry(
    impdesc: ImportDescriptor, name: seq<u8>, thunk_data: seq<ThunkData>)

  /**
   * PELIB_IMAGE_IMPORT_DIRECTORY::calculateSize: descriptor, DLL name and its
   * NUL, every thunk, and one terminating pointer, accumulated in 32 bits.
   */
  method ImportEntrySize(e: ImportDirectoryEntry, pointerSize: u32) returns (totalSize: u32)
    ensures totalSize == (IMPORT_DESCRIPTOR_SIZE + |e.name| + 1
                          + ThunksTotal(e.thunk_data, pointerSize) + pointerSize) % TWO_32
  {
    ghost var exact: nat := IMPORT_DESCRIPTOR_SIZE + |e.name| + 1;
    totalSize := Trunc32(IMPORT_DESCRIPTOR_SIZE + |e.name| + 1);
    var i := 0;
    while i < |e.thunk_data|
      invariant 0 <= i <= |e.thunk_data|
      invariant exact == IMPORT_DESCRIPTOR_SIZE + |e.name| + 1 + ThunksTotal(e.thunk_data[..i], pointerSize)
      invariant totalSize == exact % TWO_32
    {
      var size := ThunkSize(e.thunk_data[i], pointerSize);
      assert e.thunk_data[..i + 1][..i] == e.thunk_data[..i];
      assert ThunksTotal(e.thunk_data[..i + 1], pointerSize) == ThunksTotal(e.thunk_data[..i], pointerSize) + size;
      AddMod(exact, size, TWO_32);
      totalSize := Add32(totalSize, size);
      exact := exact + size;
      i := i + 1;
    }
    assert e.thunk_data[..i] == e.thunk_data;
    AddMod(exact, pointerSize, TWO_32);
    totalSize := Add32(totalSize, pointerSize);
  }

  /** An import entry takes at least its descriptor, name and terminator, plus p+3+|name| per thunk. */
  lemma {:induction false} ThunksTotalValue(thunks: seq<ThunkData>, p: u32)
    requires p + 3 + 0x1_0000 < TWO_32 && forall i :: 0 <= i < |thunks| ==> |thunks[i].fname| < 0x1_0000
    ensures ThunksTotal(thunks, p) >= |thunks| * (p + 3)
    decreases |thunks|
  {
    if thunks != [] {
      ThunksTotalValue(thunks[..|thunks| - 1], p);
    }
  }

  // ---------------------------------------------------------------------
  // Bound imports

  datatype BoundImportDescriptor = BoundImportDescriptor(
    TimeDateStamp: u32, OffsetModuleName: u16, NumberOfModuleForwarderRefs: u16)

  datatype BoundDirectory = BoundDirectory(
    ibdDescriptor: BoundImportDescriptor,
    strModuleName: seq<u8>,
    moduleForwarders: seq<BoundDirectory>)

  /** The exact space a bound-import entry and its forwarders describe. */
  function BoundExactSize(b: BoundDirectory): nat
    decreases b, 1
  {
    BoundForwardersExactSize(b.moduleForwarders) + BOUND_IMPORT_DESCRIPTOR_SIZE + |b.strModuleName| + 1
  }

  function BoundForwardersExactSize(fs: seq<BoundDirectory>): nat
    decreases fs, 0
  {
    if fs == [] then 0
    else BoundForwardersExactSize(fs[..|fs| - 1]) + BoundExactSize(fs[|fs| - 1]) % TWO_32
  }

  /**
   * PELIB_IMAGE_BOUND_DIRECTORY::size: the forwarders' sizes accumulated in an
   * unsigned int, plus the descriptor, the name and its NUL, truncated to 32 bits.
   */
  method BoundDirectorySize(b: BoundDirectory) returns (size: u32)
    ensures size == BoundExactSize(b) % TWO_32
    decreases b
  {
    var acc: u32 := 0;
    ghost var exact: nat := 0;
    var i := 0;
    while i < |b.moduleForwarders|
      invariant 0 <= i <= |b.moduleForwarders|
      invariant exact == BoundForwardersExactSize(b.moduleForwarders[..i])
      invariant acc == exact % TWO_32
    {
      assert b.moduleForwarders[..i + 1][..i] == b.moduleForwarders[..i];
      var f := BoundDirectorySize(b.moduleForwarders[i]);
      assert BoundForwardersExactSize(b.moduleForwarders[..i + 1]) == exact + f;
      AddMod(exact, f, TWO_32);
      acc := Add32(acc, f);
      exact := exact + f;
      i := i + 1;
    }
    assert b.moduleForwarders[..i] == b.moduleForwarders;
    AddMod(exact, BOUND_IMPORT_DESCRIPTOR_SIZE + |b.strModuleName| + 1, TWO_32);
    size := Trunc32(acc + BOUND_IMPORT_DESCRIPTOR_SIZE + |b.strModuleName| + 1);
  }

  /** A bound entry without forwarders takes 8 bytes plus its name and NUL. */
  lemma BoundSizeLeaf(b: BoundDirectory)
    requires b.moduleForwarders == [] && |b.strModuleName| < 0x1_0000
    ensures BoundExactSize(b) % TWO_32 == 9 + |b.strModuleName|
  {
  }

  datatype Option<T> = None | Some(value: T)

  /** A failed parse stays failed; a successful one gets `acc` in front. */
  function Prepend<T>(acc: seq<T>, o: Option<seq<T>>): (r: Option<seq<T>>)
    ensures r.Some? <==> o.Some?
  {
    if o.None? then None else Some(acc + o.value)
  }

  lemma PrependNil<T>(o: Option<seq<T>>)
    ensures Prepend([], o) == o
  {
    if o.Some? {
      assert [] + o.value == o.value;
    }
  }

  lemma PrependPrepend<T>(a: seq<T>, b: seq<T>, o: Option<seq<T>>)
    ensures Prepend(a, Prepend(b, o)) == Prepend(a + b, o)
  {
    if o.Some? {
      assert a + (b + o.value) == a + b + o.value;
    }
  }
}
