// PeLib's ImageLoader: the headers it keeps once a file is loaded, the
// address translations it answers from them (early-return searches over the
// section table), and the operations that change its state in place.
module ImageLoader {
  import opened Bytes
  import opened PeAux
  import opened LoaderErrors
  import opened Alignment
  import opened FilePages

  const OPTIONAL_HDR32_MAGIC: u16 := 0x10b
  const OPTIONAL_HDR64_MAGIC: u16 := 0x20b
  const DOS_SIGNATURE: u16 := 0x5A4D

  /** std::size_t on a 64-bit build; SIZE_MAX is the "no section" index. */
  const SIZE_MAX: nat := TWO_64 - 1

  /** Layout of the two optional-header variants (section 3.4 of the Microsoft PE/COFF Specification). */
  const OPTIONAL_HEADER32_SIZE: nat := 224
  const OPTIONAL_HEADER64_SIZE: nat := 240
  const NUMBER_OF_RVA_AND_SIZES32_OFFSET: nat := 92
  const NUMBER_OF_RVA_AND_SIZES64_OFFSET: nat := 108
  const DATA_DIRECTORY32_OFFSET: nat := 96
  const DATA_DIRECTORY64_OFFSET: nat := 112

  datatype DataDirectory = DataDirectory(VirtualAddress: u32, Size: u32)

  /** The optional header's fixed array of sixteen directory entries. */
  type DataDirectories = s: seq<DataDirectory> | |s| == NUMBER_OF_DIRECTORY_ENTRIES
    witness seq(16, _ => DataDirectory(0, 0))

  /** The fields of PELIB_IMAGE_OPTIONAL_HEADER that the modelled code reads. */
  datatype OptionalHeader = OptionalHeader(
    Magic: u16,
    ImageBase: u64,
    SectionAlignment: u32,
    FileAlignment: u32,
    SizeOfImage: u32,
    SizeOfHeaders: u32,
    NumberOfRvaAndSizes: u32,
    DataDirectory: DataDirectories)

  datatype DosHeader = DosHeader(e_magic: u16, e_lfanew: u32)

  function ImageBitability(oh: OptionalHeader): (r: nat)
    ensures r == 64 <==> oh.Magic == OPTIONAL_HDR64_MAGIC
    ensures r == 32 || r == 64
  {
    if oh.Magic == OPTIONAL_HDR64_MAGIC then 64 else 32
  }

  /** getOrdinalMask: the top bit of a pointer-sized word. */
  function OrdinalMask(oh: OptionalHeader): (r: u64)
    ensures r == Pow2(ImageBitability(oh) - 1)
    ensures 2 * r == Pow2(ImageBitability(oh))
  {
    Pow2TopBits();
    if ImageBitability(oh) == 64 then 0x8000_0000_0000_0000 else 0x8000_0000
  }

  // ---------------------------------------------------------------------
  // Data directories and section headers

  /** getDataDirRva: an entry at or past NumberOfRvaAndSizes reads as 0. */
  function DataDirRva(oh: OptionalHeader, index: nat): (r: u32)
    requires index < NUMBER_OF_DIRECTORY_ENTRIES
    ensures index >= oh.NumberOfRvaAndSizes ==> r == 0
  {
    if oh.NumberOfRvaAndSizes > index then oh.DataDirectory[index].VirtualAddress else 0
  }

  /** getDataDirSize: an entry at or past NumberOfRvaAndSizes reads as 0. */
  function DataDirSize(oh: OptionalHeader, index: nat): (r: u32)
    requires index < NUMBER_OF_DIRECTORY_ENTRIES
    ensures index >= oh.NumberOfRvaAndSizes ==> r == 0
  {
    if oh.NumberOfRvaAndSizes > index then oh.DataDirectory[index].Size else 0
  }

  /**
   * setDataDirectory: an index past the sixteen slots is ignored; otherwise
   * NumberOfRvaAndSizes grows to cover it and U32_MAX leaves a field as it is.
   */
  function SetDataDirectory(oh: OptionalHeader, index: nat, va: u32, size: u32): (r: OptionalHeader)
    ensures index >= NUMBER_OF_DIRECTORY_ENTRIES ==> r == oh
    ensures index < NUMBER_OF_DIRECTORY_ENTRIES ==>
      r.NumberOfRvaAndSizes == (if index >= oh.NumberOfRvaAndSizes then index + 1 else oh.NumberOfRvaAndSizes)
    ensures r.(NumberOfRvaAndSizes := oh.NumberOfRvaAndSizes, DataDirectory := oh.DataDirectory) == oh
  {
    if index >= NUMBER_OF_DIRECTORY_ENTRIES then oh
    else
      var n: u32 := if index >= oh.NumberOfRvaAndSizes then index + 1 else oh.NumberOfRvaAndSizes;
      var old_ := oh.DataDirectory[index];
      var e := DataDirectory(if va != U32_MAX then va else old_.VirtualAddress,
                             if size != U32_MAX then size else old_.Size);
      oh.(NumberOfRvaAndSizes := n, DataDirectory := oh.DataDirectory[index := e])
  }

  /**
   * Reading back a directory just set returns what was set (or the old value
   * for a U32_MAX argument); every other entry that was visible before still
   * reads the same.
   */
  lemma DataDirectoryRoundTrip(oh: OptionalHeader, index: nat, va: u32, size: u32, other: nat)
    requires index < NUMBER_OF_DIRECTORY_ENTRIES && other < NUMBER_OF_DIRECTORY_ENTRIES
    ensures DataDirRva(SetDataDirectory(oh, index, va, size), index)
      == if va != U32_MAX then va else oh.DataDirectory[index].VirtualAddress
    ensures DataDirSize(SetDataDirectory(oh, index, va, size), index)
      == if size != U32_MAX then size else oh.DataDirectory[index].Size
    ensures other != index && other < oh.NumberOfRvaAndSizes ==>
      DataDirRva(SetDataDirectory(oh, index, va, size), other) == DataDirRva(oh, other) &&
      DataDirSize(SetDataDirectory(oh, index, va, size), other) == DataDirSize(oh, other)
    ensures index >= oh.NumberOfRvaAndSizes ==> DataDirRva(oh, index) == 0 && DataDirSize(oh, index) == 0
  {
  }

  /** getSectionHeader: a missing header is a null pointer. */
  function GetSectionHeader(sections: seq<SectionHeader>, index: nat): (r: Option<SectionHeader>)
    ensures r.Some? <==> index < |sections|
    ensures r.Some? ==> r.value == sections[index]
  {
    if index < |sections| then Some(sections[index]) else None
  }

  // ---------------------------------------------------------------------
  // Field offsets relative to the PE signature

  datatype MemberType =
    | OptHdrSizeof | OptHdrSizeofFixed | OptHdrNumberOfRvaAndSizes | OptHdrDataDirectory
    | ExportRva | ResourceRva | TlsRva | DebugRva | ConfigRva
    | OtherMember

  predicate IsDirectorySlot(m: MemberType)
  {
    m.ExportRva? || m.ResourceRva? || m.TlsRva? || m.DebugRva? || m.ConfigRva?
  }

  /** The data-directory index named by each PELIB_MEMBER_TYPE slot. */
  function SlotIndex(m: MemberType): (r: nat)
    requires IsDirectorySlot(m)
    ensures r < NUMBER_OF_DIRECTORY_ENTRIES
  {
    match m
    case ExportRva => DIR_EXPORT
    case ResourceRva => DIR_RESOURCE
    case TlsRva => DIR_TLS
    case DebugRva => DIR_DEBUG
    case ConfigRva => DIR_LOAD_CONFIG
  }

  function OptionalHeaderSize(oh: OptionalHeader): nat
  {
    if ImageBitability(oh) == 64 then OPTIONAL_HEADER64_SIZE else OPTIONAL_HEADER32_SIZE
  }

  function DataDirectoryOffset(oh: OptionalHeader): nat
  {
    if ImageBitability(oh) == 64 then DATA_DIRECTORY64_OFFSET else DATA_DIRECTORY32_OFFSET
  }

  /** getFieldOffset. */
  function GetFieldOffset(oh: OptionalHeader, m: MemberType): (r: u32)
    ensures m.OtherMember? ==> r == U32_MAX
  {
    var headers := NT_SIGNATURE_SIZE + FILE_HEADER_SIZE;
    var sixtyFour := ImageBitability(oh) == 64;
    match m
    case OptHdrSizeof => OptionalHeaderSize(oh)
    case OptHdrSizeofFixed => DataDirectoryOffset(oh)
    case OptHdrNumberOfRvaAndSizes =>
      headers + (if sixtyFour then NUMBER_OF_RVA_AND_SIZES64_OFFSET else NUMBER_OF_RVA_AND_SIZES32_OFFSET)
    case OptHdrDataDirectory => headers + DataDirectoryOffset(oh)
    case ExportRva => headers + DataDirectoryOffset(oh) + DIR_EXPORT * DATA_DIRECTORY_SIZE
    case ResourceRva => headers + DataDirectoryOffset(oh) + DIR_RESOURCE * DATA_DIRECTORY_SIZE
    case TlsRva => headers + DataDirectoryOffset(oh) + DIR_TLS * DATA_DIRECTORY_SIZE
    case DebugRva => headers + DataDirectoryOffset(oh) + DIR_DEBUG * DATA_DIRECTORY_SIZE
    case ConfigRva => headers + DataDirectoryOffset(oh) + DIR_LOAD_CONFIG * DATA_DIRECTORY_SIZE
    case OtherMember => U32_MAX
  }

  /**
   * Every data-directory slot lies inside the NT headers: it follows the
   * NumberOfRvaAndSizes field by 4 + 8 * index bytes, and its eight bytes end
   * within the optional header. The Debug slot is entry 6, at 168 bytes from
   * the signature for a 32-bit header and 184 for a 64-bit one.
   */
  lemma DirectorySlotLayout(oh: OptionalHeader, m: MemberType)
    requires IsDirectorySlot(m)
    ensures GetFieldOffset(oh, m) == GetFieldOffset(oh, OptHdrNumberOfRvaAndSizes) + 4 + DATA_DIRECTORY_SIZE * SlotIndex(m)
    ensures GetFieldOffset(oh, m) == GetFieldOffset(oh, OptHdrDataDirectory) + DATA_DIRECTORY_SIZE * SlotIndex(m)
    ensures GetFieldOffset(oh, m) + DATA_DIRECTORY_SIZE <= NT_SIGNATURE_SIZE + FILE_HEADER_SIZE + GetFieldOffset(oh, OptHdrSizeof)
    ensures m.DebugRva? ==> GetFieldOffset(oh, m) == if ImageBitability(oh) == 64 then 184 else 168
  {
  }

  // ---------------------------------------------------------------------
  // Address translation

  /**
   * vaToRva. The end of the image is computed on 64 bits, so an image whose
   * end wraps around maps no address at all.
   */
  function VaToRva(oh: OptionalHeader, va: u64): (r: u32)
    ensures r != U32_MAX <==>
      oh.ImageBase <= va && va < oh.ImageBase + oh.SizeOfImage && oh.ImageBase + oh.SizeOfImage < TWO_64
    ensures r != U32_MAX ==> r == va - oh.ImageBase && r < oh.SizeOfImage
  {
    if oh.ImageBase <= va && va < Add64(oh.ImageBase, oh.SizeOfImage) then va - oh.ImageBase else U32_MAX
  }

  /** Each RVA inside the image is the translation of its virtual address. */
  lemma VaToRvaRoundTrip(oh: OptionalHeader, rva: u32)
    requires rva < oh.SizeOfImage && oh.ImageBase + oh.SizeOfImage < TWO_64
    ensures VaToRva(oh, oh.ImageBase + rva) == rva
  {
  }

  /** isValidImageBlock: the block starts, measures and ends inside the image. */
  function IsValidImageBlock(oh: OptionalHeader, rva: u32, size: u32): (r: bool)
    ensures r <==> rva < oh.SizeOfImage && size < oh.SizeOfImage && rva + size <= oh.SizeOfImage
  {
    if rva >= oh.SizeOfImage || size >= oh.SizeOfImage then false
    else if Add32(rva, size) < rva then false
    else if Add32(rva, size) > oh.SizeOfImage then false
    else true
  }

  /** The first position from `from` on whose element satisfies `p`, or |s|. */
  function FirstIndex<T>(s: seq<T>, p: T -> bool, from: nat): (r: nat)
    requires from <= |s|
    ensures from <= r <= |s|
    ensures r < |s| ==> p(s[r])
    ensures forall k :: from <= k < r ==> !p(s[k])
    ensures forall j :: from <= j < |s| && p(s[j]) && (forall k :: from <= k < j ==> !p(s[k])) ==> r == j
    decreases |s| - from
  {
    if from == |s| then |s|
    else if p(s[from]) then from
    else FirstIndex(s, p, from + 1)
  }

  /**
   * The section's PointerToRawData as the loader uses it: rounded down to a
   * 0x200 sector when the section alignment is at least a page (the mask
   * `& ~(0x200 - 1)` of the source).
   */
  function RealPointerToRawData(oh: OptionalHeader, sh: SectionHeader): (r: u32)
    ensures oh.SectionAlignment < PAGE_SIZE ==> r == sh.PointerToRawData
    ensures oh.SectionAlignment >= PAGE_SIZE ==> r == sh.PointerToRawData - sh.PointerToRawData % SECTOR_SIZE
  {
    if oh.SectionAlignment >= PAGE_SIZE then
      assert Pow2(9) == SECTOR_SIZE;
      And32HighMask(sh.PointerToRawData, SECTOR_SIZE, 9);
      And32(sh.PointerToRawData, 0xFFFF_FE00)
    else sh.PointerToRawData
  }

  /** The span getFileOffsetFromRva gives a section: VirtualSize, or SizeOfRawData if that is 0. */
  function MappedSize(sh: SectionHeader): u32
  {
    if sh.VirtualSize != 0 then sh.VirtualSize else sh.SizeOfRawData
  }

  /** A section with raw data whose (32-bit) virtual range holds `rva`. */
  predicate MapsRva(sh: SectionHeader, rva: u32)
  {
    sh.PointerToRawData != 0 && sh.SizeOfRawData != 0 &&
    sh.VirtualAddress <= rva < Add32(sh.VirtualAddress, MappedSize(sh))
  }

  /** getFileOffsetFromRva. */
  function GetFileOffsetFromRva(oh: OptionalHeader, sections: seq<SectionHeader>, rva: u32): (r: u32)
    ensures |sections| == 0 ==> r == rva
    ensures forall j :: (0 <= j < |sections| && MapsRva(sections[j], rva) &&
      (forall k :: 0 <= k < j ==> !MapsRva(sections[k], rva))) ==>
        r == Add32(RealPointerToRawData(oh, sections[j]), rva - sections[j].VirtualAddress)
    ensures |sections| > 0 && (forall j :: 0 <= j < |sections| ==> !MapsRva(sections[j], rva)) ==>
      r == if rva < oh.SizeOfHeaders then rva else U32_MAX
  {
    if |sections| == 0 then rva
    else
      var j := FirstIndex(sections, sh => MapsRva(sh, rva), 0);
      if j < |sections| then
        Add32(RealPointerToRawData(oh, sections[j]), rva - sections[j].VirtualAddress)
      else if rva < oh.SizeOfHeaders then rva
      else U32_MAX
  }

  /**
   * An RVA inside the headers, below every section's start, translates to
   * itself; one past SizeOfHeaders and below every section translates to
   * U32_MAX, the value the redaction then uses unchecked.
   */
  lemma HeaderRvaTranslation(oh: OptionalHeader, sections: seq<SectionHeader>, rva: u32)
    requires |sections| > 0
    requires forall j :: 0 <= j < |sections| ==> rva < sections[j].VirtualAddress
    ensures GetFileOffsetFromRva(oh, sections, rva) == if rva < oh.SizeOfHeaders then rva else U32_MAX
  {
    forall j | 0 <= j < |sections|
      ensures !MapsRva(sections[j], rva)
    {
    }
  }

  /**
   * When the first mapping section's raw data is used unrounded and covers its
   * whole mapped span without wrap-around, the file offset lies in that raw data.
   */
  lemma FileOffsetInsideRawData(oh: OptionalHeader, sections: seq<SectionHeader>, rva: u32, j: nat)
    requires j < |sections| && MapsRva(sections[j], rva)
    requires forall k :: 0 <= k < j ==> !MapsRva(sections[k], rva)
    requires oh.SectionAlignment < PAGE_SIZE
    requires MappedSize(sections[j]) <= sections[j].SizeOfRawData
    requires sections[j].VirtualAddress + sections[j].VirtualSize < TWO_32
    requires sections[j].PointerToRawData + sections[j].SizeOfRawData < TWO_32
    ensures var r := GetFileOffsetFromRva(oh, sections, rva);
      sections[j].PointerToRawData <= r < sections[j].PointerToRawData + sections[j].SizeOfRawData
  {
    var sh := sections[j];
    assert sh.VirtualAddress + MappedSize(sh) < TWO_32 by {
      if sh.VirtualSize == 0 {
        assert Add32(sh.VirtualAddress, MappedSize(sh)) > sh.VirtualAddress;
        assert sh.VirtualAddress + sh.SizeOfRawData < TWO_32;
      }
    }
  }

  /** The part of a section getValidOffsetFromRva trusts: the smaller of its two sizes. */
  function BackedSize(sh: SectionHeader): u32
  {
    if sh.VirtualSize < sh.SizeOfRawData then sh.VirtualSize else sh.SizeOfRawData
  }

  /** A section whose disk-backed part holds `rva` and whose translated position is inside the file. */
  predicate BacksRva(oh: OptionalHeader, fileSize: nat, sh: SectionHeader, rva: u32)
  {
    sh.PointerToRawData != 0 && sh.SizeOfRawData != 0 &&
    sh.VirtualAddress <= rva < Add32(sh.VirtualAddress, BackedSize(sh)) &&
    RealPointerToRawData(oh, sh) + Sub32(rva, sh.VirtualAddress) < fileSize
  }

  /** getValidOffsetFromRva: the offset is computed on 64 bits and returned truncated. */
  function GetValidOffsetFromRva(oh: OptionalHeader, sections: seq<SectionHeader>, fileSize: nat, rva: u32): (r: u32)
    ensures |sections| == 0 ==> r == U32_MAX
    ensures forall j :: (0 <= j < |sections| && BacksRva(oh, fileSize, sections[j], rva) &&
      (forall k :: 0 <= k < j ==> !BacksRva(oh, fileSize, sections[k], rva))) ==>
        r == Trunc32(RealPointerToRawData(oh, sections[j]) + (rva - sections[j].VirtualAddress))
    ensures |sections| > 0 && (forall j :: 0 <= j < |sections| ==> !BacksRva(oh, fileSize, sections[j], rva)) ==>
      r == if rva < oh.SizeOfHeaders then rva else U32_MAX
    ensures fileSize <= TWO_32 && r != U32_MAX && rva >= oh.SizeOfHeaders ==> r < fileSize
  {
    if |sections| == 0 then U32_MAX
    else
      var j := FirstIndex(sections, sh => BacksRva(oh, fileSize, sh, rva), 0);
      if j < |sections| then
        Trunc32(RealPointerToRawData(oh, sections[j]) + Sub32(rva, sections[j].VirtualAddress))
      else if rva < oh.SizeOfHeaders then rva
      else U32_MAX
  }

  /** A section's page-aligned virtual range holds `rva`. */
  predicate CoversRva(oh: OptionalHeader, sh: SectionHeader, rva: u32)
  {
    sh.VirtualAddress <= rva < AlignToSize(Add32(sh.VirtualAddress, sh.VirtualSize), oh.SectionAlignment)
  }

  /** getSectionIndexByRva: the first covering section, or SIZE_MAX. */
  function GetSectionIndexByRva(oh: OptionalHeader, sections: seq<SectionHeader>, rva: u32): (r: nat)
    requires |sections| < SIZE_MAX
    ensures r == SIZE_MAX || r < |sections|
    ensures r < |sections| ==> CoversRva(oh, sections[r], rva)
    ensures r < |sections| ==> forall k :: 0 <= k < r ==> !CoversRva(oh, sections[k], rva)
    ensures r == SIZE_MAX <==> forall k :: 0 <= k < |sections| ==> !CoversRva(oh, sections[k], rva)
  {
    var j := FirstIndex(sections, sh => CoversRva(oh, sh, rva), 0);
    if j < |sections| then j else SIZE_MAX
  }

  // ---------------------------------------------------------------------
  // Page protection

  const PAGE_NOACCESS: u8 := 0x01
  const PAGE_READONLY: u8 := 0x02
  const PAGE_READWRITE: u8 := 0x04
  const PAGE_WRITECOPY: u8 := 0x08
  const PAGE_EXECUTE: u8 := 0x10
  const PAGE_EXECUTE_READ: u8 := 0x20
  const PAGE_EXECUTE_READWRITE: u8 := 0x40
  const PAGE_EXECUTE_WRITECOPY: u8 := 0x80

  /** Bit `w` of a section's Characteristics (the source's single-bit mask tests). */
  predicate HasFlag(c: u32, w: nat)
  {
    (c / Pow2(w)) % 2 == 1
  }

  const SCN_MEM_SHARED_BIT: nat := 28
  const SCN_MEM_EXECUTE_BIT: nat := 29
  const SCN_MEM_READ_BIT: nat := 30
  const SCN_MEM_WRITE_BIT: nat := 31

  /** The loader's ImageProtectionArray, indexed by execute | read << 1 | write << 2 | shared << 3. */
  const IMAGE_PROTECTION_ARRAY: seq<u8> := [
    PAGE_NOACCESS, PAGE_EXECUTE, PAGE_READONLY, PAGE_EXECUTE_READ,
    PAGE_WRITECOPY, PAGE_EXECUTE_WRITECOPY, PAGE_WRITECOPY, PAGE_EXECUTE_WRITECOPY,
    PAGE_NOACCESS, PAGE_EXECUTE, PAGE_READONLY, PAGE_EXECUTE_READ,
    PAGE_READWRITE, PAGE_EXECUTE_READWRITE, PAGE_READWRITE, PAGE_EXECUTE_READWRITE]

  predicate IsExecutableProtection(p: u8)
  {
    p == PAGE_EXECUTE || p == PAGE_EXECUTE_READ || p == PAGE_EXECUTE_READWRITE || p == PAGE_EXECUTE_WRITECOPY
  }

  predicate IsWritableProtection(p: u8)
  {
    p == PAGE_READWRITE || p == PAGE_WRITECOPY || p == PAGE_EXECUTE_READWRITE || p == PAGE_EXECUTE_WRITECOPY
  }

  predicate IsCopyOnWriteProtection(p: u8)
  {
    p == PAGE_WRITECOPY || p == PAGE_EXECUTE_WRITECOPY
  }

  predicate IsUnreadableProtection(p: u8)
  {
    p == PAGE_NOACCESS || p == PAGE_EXECUTE
  }

  /**
   * getImageProtection. The page executes exactly when the section is
   * executable, is writable exactly when the section is, is copy-on-write
   * exactly when it is writable but not shared, and grants no data access
   * exactly when the section is neither readable nor writable.
   */
  function GetImageProtection(c: u32): (r: u8)
    ensures IsExecutableProtection(r) <==> HasFlag(c, SCN_MEM_EXECUTE_BIT)
    ensures IsWritableProtection(r) <==> HasFlag(c, SCN_MEM_WRITE_BIT)
    ensures IsCopyOnWriteProtection(r) <==> HasFlag(c, SCN_MEM_WRITE_BIT) && !HasFlag(c, SCN_MEM_SHARED_BIT)
    ensures IsUnreadableProtection(r) <==> !HasFlag(c, SCN_MEM_READ_BIT) && !HasFlag(c, SCN_MEM_WRITE_BIT)
  {
    var index :=
      (if HasFlag(c, SCN_MEM_EXECUTE_BIT) then 1 else 0) +
      (if HasFlag(c, SCN_MEM_READ_BIT) then 2 else 0) +
      (if HasFlag(c, SCN_MEM_WRITE_BIT) then 4 else 0) +
      (if HasFlag(c, SCN_MEM_SHARED_BIT) then 8 else 0);
    IMAGE_PROTECTION_ARRAY[index]
  }

  // ---------------------------------------------------------------------
  // Reading the mapped image

  /**
   * readImage on a mapped image. The image is given as its bytes, as many as
   * getSizeOfImageAligned says, with pages the loader did not map reading as
   * zero. The end `rva + n` is a 32-bit sum clamped to the image.
   */
  function ReadImage(img: seq<u8>, rva: u32, n: u32): (r: seq<u8>)
    requires |img| < TWO_32
    ensures |r| <= n
    ensures rva + n <= |img| ==> r == img[rva..rva + n]
    ensures rva < |img| && rva + n < TWO_32 ==> r == img[rva..if rva + n <= |img| then rva + n else |img|]
    ensures rva >= |img| || rva + n >= TWO_32 ==> r == []
  {
    var e := Add32(rva, n);
    var end := if e > |img| then |img| else e;
    if rva < end then img[rva..end] else []
  }

  /** A four-byte read is complete exactly when the word lies in the image, and then holds the image's word. */
  lemma ReadImageWord(img: seq<u8>, rva: u32)
    requires |img| < TWO_32
    ensures |ReadImage(img, rva, 4)| == 4 <==> rva + 4 <= |img|
    ensures rva + 4 <= |img| ==> U32At(ReadImage(img, rva, 4), 0) == U32At(img, rva)
  {
    var b := ReadImage(img, rva, 4);
    if rva + 4 <= |img| {
      assert b[0] == img[rva] && b[1] == img[rva + 1] && b[2] == img[rva + 2] && b[3] == img[rva + 3];
    }
  }

  /** readString's default bound on the length of a string. */
  const STRING_MAX_LENGTH: nat := 65535

  /**
   * readString (through stringLength) on a mapped image: the bytes at `rva`
   * up to the first NUL, the end of the image or STRING_MAX_LENGTH bytes.
   * The end `rva + STRING_MAX_LENGTH` is a 32-bit sum; when it wraps, the
   * string is empty.
   */
  function ReadString(img: seq<u8>, rva: u32): (r: seq<u8>)
    requires |img| < TWO_32
    ensures |r| <= STRING_MAX_LENGTH
  {
    ReadStringUpTo(img, rva, STRING_MAX_LENGTH)
  }

  /** readString with an explicit bound `maxLength` on the length. */
  function ReadStringUpTo(img: seq<u8>, rva: u32, maxLength: nat): (r: seq<u8>)
    requires |img| < TWO_32
    ensures |r| <= maxLength
  {
    if rva + maxLength >= TWO_32 then [] else StringAt(img, rva, maxLength)
  }

  /**
   * The string read holds no NUL and is the image's bytes from `rva` on; it
   * ends at a NUL, at the end of the image or after 65535 bytes. Nothing is
   * read when those 65535 bytes would run past 2^32.
   */
  lemma ReadStringStops(img: seq<u8>, rva: u32)
    requires |img| < TWO_32
    ensures var r := ReadString(img, rva);
      NoNul(r) &&
      (r != [] ==> rva + STRING_MAX_LENGTH < TWO_32 && rva + |r| <= |img| && r == img[rva..rva + |r|]) &&
      (rva + STRING_MAX_LENGTH < TWO_32 ==> |r| == STRING_MAX_LENGTH || rva + |r| >= |img| || img[rva + |r|] == 0)
  {
    ReadStringUpToStops(img, rva, STRING_MAX_LENGTH);
  }

  /** The same for any bound: up to the first NUL, the end of the image or `maxLength` bytes. */
  lemma ReadStringUpToStops(img: seq<u8>, rva: u32, maxLength: nat)
    requires |img| < TWO_32
    ensures var r := ReadStringUpTo(img, rva, maxLength);
      NoNul(r) &&
      (r != [] ==> rva + maxLength < TWO_32 && rva + |r| <= |img| && r == img[rva..rva + |r|]) &&
      (rva + maxLength < TWO_32 ==> |r| == maxLength || rva + |r| >= |img| || img[rva + |r|] == 0)
  {
  }

  /** getPointerSize: the bitability in bytes. */
  function PointerSize(oh: OptionalHeader): (r: nat)
    ensures r == 4 || r == 8
    ensures r == 8 <==> ImageBitability(oh) == 64
  {
    ImageBitability(oh) / 8
  }

  /**
   * readPointer: the little-endian value of the pointer-sized word at `rva`,
   * or None (the source returns 0) when fewer bytes than that can be read.
   */
  function ReadPointer(img: seq<u8>, oh: OptionalHeader, rva: u32): (r: Option<u64>)
    requires |img| < TWO_32
    ensures r.Some? <==> |ReadImage(img, rva, PointerSize(oh))| == PointerSize(oh)
    ensures r.Some? && PointerSize(oh) == 4 ==> r.value < TWO_32
  {
    var b := ReadImage(img, rva, PointerSize(oh));
    if |b| != PointerSize(oh) then None
    else if PointerSize(oh) == 8 then Some(U64At(b, 0))
    else Some(U32At(b, 0) as u64)
  }

  /**
   * The byte at `rva` of an image laid out on `pages`, one page per 4 KiB;
   * positions past the last page read as zero.
   */
  function ImageByte(pages: seq<seq<u8>>, rva: nat): u8
    requires forall k :: 0 <= k < |pages| ==> IsPageBuffer(pages[k])
  {
    var p := rva / PAGE_SIZE;
    if p < |pages| then PageByte(pages[p], rva % PAGE_SIZE) else 0
  }

  /** The first `size` bytes of the image laid out on `pages`. */
  function ImageView(pages: seq<seq<u8>>, size: u32): (r: seq<u8>)
    requires forall k :: 0 <= k < |pages| ==> IsPageBuffer(pages[k])
    ensures |r| == size && forall i :: 0 <= i < size ==> r[i] == ImageByte(pages, i)
  {
    seq(size, i requires 0 <= i < size => ImageByte(pages, i))
  }

  /** A run of bytes that stays inside one page is read from that page alone. */
  lemma PageChunk(pages: seq<seq<u8>>, size: u32, cur: nat, n: nat)
    requires forall k :: 0 <= k < |pages| ==> IsPageBuffer(pages[k])
    requires cur % PAGE_SIZE + n <= PAGE_SIZE && cur + n <= size
    ensures var p := cur / PAGE_SIZE;
      ImageView(pages, size)[cur..cur + n] ==
        if p < |pages| then ReadFromPage(pages[p], cur % PAGE_SIZE, n) else Zeros(n)
  {
    var p, off := cur / PAGE_SIZE, cur % PAGE_SIZE;
    var img := ImageView(pages, size);
    var chunk := if p < |pages| then ReadFromPage(pages[p], off, n) else Zeros(n);
    forall j | 0 <= j < n
      ensures img[cur..cur + n][j] == chunk[j]
    {
      DivModUnique(cur + j, PAGE_SIZE, p, off + j);
    }
  }

  /** The page-offset mask `rva & (PAGE_SIZE - 1)` is the remainder by the page size. */
  lemma PageOffsetMask(rva: u32)
    ensures And32(rva, PAGE_SIZE - 1) == rva % PAGE_SIZE
  {
    Pow2Values();
    LowMaskAnd(rva, 12);
  }

  /**
   * readWriteImage, reading: the end `rva + bytesToRead` is a 32-bit sum
   * clamped to the aligned image size, and the bytes are gathered page by
   * page, zeros where there is no page. The result is the flat ReadImage of
   * the same image. The pages are given as their buffers.
   */
  method ReadWriteImage(pages: seq<seq<u8>>, sizeOfImageAligned: u32, rva: u32, bytesToRead: u32)
    returns (bytesRead: u32, out: seq<u8>)
    requires forall k :: 0 <= k < |pages| ==> IsPageBuffer(pages[k])
    ensures out == ReadImage(ImageView(pages, sizeOfImageAligned), rva, bytesToRead)
    ensures bytesRead == |out|
  {
    ghost var img := ImageView(pages, sizeOfImageAligned);
    var rvaEnd := Add32(rva, bytesToRead);
    if rvaEnd > sizeOfImageAligned {
      rvaEnd := sizeOfImageAligned;
    }
    out := [];
    bytesRead := 0;
    var cur := rva;
    if cur < rvaEnd {
      while cur < rvaEnd
        invariant rva <= cur <= rvaEnd
        invariant out == img[rva..cur] && bytesRead == cur - rva
      {
        var chunk, bytesInPage := ReadPageChunk(pages, sizeOfImageAligned, cur, rvaEnd);
        assert img[rva..cur + bytesInPage] == img[rva..cur] + img[cur..cur + bytesInPage];
        out := out + chunk;
        bytesRead := bytesRead + bytesInPage;
        cur := cur + bytesInPage;
      }
    }
  }

  /** One pass of readWriteImage's loop: the bytes from `cur` to the end of its page or to `rvaEnd`. */
  method ReadPageChunk(pages: seq<seq<u8>>, sizeOfImageAligned: u32, cur: u32, rvaEnd: u32)
    returns (chunk: seq<u8>, bytesInPage: u32)
    requires forall k :: 0 <= k < |pages| ==> IsPageBuffer(pages[k])
    requires cur < rvaEnd <= sizeOfImageAligned
    ensures 0 < bytesInPage <= rvaEnd - cur
    ensures chunk == ImageView(pages, sizeOfImageAligned)[cur..cur + bytesInPage]
  {
    PageOffsetMask(cur);
    var offsetInPage := And32(cur, PAGE_SIZE - 1);
    bytesInPage := PAGE_SIZE - offsetInPage;
    var pageIndex := cur / PAGE_SIZE;
    if bytesInPage > rvaEnd - cur {
      bytesInPage := rvaEnd - cur;
    }
    if pageIndex < |pages| {
      chunk := ReadFromPage(pages[pageIndex], offsetInPage, bytesInPage);
    } else {
      chunk := Zeros(bytesInPage);
    }
    PageChunk(pages, sizeOfImageAligned, cur, bytesInPage);
  }

  // ---------------------------------------------------------------------
  // Raw-file access

  /**
   * The byte count readWriteImageFile uses for a raw-file access, with the
   * end of the range compared on unbounded integers.
   */
  function FileSpan(fileOffset: u32, bytesToRead: u32, size: nat): (n: u32)
    ensures fileOffset > size ==> n == 0
    ensures fileOffset <= size ==> n <= bytesToRead && fileOffset + n <= size
    ensures fileOffset <= size ==> n == bytesToRead || fileOffset + n == size
  {
    if fileOffset > size then 0
    else if fileOffset + bytesToRead > size then size - fileOffset
    else bytesToRead
  }

  /** The byte count as written: the end `fileOffset + bytesToRead` is a 32-bit sum. */
  function FileSpanAsWritten(fileOffset: u32, bytesToRead: u32, size: nat): (n: u32)
    ensures fileOffset + bytesToRead < TWO_32 ==> n == FileSpan(fileOffset, bytesToRead, size)
  {
    if fileOffset > size then 0
    else if Add32(fileOffset, bytesToRead) > size then Trunc32(size - fileOffset)
    else bytesToRead
  }

  /**
   * A wrapped end escapes the clamp: 10 + 0xFFFFFFFF wraps to 9, so a read at
   * offset 10 of a 100-byte file copies 0xFFFFFFFF bytes, where 90 remain.
   */
  lemma FileSpanWrapOverruns()
    ensures FileSpanAsWritten(10, 0xFFFF_FFFF, 100) == 0xFFFF_FFFF
    ensures 10 + FileSpanAsWritten(10, 0xFFFF_FFFF, 100) > 100
    ensures FileSpan(10, 0xFFFF_FFFF, 100) == 90
  {
  }

  /** Each byte sequence with `part` written over it at `at`. */
  function Overwrite(s: seq<u8>, at: nat, part: seq<u8>): (r: seq<u8>)
    requires at + |part| <= |s|
    ensures |r| == |s|
    ensures forall i :: 0 <= i < |s| ==> r[i] == if at <= i < at + |part| then part[i - at] else s[i]
  {
    s[..at] + part + s[at + |part|..]
  }

  /**
   * readWriteImageFile once the RVA is translated to `fileOffset`: clamp the
   * count to the data, then copy the file bytes into the buffer (reading) or
   * the buffer's head over the file bytes (writing).
   */
  method AccessFile(buffer: array<u8>, data: seq<u8>, fileOffset: u32, bytesToRead: u32, readOperation: bool)
    returns (n: u32, data': seq<u8>)
    requires bytesToRead <= buffer.Length
    modifies buffer
    ensures n == FileSpan(fileOffset, bytesToRead, |data|) && (n > 0 ==> fileOffset + n <= |data|)
    ensures readOperation ==> data' == data && buffer[n..] == old(buffer[n..])
    ensures readOperation && n > 0 ==> buffer[..n] == data[fileOffset..fileOffset + n]
    ensures !readOperation ==> buffer[..] == old(buffer[..])
    ensures !readOperation && n > 0 ==> data' == Overwrite(data, fileOffset, buffer[..n])
    ensures n == 0 ==> data' == data
  {
    n := FileSpan(fileOffset, bytesToRead, |data|);
    data' := data;
    if n != 0 {
      if readOperation {
        CopyFromFile(buffer, data, fileOffset, n);
      } else {
        data' := Overwrite(data, fileOffset, buffer[..n]);
      }
    }
  }

  /** The memcpy of a raw-file read: `n` file bytes from `from` into the head of the buffer. */
  method CopyFromFile(buffer: array<u8>, data: seq<u8>, from: nat, n: nat)
    requires n <= buffer.Length && from + n <= |data|
    modifies buffer
    ensures buffer[..n] == data[from..from + n]
    ensures buffer[n..] == old(buffer[n..])
  {
    forall k | 0 <= k < n {
      buffer[k] := data[from + k];
    }
  }

  // ---------------------------------------------------------------------
  // Directory bytes

  function EncodeDirectories(dd: seq<DataDirectory>): (r: seq<u8>)
    ensures |r| == 8 * |dd|
  {
    if dd == [] then [] else Enc32(dd[0].VirtualAddress) + Enc32(dd[0].Size) + EncodeDirectories(dd[1..])
  }

  function DecodeDirectories(b: seq<u8>): (r: seq<DataDirectory>)
    ensures |r| == |b| / 8
  {
    if |b| < 8 then [] else [DataDirectory(U32At(b, 0), U32At(b, 4))] + DecodeDirectories(b[8..])
  }

  /** Decoding the encoded directories gives them back. */
  lemma {:induction false} DecodeEncodeDirectories(dd: seq<DataDirectory>)
    ensures DecodeDirectories(EncodeDirectories(dd)) == dd
  {
    if dd != [] {
      var b := EncodeDirectories(dd);
      var rest := EncodeDirectories(dd[1..]);
      Dec32Enc32(dd[0].VirtualAddress, [], Enc32(dd[0].Size) + rest);
      assert b == [] + Enc32(dd[0].VirtualAddress) + (Enc32(dd[0].Size) + rest);
      Dec32Enc32(dd[0].Size, Enc32(dd[0].VirtualAddress), rest);
      assert b == Enc32(dd[0].VirtualAddress) + Enc32(dd[0].Size) + rest;
      assert b[8..] == rest;
      DecodeEncodeDirectories(dd[1..]);
    }
  }

  /** The directory bytes copyDataDirectories can take: up to 128, up to the end of the file. */
  function AvailableDirectoryBytes(optionalHeaderBytes: seq<u8>, pos: nat): (r: seq<u8>)
    ensures |r| <= NUMBER_OF_DIRECTORY_ENTRIES * DATA_DIRECTORY_SIZE
  {
    var end := if pos + 128 > |optionalHeaderBytes| then |optionalHeaderBytes| else pos + 128;
    if end > pos then optionalHeaderBytes[pos..end] else []
  }

  /** The sixteen directories with their first |bytes| bytes overwritten by `bytes`. */
  function PatchDirectories(dd: DataDirectories, bytes: seq<u8>): (r: DataDirectories)
    requires |bytes| <= NUMBER_OF_DIRECTORY_ENTRIES * DATA_DIRECTORY_SIZE
  {
    var b := EncodeDirectories(dd);
    DecodeDirectories(bytes + b[|bytes|..])
  }

  /** With no bytes available the directories are kept; with all 128 they come wholly from the file. */
  lemma PatchDirectoriesExtremes(dd: DataDirectories, bytes: seq<u8>)
    requires |bytes| <= NUMBER_OF_DIRECTORY_ENTRIES * DATA_DIRECTORY_SIZE
    ensures bytes == [] ==> PatchDirectories(dd, bytes) == dd
    ensures |bytes| == NUMBER_OF_DIRECTORY_ENTRIES * DATA_DIRECTORY_SIZE ==>
      PatchDirectories(dd, bytes) == DecodeDirectories(bytes)
  {
    var b := EncodeDirectories(dd);
    if bytes == [] {
      assert bytes + b[0..] == b;
      DecodeEncodeDirectories(dd);
    }
    if |bytes| == 128 {
      assert bytes + b[128..] == bytes;
    }
  }

  // ---------------------------------------------------------------------
  // The new-section position

  function VirtualEnd(sh: SectionHeader): u32
  {
    Add32(sh.VirtualAddress, sh.VirtualSize)
  }

  function RawEnd(sh: SectionHeader): u32
  {
    Add32(sh.PointerToRawData, sh.SizeOfRawData)
  }

  /** The largest of `init` and the (32-bit) virtual ends of the sections. */
  function MaxVirtualEnd(sections: seq<SectionHeader>, init: u32): (r: u32)
    ensures r >= init && forall k :: 0 <= k < |sections| ==> r >= VirtualEnd(sections[k])
    ensures r == init || exists k :: 0 <= k < |sections| && r == VirtualEnd(sections[k])
  {
    if sections == [] then init
    else
      var m := MaxVirtualEnd(sections[..|sections| - 1], init);
      var e := VirtualEnd(sections[|sections| - 1]);
      assert forall k :: 0 <= k < |sections| - 1 ==> sections[..|sections| - 1][k] == sections[k];
      if e > m then e else m
  }

  /** The largest of `init` and the (32-bit) raw-data ends of the sections. */
  function MaxRawEnd(sections: seq<SectionHeader>, init: u32): (r: u32)
    ensures r >= init && forall k :: 0 <= k < |sections| ==> r >= RawEnd(sections[k])
    ensures r == init || exists k :: 0 <= k < |sections| && r == RawEnd(sections[k])
  {
    if sections == [] then init
    else
      var m := MaxRawEnd(sections[..|sections| - 1], init);
      var e := RawEnd(sections[|sections| - 1]);
      assert forall k :: 0 <= k < |sections| - 1 ==> sections[..|sections| - 1][k] == sections[k];
      if e > m then e else m
  }

  /**
   * With a power-of-two section alignment and no wrap-around, the position
   * calcNewSectionAddresses proposes is aligned and lies past the headers and
   * past the end of every existing section.
   */
  lemma NewSectionAfterAll(oh: OptionalHeader, sections: seq<SectionHeader>, k: nat)
    requires k < 32 && oh.SectionAlignment == Pow2(k)
    requires MaxVirtualEnd(sections, oh.SizeOfHeaders) + oh.SectionAlignment - 1 < TWO_32
    ensures var rva := AlignToSize(MaxVirtualEnd(sections, oh.SizeOfHeaders), oh.SectionAlignment);
      rva % oh.SectionAlignment == 0 && rva >= oh.SizeOfHeaders &&
      forall j :: 0 <= j < |sections| ==> rva >= VirtualEnd(sections[j])
  {
    AlignToSizeRoundsUp(MaxVirtualEnd(sections, oh.SizeOfHeaders), k);
  }

  // ---------------------------------------------------------------------
  // Section removal

  /** How removeSection moves one later section: both start positions drop by the removed sizes. */
  function ShiftSection(sh: SectionHeader, virtualDiff: u32, rawDiff: u32): (r: SectionHeader)
    ensures r.VirtualSize == sh.VirtualSize && r.SizeOfRawData == sh.SizeOfRawData
    ensures r.(VirtualAddress := sh.VirtualAddress, PointerToRawData := sh.PointerToRawData) == sh
    ensures virtualDiff <= sh.VirtualAddress ==> r.VirtualAddress == sh.VirtualAddress - virtualDiff
    ensures rawDiff <= sh.PointerToRawData ==> r.PointerToRawData == sh.PointerToRawData - rawDiff
  {
    var h := SetVirtualRange(sh, Sub32(sh.VirtualAddress, virtualDiff), U32_MAX);
    SetRawDataRange(h, Sub32(h.PointerToRawData, rawDiff), U32_MAX)
  }

  function ShiftSections(sections: seq<SectionHeader>, virtualDiff: u32, rawDiff: u32): (r: seq<SectionHeader>)
    ensures |r| == |sections|
    ensures forall k :: 0 <= k < |r| ==> r[k] == ShiftSection(sections[k], virtualDiff, rawDiff)
  {
    seq(|sections|, k requires 0 <= k < |sections| => ShiftSection(sections[k], virtualDiff, rawDiff))
  }

  // ---------------------------------------------------------------------
  // DOS header checks

  /** The loader error verifyDosHeader reports for a header with the right magic. */
  function DosHeaderError(hdr: DosHeader, fileSize: nat): (e: LoaderError)
    ensures e == LDR_ERROR_NONE <==> hdr.e_lfanew % 4 == 0 && hdr.e_lfanew <= fileSize
  {
    if hdr.e_lfanew % 4 != 0 then LDR_ERROR_E_LFANEW_UNALIGNED
    else if hdr.e_lfanew > fileSize then LDR_ERROR_E_LFANEW_OUT_OF_FILE
    else LDR_ERROR_NONE
  }

  function DosHeaderAt(data: seq<u8>, at: nat): DosHeader
    requires at + DOS_HEADER_SIZE <= |data|
  {
    DosHeader(U16At(data, at), U32At(data, at + 0x3C))
  }

  // ---------------------------------------------------------------------
  // Strings read from the raw file

  /** The bytes of a readStringRaw result, before the printable check. */
  function RawStringWindow(fileData: seq<u8>, offset: nat, maxLength: nat): (r: seq<u8>)
    requires offset < |fileData|
    ensures |r| <= maxLength && offset + |r| <= |fileData|
  {
    var window := if offset + maxLength > |fileData| then |fileData| - offset else maxLength;
    StringAt(fileData, offset, window)
  }

  predicate AllPrintable(s: seq<u8>)
  {
    forall i :: 0 <= i < |s| ==> IsPrintableChar(s[i])
  }

  /**
   * readStringRaw. `str` is the caller's string, left as it was when the
   * offset is out of the file or the string runs past its window while
   * `mustNotBeTooLong` is set, and cleared when a byte is not printable.
   */
  method ReadStringRaw(fileData: seq<u8>, str: seq<u8>, offset: nat, maxLength: nat,
                       mustBePrintable: bool, mustNotBeTooLong: bool)
    returns (length: u32, result: seq<u8>)
    ensures offset >= |fileData| ==> length == 0 && result == str
    ensures offset < |fileData| ==>
      var w := RawStringWindow(fileData, offset, maxLength);
      var limit := if offset + maxLength > |fileData| then |fileData| - offset else maxLength;
      if mustNotBeTooLong && |w| == limit && NoNul(fileData[offset..offset + limit]) then
        length == 0 && result == str
      else if mustBePrintable && !AllPrintable(w) then
        length == 0 && result == []
      else
        result == w && length == Trunc32(|w|)
    ensures length == Trunc32(|result|) || result == str
  {
    if offset >= |fileData| {
      return 0, str;
    }
    var limit := if offset + maxLength > |fileData| then |fileData| - offset else maxLength;
    var w := StringAt(fileData, offset, limit);
    if |w| == limit && NoNul(fileData[offset..offset + limit]) && mustNotBeTooLong {
      return 0, str;
    }
    result := w;
    length := Trunc32(|w|);
    if mustBePrintable {
      var i := 0;
      while i < |w|
        invariant 0 <= i <= |w|
        invariant forall j :: 0 <= j < i ==> IsPrintableChar(w[j])
      {
        if !IsPrintableChar(w[i]) {
          return 0, [];
        }
        i := i + 1;
      }
    }
  }

  // ---------------------------------------------------------------------
  // The loader's mutable state

  class Loader {
    var optionalHeader: OptionalHeader
    var sections: seq<SectionHeader>
    var rawFileData: seq<u8>
    var ldrError: LoaderError

    constructor (oh: OptionalHeader, secs: seq<SectionHeader>, data: seq<u8>)
      ensures optionalHeader == oh && sections == secs && rawFileData == data
      ensures ldrError == LDR_ERROR_NONE
    {
      optionalHeader := oh;
      sections := secs;
      rawFileData := data;
      ldrError := LDR_ERROR_NONE;
    }

    /** setLoaderError: the first recorded error stays; the call always succeeds. */
    method SetLoaderError(e: LoaderError) returns (r: int)
      modifies this`ldrError
      ensures ldrError == KeepFirst(old(ldrError), e)
      ensures r == ERROR_NONE
    {
      if ldrError == LDR_ERROR_NONE {
        ldrError := e;
      }
      r := ERROR_NONE;
    }

    /**
     * verifyDosHeader(hdr, fileSize): a wrong magic fails the load; an
     * unaligned or out-of-file e_lfanew is only recorded as a loader error.
     */
    method VerifyDosHeader(hdr: DosHeader, fileSize: nat) returns (r: int)
      modifies this`ldrError
      ensures hdr.e_magic != DOS_SIGNATURE ==> r == ERROR_INVALID_FILE && ldrError == old(ldrError)
      ensures hdr.e_magic == DOS_SIGNATURE ==>
        r == ERROR_NONE && ldrError == KeepFirst(old(ldrError), DosHeaderError(hdr, fileSize))
    {
      if hdr.e_magic != DOS_SIGNATURE {
        return ERROR_INVALID_FILE;
      }
      if hdr.e_lfanew % 4 != 0 {
        r := SetLoaderError(LDR_ERROR_E_LFANEW_UNALIGNED);
        return;
      }
      if hdr.e_lfanew > fileSize {
        r := SetLoaderError(LDR_ERROR_E_LFANEW_OUT_OF_FILE);
        return;
      }
      r := ERROR_NONE;
    }

    /**
     * verifyDosHeader on a whole file: the header must fit with room to
     * spare, and an e_lfanew pointing out of the file (whether recorded now
     * or earlier) fails the load.
     */
    method VerifyDosHeaderInFile(data: seq<u8>, fileOffset: nat) returns (r: int)
      modifies this`ldrError
      ensures fileOffset + DOS_HEADER_SIZE >= |data| ==> r == ERROR_INVALID_FILE && ldrError == old(ldrError)
      ensures fileOffset + DOS_HEADER_SIZE < |data| ==>
        var hdr := DosHeaderAt(data, fileOffset);
        (hdr.e_magic != DOS_SIGNATURE ==> r == ERROR_INVALID_FILE && ldrError == old(ldrError)) &&
        (hdr.e_magic == DOS_SIGNATURE ==>
          ldrError == KeepFirst(old(ldrError), DosHeaderError(hdr, |data|)) &&
          (r == ERROR_INVALID_FILE <==> ldrError == LDR_ERROR_E_LFANEW_OUT_OF_FILE) &&
          (r != ERROR_INVALID_FILE ==> r == ERROR_NONE))
    {
      if fileOffset + DOS_HEADER_SIZE >= |data| {
        return ERROR_INVALID_FILE;
      }
      var hdr := DosHeaderAt(data, fileOffset);
      r := VerifyDosHeader(hdr, |data|);
      if r != ERROR_NONE {
        return;
      }
      r := if ldrError == LDR_ERROR_E_LFANEW_OUT_OF_FILE then ERROR_INVALID_FILE else ERROR_NONE;
    }

    /**
     * removeSection: every later section moves down by the removed section's
     * sizes, then the section itself is erased.
     */
    method RemoveSection(index: nat) returns (r: int)
      modifies this`sections
      ensures index >= |old(sections)| ==> r == ERROR_ENTRY_NOT_FOUND && sections == old(sections)
      ensures index < |old(sections)| ==> r == ERROR_NONE
      ensures index < |old(sections)| ==>
        sections == old(sections)[..index] +
          ShiftSections(old(sections)[index + 1..], old(sections)[index].VirtualSize, old(sections)[index].SizeOfRawData)
    {
      if index >= |sections| {
        return ERROR_ENTRY_NOT_FOUND;
      }
      var virtualDiff := sections[index].VirtualSize;
      var rawDiff := sections[index].SizeOfRawData;
      var i := index + 1;
      while i < |sections|
        invariant index + 1 <= i <= |sections| == |old(sections)|
        invariant forall k :: 0 <= k < |sections| ==>
          sections[k] == if index < k < i then ShiftSection(old(sections)[k], virtualDiff, rawDiff) else old(sections)[k]
      {
        var h := SetVirtualRange(sections[i], Sub32(sections[i].VirtualAddress, virtualDiff), U32_MAX);
        h := SetRawDataRange(h, Sub32(h.PointerToRawData, rawDiff), U32_MAX);
        sections := sections[i := h];
        i := i + 1;
      }
      sections := sections[..index] + sections[index + 1..];
      r := ERROR_NONE;
    }

    /** calcNewSectionAddresses: the running maxima of the section ends, aligned. */
    method CalcNewSectionAddresses() returns (rva: u32, rawOffset: u32)
      ensures rva == AlignToSize(MaxVirtualEnd(sections, optionalHeader.SizeOfHeaders), optionalHeader.SectionAlignment)
      ensures rawOffset == AlignToSize(MaxRawEnd(sections, optionalHeader.SizeOfHeaders), optionalHeader.FileAlignment)
    {
      var newRawOffset := optionalHeader.SizeOfHeaders;
      var newRva := optionalHeader.SizeOfHeaders;
      var i := 0;
      while i < |sections|
        invariant 0 <= i <= |sections|
        invariant newRva == MaxVirtualEnd(sections[..i], optionalHeader.SizeOfHeaders)
        invariant newRawOffset == MaxRawEnd(sections[..i], optionalHeader.SizeOfHeaders)
      {
        assert sections[..i + 1][..i] == sections[..i];
        if VirtualEnd(sections[i]) > newRva {
          newRva := VirtualEnd(sections[i]);
        }
        if RawEnd(sections[i]) > newRawOffset {
          newRawOffset := RawEnd(sections[i]);
        }
        i := i + 1;
      }
      assert sections[..i] == sections;
      rawOffset := AlignToSize(newRawOffset, optionalHeader.FileAlignment);
      rva := AlignToSize(newRva, optionalHeader.SectionAlignment);
    }

    /**
     * readWriteImageFile: translate the RVA, clamp the count to the data, and
     * copy between the caller's buffer and the raw file bytes. The clamp is the
     * corrected one (see FileSpanAsWritten).
     */
    method ReadWriteImageFile(buffer: array<u8>, rva: u32, bytesToRead: u32, readOperation: bool)
      returns (n: u32)
      requires bytesToRead <= buffer.Length
      modifies buffer, this`rawFileData
      ensures var off := GetFileOffsetFromRva(optionalHeader, sections, rva);
        n == FileSpan(off, bytesToRead, |old(rawFileData)|) && (n > 0 ==> off + n <= |old(rawFileData)|)
      ensures readOperation ==> rawFileData == old(rawFileData) && buffer[n..] == old(buffer[n..])
      ensures readOperation && n > 0 ==>
        var off := GetFileOffsetFromRva(optionalHeader, sections, rva);
        buffer[..n] == rawFileData[off..off + n]
      ensures !readOperation ==> buffer[..] == old(buffer[..])
      ensures !readOperation && n > 0 ==>
        rawFileData == Overwrite(old(rawFileData), GetFileOffsetFromRva(optionalHeader, sections, rva), buffer[..n])
      ensures n == 0 ==> rawFileData == old(rawFileData)
    {
      var fileOffset := GetFileOffsetFromRva(optionalHeader, sections, rva);
      n, rawFileData := AccessFile(buffer, rawFileData, fileOffset, bytesToRead, readOperation);
    }

    /**
     * copyDataDirectories: NumberOfRvaAndSizes is capped at sixteen, and the
     * directory bytes present before the end of the file overwrite the
     * beginning of the stored directories. `optionalHeaderBytes` runs from the
     * start of the optional header to the end of the file, and
     * `dataDirectoriesPos` is where the directories begin inside it.
     */
    method CopyDataDirectories(optionalHeaderBytes: seq<u8>, dataDirectoriesPos: nat, numberOfRvaAndSizes: u32)
      returns (r: u32)
      modifies this`optionalHeader
      ensures r == if numberOfRvaAndSizes > NUMBER_OF_DIRECTORY_ENTRIES then NUMBER_OF_DIRECTORY_ENTRIES else numberOfRvaAndSizes
      ensures optionalHeader == old(optionalHeader).(DataDirectory :=
        PatchDirectories(old(optionalHeader).DataDirectory, AvailableDirectoryBytes(optionalHeaderBytes, dataDirectoriesPos)))
    {
      r := if numberOfRvaAndSizes > NUMBER_OF_DIRECTORY_ENTRIES then NUMBER_OF_DIRECTORY_ENTRIES else numberOfRvaAndSizes;
      var bytes := AvailableDirectoryBytes(optionalHeaderBytes, dataDirectoriesPos);
      optionalHeader := optionalHeader.(DataDirectory := PatchDirectories(optionalHeader.DataDirectory, bytes));
    }
  }
}
