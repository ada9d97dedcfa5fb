// PeLib's DebugDirectory: the IMAGE_DEBUG_DIRECTORY array (section 6.1.1 of
// the Microsoft PE/COFF Specification), read from the mapped image, with
// each entry's data taken from the raw file.
module DebugDirectories {
  import opened Bytes
  import opened PeAux
  import opened LoaderErrors
  import opened ImageLoader

  /** PELIB_IMAGE_DEBUG_DIRECTORY, field by field in on-disk order. */
  datatype DebugRecord = DebugRecord(
    Characteristics: u32,
    TimeDateStamp: u32,
    MajorVersion: u16,
    MinorVersion: u16,
    Type: u32,
    SizeOfData: u32,
    AddressOfRawData: u32,
    PointerToRawData: u32)

  /** The record a default-constructed PELIB_IMAGE_DEBUG_DIRECTORY holds. */
  const ZeroDebugRecord: DebugRecord := DebugRecord(0, 0, 0, 0, 0, 0, 0, 0)

  /** PELIB_IMG_DEBUG_DIRECTORY: a record and the bytes it points to. */
  datatype DebugEntry = DebugEntry(idd: DebugRecord, data: seq<u8>)

  /** One element of m_occupiedAddresses: a first and a last RVA. */
  datatype AddressRange = AddressRange(first: u32, last: u32)

  /** The record packed in the 28 bytes at `at` (little-endian, no padding). */
  function DecodeDebugRecord(b: seq<u8>, at: nat): DebugRecord
    requires at + DEBUG_DIRECTORY_SIZE <= |b|
  {
    DebugRecord(U32At(b, at), U32At(b, at + 4), U16At(b, at + 8), U16At(b, at + 10),
                U32At(b, at + 12), U32At(b, at + 16), U32At(b, at + 20), U32At(b, at + 24))
  }

  /** rebuild's output for one record: its fields streamed in declaration order. */
  function EncodeDebugRecord(d: DebugRecord): (r: seq<u8>)
    ensures |r| == DEBUG_DIRECTORY_SIZE
  {
    Enc32(d.Characteristics) + Enc32(d.TimeDateStamp) + Enc16(d.MajorVersion) + Enc16(d.MinorVersion) +
    Enc32(d.Type) + Enc32(d.SizeOfData) + Enc32(d.AddressOfRawData) + Enc32(d.PointerToRawData)
  }

  /** Decoding the 28 bytes of a rebuilt record gives it back. */
  lemma DecodeEncodeDebugRecord(d: DebugRecord, b: seq<u8>, at: nat)
    requires at + DEBUG_DIRECTORY_SIZE <= |b| && b[at..at + DEBUG_DIRECTORY_SIZE] == EncodeDebugRecord(d)
    ensures DecodeDebugRecord(b, at) == d
  {
    var e := EncodeDebugRecord(d);
    assert e[0..4] == Enc32(d.Characteristics) && e[4..8] == Enc32(d.TimeDateStamp);
    assert e[8..10] == Enc16(d.MajorVersion) && e[10..12] == Enc16(d.MinorVersion);
    assert e[12..16] == Enc32(d.Type) && e[16..20] == Enc32(d.SizeOfData);
    assert e[20..24] == Enc32(d.AddressOfRawData) && e[24..28] == Enc32(d.PointerToRawData);
    SliceOfSlice(b, at, 28, 0, 4);
    U32AtEnc(b, at, d.Characteristics);
    SliceOfSlice(b, at, 28, 4, 4);
    U32AtEnc(b, at + 4, d.TimeDateStamp);
    SliceOfSlice(b, at, 28, 8, 2);
    U16AtEnc(b, at + 8, d.MajorVersion);
    SliceOfSlice(b, at, 28, 10, 2);
    U16AtEnc(b, at + 10, d.MinorVersion);
    SliceOfSlice(b, at, 28, 12, 4);
    U32AtEnc(b, at + 12, d.Type);
    SliceOfSlice(b, at, 28, 16, 4);
    U32AtEnc(b, at + 16, d.SizeOfData);
    SliceOfSlice(b, at, 28, 20, 4);
    U32AtEnc(b, at + 20, d.AddressOfRawData);
    SliceOfSlice(b, at, 28, 24, 4);
    U32AtEnc(b, at + 24, d.PointerToRawData);
  }

  /** rebuild: the records one after another. */
  function Rebuild(entries: seq<DebugEntry>): (r: seq<u8>)
    ensures |r| == DEBUG_DIRECTORY_SIZE * |entries|
  {
    if entries == [] then [] else Rebuild(entries[..|entries| - 1]) + EncodeDebugRecord(entries[|entries| - 1].idd)
  }

  /** The i-th 28-byte slot of the rebuilt directory decodes to the i-th record. */
  lemma {:induction false} RebuildDecodes(entries: seq<DebugEntry>, i: nat)
    requires i < |entries|
    ensures DecodeDebugRecord(Rebuild(entries), DEBUG_DIRECTORY_SIZE * i) == entries[i].idd
  {
    var last := |entries| - 1;
    var front := entries[..last];
    var rest := Rebuild(front);
    assert Rebuild(entries) == rest + EncodeDebugRecord(entries[last].idd);
    if i == last {
      assert Rebuild(entries)[|rest|..|rest| + DEBUG_DIRECTORY_SIZE] == EncodeDebugRecord(entries[last].idd);
      DecodeEncodeDebugRecord(entries[last].idd, Rebuild(entries), |rest|);
    } else {
      RebuildDecodes(front, i);
      var at := DEBUG_DIRECTORY_SIZE * i;
      assert at + DEBUG_DIRECTORY_SIZE <= |rest|;
      assert Rebuild(entries)[at..at + DEBUG_DIRECTORY_SIZE] == rest[at..at + DEBUG_DIRECTORY_SIZE];
      DecodeSlice(Rebuild(entries), rest, at);
    }
  }

  /** A record decodes from its own 28 bytes alone. */
  lemma DecodeSlice(a: seq<u8>, b: seq<u8>, at: nat)
    requires at + DEBUG_DIRECTORY_SIZE <= |a| && at + DEBUG_DIRECTORY_SIZE <= |b|
    requires a[at..at + DEBUG_DIRECTORY_SIZE] == b[at..at + DEBUG_DIRECTORY_SIZE]
    ensures DecodeDebugRecord(a, at) == DecodeDebugRecord(b, at)
  {
    assert forall j :: at <= j < at + DEBUG_DIRECTORY_SIZE ==> a[j] == a[at..at + DEBUG_DIRECTORY_SIZE][j - at];
    assert forall j :: at <= j < at + DEBUG_DIRECTORY_SIZE ==> b[j] == b[at..at + DEBUG_DIRECTORY_SIZE][j - at];
  }

  // ---------------------------------------------------------------------
  // Entry enumeration

  /**
   * The records the image-level read collects: up to `count` of them, one
   * per 28 bytes from `rva` on (the RVA advancing as a 32-bit value), ending
   * early at the first record the image cannot supply in full.
   */
  function EntriesAt(img: seq<u8>, rva: u32, count: nat): (r: seq<DebugRecord>)
    requires |img| < TWO_32
    ensures |r| <= count
    decreases count, 2
  {
    if count == 0 then [] else EntriesFromSlot(img, rva, count)
  }

  /** The records from slot `rva` when at least one more may be read. */
  function EntriesFromSlot(img: seq<u8>, rva: u32, count: nat): (r: seq<DebugRecord>)
    requires |img| < TWO_32 && count > 0
    ensures |r| <= count
    decreases count, 1
  {
    EntriesPastRead(img, rva, count, Add32(rva, DEBUG_DIRECTORY_SIZE))
  }

  /** The record at slot `rva`, when the image supplies it in full, and the records from the slot `next` after it. */
  function EntriesPastRead(img: seq<u8>, rva: u32, count: nat, next: u32): (r: seq<DebugRecord>)
    requires |img| < TWO_32 && count > 0 && next == Add32(rva, DEBUG_DIRECTORY_SIZE)
    ensures |r| <= count
    decreases count, 0
  {
    var b := ReadImage(img, rva, DEBUG_DIRECTORY_SIZE);
    if |b| != DEBUG_DIRECTORY_SIZE then []
    else [DecodeDebugRecord(b, 0)] + EntriesAt(img, next, count - 1)
  }

  /** One step of the enumeration: stop at a short read, or keep the decoded record and go on. */
  lemma EntriesUnfold(img: seq<u8>, rva: u32, count: nat, b: seq<u8>)
    requires |img| < TWO_32 && count > 0 && b == ReadImage(img, rva, DEBUG_DIRECTORY_SIZE)
    ensures |b| != DEBUG_DIRECTORY_SIZE ==> EntriesAt(img, rva, count) == []
    ensures |b| == DEBUG_DIRECTORY_SIZE ==>
      EntriesAt(img, rva, count) == [DecodeDebugRecord(b, 0)] + EntriesAt(img, Add32(rva, DEBUG_DIRECTORY_SIZE), count - 1)
  {
    assert EntriesFromSlot(img, rva, count) == EntriesPastRead(img, rva, count, Add32(rva, DEBUG_DIRECTORY_SIZE));
  }

  /** One pass of the enumeration loop: the record at `rva`, if the image supplies it in full. */
  method ReadEntry(img: seq<u8>, rva: u32, count: nat) returns (rec: Option<DebugRecord>)
    requires |img| < TWO_32 && count > 0
    ensures rec.None? ==> EntriesAt(img, rva, count) == []
    ensures rec.Some? ==>
      EntriesAt(img, rva, count) == [rec.value] + EntriesAt(img, Add32(rva, DEBUG_DIRECTORY_SIZE), count - 1)
  {
    var b := ReadImage(img, rva, DEBUG_DIRECTORY_SIZE);
    EntriesUnfold(img, rva, count, b);
    if |b| != DEBUG_DIRECTORY_SIZE {
      return None;
    }
    rec := Some(DecodeDebugRecord(b, 0));
  }

  /** A record the image holds in full is read and decoded from its own position. */
  lemma FirstEntryAt(img: seq<u8>, rva: u32)
    requires |img| < TWO_32 && rva + DEBUG_DIRECTORY_SIZE <= |img|
    ensures var b := ReadImage(img, rva, DEBUG_DIRECTORY_SIZE);
      |b| == DEBUG_DIRECTORY_SIZE && DecodeDebugRecord(b, 0) == DecodeDebugRecord(img, rva)
  {
    var b := ReadImage(img, rva, DEBUG_DIRECTORY_SIZE);
    assert b == img[rva..rva + DEBUG_DIRECTORY_SIZE];
    assert forall j :: 0 <= j < DEBUG_DIRECTORY_SIZE ==> b[j] == img[rva + j];
    assert DecodeDebugRecord(b, 0) == DecodeDebugRecord(img, rva);
  }

  /**
   * When the image holds all `count` slots, every one is read: the i-th
   * record is the one packed at rva + 28 i.
   */
  lemma {:induction false} EntriesAtContiguous(img: seq<u8>, rva: u32, count: nat)
    requires |img| < TWO_32
    requires rva + DEBUG_DIRECTORY_SIZE * count <= |img|
    ensures |EntriesAt(img, rva, count)| == count
    ensures forall i :: 0 <= i < count ==>
      EntriesAt(img, rva, count)[i] == DecodeDebugRecord(img, rva + DEBUG_DIRECTORY_SIZE * i)
    decreases count
  {
    if count > 0 {
      var b := ReadImage(img, rva, DEBUG_DIRECTORY_SIZE);
      EntriesUnfold(img, rva, count, b);
      FirstEntryAt(img, rva);
      var next: u32 := rva + DEBUG_DIRECTORY_SIZE;
      assert Add32(rva, DEBUG_DIRECTORY_SIZE) == next;
      EntriesAtContiguous(img, next, count - 1);
      var tail := EntriesAt(img, next, count - 1);
      assert EntriesAt(img, rva, count) == [DecodeDebugRecord(b, 0)] + tail;
      forall i | 1 <= i < count
        ensures EntriesAt(img, rva, count)[i] == DecodeDebugRecord(img, rva + DEBUG_DIRECTORY_SIZE * i)
      {
        assert tail[i - 1] == DecodeDebugRecord(img, next + DEBUG_DIRECTORY_SIZE * (i - 1));
        assert next + DEBUG_DIRECTORY_SIZE * (i - 1) == rva + DEBUG_DIRECTORY_SIZE * i;
      }
    }
  }

  /** The range the directory array occupies: its first RVA and the last byte of `count` records. */
  function DirectoryRange(rva: u32, count: nat): (r: AddressRange)
    requires count >= 1
    ensures rva + DEBUG_DIRECTORY_SIZE * count <= TWO_32 ==>
      r.first == rva && r.last == rva + DEBUG_DIRECTORY_SIZE * count - 1
  {
    AddressRange(rva, Trunc32(rva + DEBUG_DIRECTORY_SIZE * count - 1))
  }

  /**
   * The range as the source records it: from the RVA as it stands after the
   * loop, `read` records past it.
   */
  function DirectoryRangeAsWritten(rva: u32, read: nat, count: nat): AddressRange
    requires count >= 1
  {
    var advanced := Trunc32(rva + DEBUG_DIRECTORY_SIZE * read);
    AddressRange(advanced, Trunc32(advanced + DEBUG_DIRECTORY_SIZE * count - 1))
  }

  /**
   * A one-entry directory at 0x1000, read in full, is recorded as
   * [0x101C, 0x1037], the 28 bytes after it, instead of [0x1000, 0x101B].
   */
  lemma DirectoryRangeAsWrittenMisses()
    ensures DirectoryRangeAsWritten(0x1000, 1, 1) == AddressRange(0x101C, 0x1037)
    ensures DirectoryRange(0x1000, 1) == AddressRange(0x1000, 0x101B)
  {
  }

  /** The range of an entry's data in the image, recorded by the outer read. */
  function DataRange(d: DebugRecord): (r: AddressRange)
    requires d.SizeOfData > 0
    ensures d.AddressOfRawData + d.SizeOfData <= TWO_32 ==>
      r.first == d.AddressOfRawData && r.last == d.AddressOfRawData + d.SizeOfData - 1
  {
    AddressRange(d.AddressOfRawData, Trunc32(d.AddressOfRawData + d.SizeOfData - 1))
  }

  /** The data ranges of the records that have data, in order. */
  function DataRanges(records: seq<DebugRecord>): (r: seq<AddressRange>)
    ensures |r| <= |records|
  {
    if records == [] then []
    else
      var last := records[|records| - 1];
      DataRanges(records[..|records| - 1]) + (if last.SizeOfData > 0 then [DataRange(last)] else [])
  }

  /** Only records with data contribute a range, so records without data add none. */
  lemma {:induction false} DataRangesCount(records: seq<DebugRecord>)
    ensures |DataRanges(records)| == |set i | 0 <= i < |records| && records[i].SizeOfData > 0|
  {
    if records != [] {
      var n := |records| - 1;
      var front := records[..n];
      DataRangesCount(front);
      var s := set i | 0 <= i < |records| && records[i].SizeOfData > 0;
      var s0 := set i | 0 <= i < n && front[i].SizeOfData > 0;
      assert s0 == set i | 0 <= i < n && records[i].SizeOfData > 0;
      if records[n].SizeOfData > 0 {
        assert s == s0 + {n};
      } else {
        assert s == s0;
      }
    }
  }

  /**
   * The per-entry check of the outer read, as the source writes it: the
   * 32-bit sum PointerToRawData + SizeOfData must not wrap, and both the
   * pointer and that sum must lie strictly before the end of the file.
   */
  predicate EntryCheckPasses(d: DebugRecord, fileSize: nat)
  {
    !(Add32(d.PointerToRawData, d.SizeOfData) < d.PointerToRawData ||
      d.PointerToRawData >= fileSize ||
      Add32(d.PointerToRawData, d.SizeOfData) >= fileSize)
  }

  /** An entry whose data ends strictly before the end of the file, with no 32-bit wrap. */
  predicate EntryDataInFile(d: DebugRecord, fileSize: nat)
  {
    d.PointerToRawData + d.SizeOfData < TWO_32 && d.PointerToRawData + d.SizeOfData < fileSize
  }

  /** The source's three-part check is exactly "the data ends before the end of the file, without wrap". */
  lemma EntryCheckMeaning(d: DebugRecord, fileSize: nat)
    ensures EntryCheckPasses(d, fileSize) <==> EntryDataInFile(d, fileSize)
  {
  }

  /** The records paired with their data bytes from the file. */
  function AttachData(records: seq<DebugRecord>, fileData: seq<u8>): (r: seq<DebugEntry>)
    requires forall i :: 0 <= i < |records| ==> EntryDataInFile(records[i], |fileData|)
    ensures |r| == |records|
    ensures forall i :: 0 <= i < |records| ==> r[i] == AttachOne(records[i], fileData)
  {
    seq(|records|, i requires 0 <= i < |records| => AttachOne(records[i], fileData))
  }

  /** One record with its data bytes from the file. */
  function AttachOne(d: DebugRecord, fileData: seq<u8>): (e: DebugEntry)
    requires EntryDataInFile(d, |fileData|)
    ensures e.idd == d && |e.data| == d.SizeOfData
    ensures e.data == fileData[d.PointerToRawData..d.PointerToRawData + d.SizeOfData]
  {
    DebugEntry(d, fileData[d.PointerToRawData..d.PointerToRawData + d.SizeOfData])
  }

  /** read's directory check: rva + size, computed without wrap-around, beyond SizeOfImage. */
  predicate DirectoryOutOfImage(oh: OptionalHeader)
  {
    DataDirRva(oh, DIR_DEBUG) + DataDirSize(oh, DIR_DEBUG) > oh.SizeOfImage
  }

  /** The records the outer read enumerates. */
  function DirectoryRecords(img: seq<u8>, oh: OptionalHeader): seq<DebugRecord>
    requires |img| < TWO_32
  {
    EntriesAt(img, DataDirRva(oh, DIR_DEBUG), DataDirSize(oh, DIR_DEBUG) / DEBUG_DIRECTORY_SIZE)
  }

  /** The position of the first record whose data check fails, or the record count. */
  function FirstBadEntry(records: seq<DebugRecord>, fileSize: nat): (k: nat)
    ensures k <= |records|
    ensures forall j :: 0 <= j < k ==> EntryDataInFile(records[j], fileSize)
    ensures k < |records| ==> !EntryDataInFile(records[k], fileSize)
    ensures forall j :: 0 <= j < |records| && !EntryDataInFile(records[j], fileSize) ==> k <= j
  {
    FirstIndex(records, d => !EntryDataInFile(d, fileSize), 0)
  }

  /** The ranges the image-level read adds: one for the array, if anything was read. */
  function DirectoryRanges(records: seq<DebugRecord>, oh: OptionalHeader): seq<AddressRange>
  {
    var count := DataDirSize(oh, DIR_DEBUG) / DEBUG_DIRECTORY_SIZE;
    if records == [] || count == 0 then [] else [DirectoryRange(DataDirRva(oh, DIR_DEBUG), count)]
  }

  /** Extending a prefix of the records by one record extends its data ranges by that record's. */
  lemma DataRangesStep(records: seq<DebugRecord>, i: nat)
    requires i < |records|
    ensures DataRanges(records[..i + 1]) ==
      DataRanges(records[..i]) + (if records[i].SizeOfData > 0 then [DataRange(records[i])] else [])
  {
    assert records[..i + 1][..i] == records[..i];
    assert records[..i + 1][i] == records[i];
  }

  /**
   * The per-entry loop of read: each record's data bytes are taken from the
   * file and its data range noted, up to the first record that fails the
   * check. Returns that record's position (or the count), the entries with
   * data, and the ranges noted.
   */
  method CheckEntries(records: seq<DebugRecord>, fileData: seq<u8>)
    returns (k: nat, withData: seq<DebugEntry>, ranges: seq<AddressRange>)
    ensures k == FirstBadEntry(records, |fileData|)
    ensures ranges == DataRanges(records[..k])
    ensures k == |records| ==> withData == AttachData(records, fileData)
  {
    ghost var bad := FirstBadEntry(records, |fileData|);
    withData := [];
    ranges := [];
    var i := 0;
    while i < |records|
      invariant 0 <= i <= bad
      invariant |withData| == i && forall j {:trigger withData[j]} :: 0 <= j < i ==> withData[j] == AttachOne(records[j], fileData)
      invariant ranges == DataRanges(records[..i])
    {
      var d := records[i];
      EntryCheckMeaning(d, |fileData|);
      if !EntryCheckPasses(d, |fileData|) {
        return i, withData, ranges;
      }
      var data := fileData[d.PointerToRawData..d.PointerToRawData + d.SizeOfData];
      DataRangesStep(records, i);
      if d.SizeOfData > 0 {
        ranges := ranges + [DataRange(d)];
      }
      withData := withData + [DebugEntry(d, data)];
      i := i + 1;
    }
    assert records[..i] == records;
    assert withData == AttachData(records, fileData);
    k := i;
  }

  class DebugDirectory {
    var entries: seq<DebugEntry>
    var occupiedAddresses: seq<AddressRange>

    constructor ()
      ensures entries == [] && occupiedAddresses == []
    {
      entries := [];
      occupiedAddresses := [];
    }

    /**
     * The image-level read: size / 28 records from `rva`, stopping at the
     * first short read, and the directory range once one record was read.
     * The range recorded is the corrected one (see DirectoryRangeAsWritten).
     */
    method ReadEntries(img: seq<u8>, rva0: u32, size: u32) returns (debugInfo: seq<DebugRecord>)
      requires |img| < TWO_32
      modifies this`occupiedAddresses
      ensures debugInfo == EntriesAt(img, rva0, size / DEBUG_DIRECTORY_SIZE)
      ensures occupiedAddresses == old(occupiedAddresses) +
        (if debugInfo == [] then [] else [DirectoryRange(rva0, size / DEBUG_DIRECTORY_SIZE)])
    {
      var entryCount := size / DEBUG_DIRECTORY_SIZE;
      debugInfo := [];
      var rva := rva0;
      var i := 0;
      while i < entryCount
        invariant 0 <= i <= entryCount && |debugInfo| == i
        invariant debugInfo + EntriesAt(img, rva, entryCount - i) == EntriesAt(img, rva0, entryCount)
        invariant occupiedAddresses == old(occupiedAddresses)
      {
        var rec := ReadEntry(img, rva, entryCount - i);
        if rec.None? {
          assert debugInfo + [] == debugInfo;
          break;
        }
        assert debugInfo + EntriesAt(img, rva, entryCount - i) ==
          (debugInfo + [rec.value]) + EntriesAt(img, Add32(rva, DEBUG_DIRECTORY_SIZE), entryCount - (i + 1));
        debugInfo := debugInfo + [rec.value];
        rva := Add32(rva, DEBUG_DIRECTORY_SIZE);
        i := i + 1;
      }
      assert debugInfo + [] == debugInfo;
      if debugInfo != [] {
        occupiedAddresses := occupiedAddresses + [DirectoryRange(rva0, entryCount)];
      } else {
        assert occupiedAddresses + [] == occupiedAddresses;
      }
    }

    /**
     * read: the directory range is checked against SizeOfImage, the records
     * are enumerated from the image, and each record's data is checked and
     * taken from the file. The stored entries are replaced only when every
     * record passes; the occupied ranges gathered before a failing record stay.
     */
    method Read(img: seq<u8>, fileData: seq<u8>, oh: OptionalHeader) returns (r: int)
      requires |img| < TWO_32
      modifies this
      ensures r == ERROR_NONE || r == ERROR_INVALID_FILE
      ensures DirectoryOutOfImage(oh) ==>
        r == ERROR_INVALID_FILE && entries == old(entries) && occupiedAddresses == old(occupiedAddresses)
      ensures !DirectoryOutOfImage(oh) ==>
        var records := DirectoryRecords(img, oh);
        var k := FirstBadEntry(records, |fileData|);
        occupiedAddresses == old(occupiedAddresses) + DirectoryRanges(records, oh) + DataRanges(records[..k]) &&
        (k < |records| ==> r == ERROR_INVALID_FILE && entries == old(entries)) &&
        (k == |records| ==> r == ERROR_NONE && entries == AttachData(records, fileData))
    {
      var rva := DataDirRva(oh, DIR_DEBUG);
      var size := DataDirSize(oh, DIR_DEBUG);
      if rva + size > oh.SizeOfImage {
        return ERROR_INVALID_FILE;
      }
      var records := ReadEntries(img, rva, size);
      assert records == DirectoryRecords(img, oh);
      var k, withData, ranges := CheckEntries(records, fileData);
      occupiedAddresses := occupiedAddresses + ranges;
      if k < |records| {
        return ERROR_INVALID_FILE;
      }
      entries := withData;
      r := ERROR_NONE;
    }

    /** size(): the rebuilt size, as an unsigned int product of the (truncated) count. */
    function Size(): (r: u32)
      reads this
      ensures |entries| * DEBUG_DIRECTORY_SIZE < TWO_32 ==> r == |Rebuild(entries)|
    {
      Trunc32(Trunc32(|entries|) * DEBUG_DIRECTORY_SIZE)
    }

    /** calcNumberOfEntries: the count, as an unsigned int. */
    function CalcNumberOfEntries(): (r: u32)
      reads this
      ensures |entries| < TWO_32 ==> r == |entries|
    {
      Trunc32(|entries|)
    }

    /** getPointerToRawData; an index past the list is undefined behaviour in the source. */
    function GetPointerToRawData(index: nat): (r: u32)
      requires index < |entries|
      reads this
    {
      entries[index].idd.PointerToRawData
    }

    /** getSizeOfData; an index past the list is undefined behaviour in the source. */
    function GetSizeOfData(index: nat): (r: u32)
      requires index < |entries|
      reads this
    {
      entries[index].idd.SizeOfData
    }

    /** addEntry: one zeroed record without data is appended. */
    method AddEntry()
      modifies this`entries
      ensures entries == old(entries) + [DebugEntry(ZeroDebugRecord, [])]
    {
      entries := entries + [DebugEntry(ZeroDebugRecord, [])];
    }

    /** removeEntry: the index-th entry goes, the rest keep their order. */
    method RemoveEntry(index: nat)
      requires index < |entries|
      modifies this`entries
      ensures entries == old(entries)[..index] + old(entries)[index + 1..]
    {
      entries := entries[..index] + entries[index + 1..];
    }
  }

  /** After a successful read, every entry's data lies inside the file and is the file's bytes there. */
  lemma ReadEntriesInFile(records: seq<DebugRecord>, fileData: seq<u8>, i: nat)
    requires FirstBadEntry(records, |fileData|) == |records|
    requires i < |records|
    ensures var e := AttachData(records, fileData)[i];
      e.idd.PointerToRawData + e.idd.SizeOfData < |fileData| &&
      e.data == fileData[e.idd.PointerToRawData..e.idd.PointerToRawData + e.idd.SizeOfData]
  {
    assert EntryDataInFile(records[i], |fileData|);
  }

  /** removeEntry keeps exactly the other entries: the count drops by one and later entries shift down. */
  lemma RemoveEntryShifts(entries: seq<DebugEntry>, index: nat, j: nat)
    requires index < |entries| && j < |entries| - 1
    ensures var r := entries[..index] + entries[index + 1..];
      |r| == |entries| - 1 && r[j] == if j < index then entries[j] else entries[j + 1]
  {
  }
}
