// The debug remover's main program: it checks its input, parses the PE
// headers and the debug directory, then zeroes the Debug data-directory
// slot, the array of IMAGE_DEBUG_DIRECTORY records and each record's data,
// and writes the buffer next to the input as <stem>_stripped<extension>.
module Redactor {
  import opened Bytes
  import opened PeAux
  import opened LoaderErrors
  import opened ImageLoader
  import opened DebugDirectories
  import opened Paths
  import opened FilePages

  // The messages of the failure exits, in the order main checks them.
  const ERROR_USAGE: string := "Usage: debug_remover <binary>"
  const ERROR_NOT_EXIST: string := "The specified file doesn't exist"
  const ERROR_EMPTY_FILE: string := "The specified file is empty"
  const ERROR_EMPTY_DATA: string := "The binary data is empty"
  const ERROR_PE_PARSE: string := "An error has occured while trying to parse the PE header"
  const ERROR_NO_DIR: string := "Debug directory doesn't exist"
  const ERROR_NO_ENTRIES: string := "No debug entries found"
  const ERROR_NULL_OFFSET: string := "Debug directory offset is null"

  const LADDER: seq<string> := [ERROR_USAGE, ERROR_NOT_EXIST, ERROR_EMPTY_FILE, ERROR_EMPTY_DATA,
    ERROR_PE_PARSE, ERROR_NO_DIR, ERROR_NO_ENTRIES, ERROR_NULL_OFFSET]

  /** The Debug data-directory slot: VirtualAddress and Size, four bytes each. */
  const SLOT_SIZE: u32 := 8

  // 'P' and 'E', the two bytes the signature search looks for.
  const SIGNATURE_P: u8 := 0x50
  const SIGNATURE_E: u8 := 0x45

  /** What the file system reports about the input path, and the bytes read from it. */
  datatype FileFacts = FileFacts(present: bool, isEmpty: bool, data: seq<u8>)

  /**
   * What the PE parser reports: the result of loading the headers, the result
   * of reading the debug directory, the debug entries it then holds, and the
   * image loader's optional header and section table.
   */
  datatype ParseFacts = ParseFacts(
    loadError: int,
    debugError: int,
    entries: seq<DebugEntry>,
    optionalHeader: OptionalHeader,
    sections: seq<SectionHeader>)

  /**
   * How a run ends: a failure message (exit code -1, nothing written), the
   * output file written (exit code 0), or a fill outside the buffer, which is
   * undefined behaviour in the source.
   */
  datatype Outcome = Failed(message: string) | Written(path: string, bytes: seq<u8>) | Undefined

  function ExitCode(o: Outcome): (r: int)
    requires !o.Undefined?
    ensures r == 0 <==> o.Written?
  {
    if o.Failed? then -1 else 0
  }

  // ---------------------------------------------------------------------
  // Zero fills

  /** One call of fill_with_zeroes: `size` bytes from `offset`. */
  datatype Fill = Fill(offset: u32, size: u32)

  predicate FillInRange(f: Fill, len: nat)
  {
    f.offset + f.size <= len
  }

  predicate AllInRange(fills: seq<Fill>, len: nat)
  {
    forall k :: 0 <= k < |fills| ==> FillInRange(fills[k], len)
  }

  /** The buffer after a fill: zero in [offset, offset + size), the old byte elsewhere, same length. */
  function Zeroed(s: seq<u8>, offset: nat, size: nat): (r: seq<u8>)
    requires offset + size <= |s|
    ensures |r| == |s|
    ensures forall i :: 0 <= i < |s| ==> r[i] == if offset <= i < offset + size then 0 else s[i]
  {
    s[..offset] + Zeros(size) + s[offset + size..]
  }

  /**
   * fill_with_zeroes. The source does no bounds check; a range past the end
   * of the buffer is undefined behaviour, so the caller must exclude it.
   */
  method FillWithZeroes(buffer: array<u8>, offset: u32, size: u32)
    requires offset + size <= buffer.Length
    modifies buffer
    ensures buffer[..] == Zeroed(old(buffer[..]), offset, size)
  {
    var i: nat := offset;
    while i < offset + size
      invariant offset <= i <= offset + size
      invariant forall j :: 0 <= j < buffer.Length ==>
        buffer[j] == if offset <= j < i then 0 else old(buffer[j])
    {
      buffer[i] := 0;
      i := i + 1;
    }
  }

  /** A fill of no bytes changes nothing. */
  lemma ZeroedNothing(s: seq<u8>, offset: nat)
    requires offset <= |s|
    ensures Zeroed(s, offset, 0) == s
  {
    assert forall i :: 0 <= i < |s| ==> Zeroed(s, offset, 0)[i] == s[i];
  }

  /** Re-filling a range that is already zero changes nothing. */
  lemma ZeroedAlreadyZero(s: seq<u8>, offset: nat, size: nat)
    requires offset + size <= |s|
    requires forall i :: offset <= i < offset + size ==> s[i] == 0
    ensures Zeroed(s, offset, size) == s
  {
    assert forall i :: 0 <= i < |s| ==> Zeroed(s, offset, size)[i] == s[i];
  }

  /** The list of fills applied one after the other, in list order. */
  function ApplyFills(s: seq<u8>, fills: seq<Fill>): (r: seq<u8>)
    requires AllInRange(fills, |s|)
    ensures |r| == |s|
    decreases |fills|
  {
    if fills == [] then s
    else
      var last := fills[|fills| - 1];
      Zeroed(ApplyFills(s, fills[..|fills| - 1]), last.offset, last.size)
  }

  /** Byte `i` lies in the range of one of the fills. */
  predicate Covered(fills: seq<Fill>, i: nat)
  {
    exists k :: 0 <= k < |fills| && fills[k].offset <= i < fills[k].offset + fills[k].size
  }

  /** After a list of fills, a byte is zero if some fill covers it and is unchanged otherwise. */
  lemma {:induction false} ApplyFillsEffect(s: seq<u8>, fills: seq<Fill>, i: nat)
    requires AllInRange(fills, |s|) && i < |s|
    ensures ApplyFills(s, fills)[i] == if Covered(fills, i) then 0 else s[i]
    decreases |fills|
  {
    if fills != [] {
      var init := fills[..|fills| - 1];
      var last := fills[|fills| - 1];
      ApplyFillsEffect(s, init, i);
      if Covered(init, i) {
        var k :| 0 <= k < |init| && init[k].offset <= i < init[k].offset + init[k].size;
        assert fills[k] == init[k];
      } else if last.offset <= i < last.offset + last.size {
      } else {
        forall k | 0 <= k < |fills|
          ensures !(fills[k].offset <= i < fills[k].offset + fills[k].size)
        {
          if k < |init| {
            assert fills[k] == init[k];
          }
        }
      }
    }
  }

  /** Every byte of the buffer after a list of fills, by ApplyFillsEffect. */
  lemma ApplyFillsBytes(s: seq<u8>, fills: seq<Fill>)
    requires AllInRange(fills, |s|)
    ensures forall i :: 0 <= i < |s| ==> ApplyFills(s, fills)[i] == if Covered(fills, i) then 0 else s[i]
  {
    forall i | 0 <= i < |s|
      ensures ApplyFills(s, fills)[i] == if Covered(fills, i) then 0 else s[i]
    {
      ApplyFillsEffect(s, fills, i);
    }
  }

  /** Applying the same fills again changes nothing: the redaction is idempotent on its ranges. */
  lemma ApplyFillsIdempotent(s: seq<u8>, fills: seq<Fill>)
    requires AllInRange(fills, |s|)
    ensures ApplyFills(ApplyFills(s, fills), fills) == ApplyFills(s, fills)
  {
    var once := ApplyFills(s, fills);
    ApplyFillsBytes(s, fills);
    ApplyFillsBytes(once, fills);
  }

  /** The order of the fills does not matter: two lists with the same members give the same buffer. */
  lemma ApplyFillsOrderFree(s: seq<u8>, fills: seq<Fill>, others: seq<Fill>)
    requires AllInRange(fills, |s|) && AllInRange(others, |s|)
    requires forall f :: f in fills <==> f in others
    ensures ApplyFills(s, fills) == ApplyFills(s, others)
  {
    ApplyFillsBytes(s, fills);
    ApplyFillsBytes(s, others);
    forall i | 0 <= i < |s|
      ensures Covered(fills, i) == Covered(others, i)
    {
      if Covered(fills, i) {
        var k :| 0 <= k < |fills| && fills[k].offset <= i < fills[k].offset + fills[k].size;
        assert fills[k] in others;
      }
      if Covered(others, i) {
        var k :| 0 <= k < |others| && others[k].offset <= i < others[k].offset + others[k].size;
        assert others[k] in fills;
      }
    }
  }

  /** One more fill at the end of the list is one more Zeroed on the buffer. */
  lemma ApplyFillsSnoc(s: seq<u8>, fills: seq<Fill>, f: Fill)
    requires AllInRange(fills, |s|) && FillInRange(f, |s|)
    ensures AllInRange(fills + [f], |s|)
    ensures ApplyFills(s, fills + [f]) == Zeroed(ApplyFills(s, fills), f.offset, f.size)
  {
    assert (fills + [f])[..|fills|] == fills;
  }

  // ---------------------------------------------------------------------
  // The signature search

  /** The two bytes "PE" start at `i`. */
  predicate SignatureAt(data: seq<u8>, i: nat)
  {
    i + 1 < |data| && data[i] == SIGNATURE_P && data[i + 1] == SIGNATURE_E
  }

  /**
   * std::string::find with the pattern "PE\0\0" passed as a C string: the
   * pattern ends at its first NUL, so the search is for "PE". The first
   * position at or after `from`, or none.
   */
  function FindSignature(data: seq<u8>, from: nat): (r: Option<nat>)
    ensures r.Some? ==> from <= r.value && SignatureAt(data, r.value)
    ensures r.Some? ==> forall j :: from <= j < r.value ==> !SignatureAt(data, j)
    ensures r.None? ==> forall j :: from <= j ==> !SignatureAt(data, j)
    decreases |data| - from
  {
    if from + 1 >= |data| then None
    else if SignatureAt(data, from) then Some(from)
    else FindSignature(data, from + 1)
  }

  /**
   * A file the header parser accepted holds "PE" at e_lfanew, so the search
   * always reports a match, at e_lfanew or earlier; this is why the guard
   * is modelled as "a match was found".
   */
  lemma SignatureFoundAtOrBefore(data: seq<u8>, lfanew: nat)
    requires SignatureAt(data, lfanew)
    ensures FindSignature(data, 0).Some? && FindSignature(data, 0).value <= lfanew
  {
  }

  // ---------------------------------------------------------------------
  // The fills of one run

  /** calcNumberOfEntries on the parsed debug directory. */
  function NumEntries(p: ParseFacts): (r: u32)
    ensures r <= |p.entries|
    ensures |p.entries| < TWO_32 ==> r == |p.entries|
  {
    Trunc32(|p.entries|)
  }

  /** The slot fill, present only when the search reports a match. */
  function SlotFills(data: seq<u8>, oh: OptionalHeader): (r: seq<Fill>)
    ensures |r| <= 1
    ensures r != [] <==> FindSignature(data, 0).Some?
  {
    match FindSignature(data, 0)
    case None => []
    case Some(pos) => [Fill(Add32(Trunc32(pos), GetFieldOffset(oh, DebugRva)), SLOT_SIZE)]
  }

  /** The file offset of the debug directory: the translated RVA of data directory 6. */
  function DirectoryOffset(p: ParseFacts): u32
  {
    GetFileOffsetFromRva(p.optionalHeader, p.sections, DataDirRva(p.optionalHeader, DIR_DEBUG))
  }

  /** The record array fill: 28 bytes per entry, the product taken as a uint32_t argument. */
  function DirectoryFill(p: ParseFacts): (r: Fill)
    ensures r.offset == DirectoryOffset(p)
    ensures DEBUG_DIRECTORY_SIZE * |p.entries| < TWO_32 ==> r.size == DEBUG_DIRECTORY_SIZE * |p.entries|
  {
    Fill(DirectoryOffset(p), Trunc32(DEBUG_DIRECTORY_SIZE * NumEntries(p)))
  }

  /** The fill of one entry's data: SizeOfData bytes from its PointerToRawData. */
  function EntryFill(e: DebugEntry): Fill
  {
    Fill(e.idd.PointerToRawData, e.idd.SizeOfData)
  }

  /** The fills of the first `n` entries' data, in array order. */
  function EntryFills(entries: seq<DebugEntry>, n: nat): (r: seq<Fill>)
    requires n <= |entries|
    ensures |r| == n && forall k :: 0 <= k < n ==> r[k] == EntryFill(entries[k])
  {
    seq(n, k requires 0 <= k < n => EntryFill(entries[k]))
  }

  /** Every fill of a run that gets past the null-offset check, in the order main makes them. */
  function RedactionFills(data: seq<u8>, p: ParseFacts): seq<Fill>
  {
    SlotFills(data, p.optionalHeader) + [DirectoryFill(p)] + EntryFills(p.entries, NumEntries(p))
  }

  /** How the fill phase of a run ends. */
  datatype FillResult = OutOfBuffer | NullOffset | Filled(bytes: seq<u8>)

  /**
   * The fill phase: the slot fill, the null-offset check, the record array
   * fill and the entry fills. A fill outside the buffer ends it.
   */
  function FillPhase(data: seq<u8>, p: ParseFacts): FillResult
  {
    if !AllInRange(SlotFills(data, p.optionalHeader), |data|) then OutOfBuffer
    else if DirectoryOffset(p) == 0 then NullOffset
    else
      var fills := RedactionFills(data, p);
      if !AllInRange(fills, |data|) then OutOfBuffer
      else Filled(ApplyFills(data, fills))
  }

  /**
   * The whole run of main. The checks come in a fixed order and each ends
   * the run with its message; a fill outside the buffer ends it with
   * undefined behaviour; otherwise the buffer with every fill applied is
   * written to the output name.
   */
  function Redaction(args: seq<string>, file: FileFacts, p: ParseFacts): Outcome
  {
    if |args| < 2 then Failed(ERROR_USAGE)
    else if !file.present then Failed(ERROR_NOT_EXIST)
    else if file.isEmpty then Failed(ERROR_EMPTY_FILE)
    else if file.data == [] then Failed(ERROR_EMPTY_DATA)
    else if p.loadError != ERROR_NONE then Failed(ERROR_PE_PARSE)
    else if p.debugError == ERROR_DIRECTORY_DOES_NOT_EXIST then Failed(ERROR_NO_DIR)
    else if NumEntries(p) == 0 then Failed(ERROR_NO_ENTRIES)
    else
      match FillPhase(file.data, p)
      case OutOfBuffer => Undefined
      case NullOffset => Failed(ERROR_NULL_OFFSET)
      case Filled(bytes) => Written(OutputName(args[1]), bytes)
  }

  /** main: each check in turn, then the fill phase and the output. */
  method Redact(args: seq<string>, file: FileFacts, p: ParseFacts) returns (outcome: Outcome)
    ensures outcome == Redaction(args, file, p)
  {
    if |args| < 2 {
      return Failed(ERROR_USAGE);
    }
    var binaryOut := OutputName(args[1]);
    if !file.present {
      return Failed(ERROR_NOT_EXIST);
    }
    if file.isEmpty {
      return Failed(ERROR_EMPTY_FILE);
    }
    if file.data == [] {
      return Failed(ERROR_EMPTY_DATA);
    }
    if p.loadError != ERROR_NONE {
      return Failed(ERROR_PE_PARSE);
    }
    if p.debugError == ERROR_DIRECTORY_DOES_NOT_EXIST {
      return Failed(ERROR_NO_DIR);
    }
    if NumEntries(p) == 0 {
      return Failed(ERROR_NO_ENTRIES);
    }
    var r := ZeroDebugData(file.data, p);
    match r
    case OutOfBuffer => outcome := Undefined;
    case NullOffset => outcome := Failed(ERROR_NULL_OFFSET);
    case Filled(bytes) => outcome := Written(binaryOut, bytes);
  }

  /**
   * The fills of main on a byte buffer copied from the file data: the slot
   * when the search reports a match, the record array unless its offset is
   * 0, then each entry's data.
   */
  method ZeroDebugData(data: seq<u8>, p: ParseFacts) returns (r: FillResult)
    ensures r == FillPhase(data, p)
  {
    var buffer := new u8[|data|](k requires 0 <= k < |data| => data[k]);
    assert buffer[..] == data;
    var ok := FillSlot(buffer, data, p.optionalHeader);
    if !ok {
      return OutOfBuffer;
    }
    if DirectoryOffset(p) == 0 {
      return NullOffset;
    }
    ok := FillDirectoryAndEntries(buffer, data, p);
    if !ok {
      return OutOfBuffer;
    }
    return Filled(buffer[..]);
  }

  /** The slot fill, when the search reports a match; false when it lies outside the buffer. */
  method FillSlot(buffer: array<u8>, data: seq<u8>, oh: OptionalHeader) returns (ok: bool)
    requires buffer[..] == data
    modifies buffer
    ensures ok <==> AllInRange(SlotFills(data, oh), |data|)
    ensures ok ==> buffer[..] == ApplyFills(data, SlotFills(data, oh))
  {
    var slot := SlotFills(data, oh);
    var found := FindSignature(data, 0);
    if found.Some? {
      var fieldOffset := GetFieldOffset(oh, DebugRva);
      var at := Add32(Trunc32(found.value), fieldOffset);
      assert slot == [Fill(at, SLOT_SIZE)];
      if at + SLOT_SIZE > buffer.Length {
        assert !FillInRange(slot[0], |data|);
        return false;
      }
      FillWithZeroes(buffer, at, SLOT_SIZE);
      ApplyFillsSnoc(data, [], slot[0]);
      assert [] + [slot[0]] == slot;
    }
    return true;
  }

  /** The record array fill, then the entry fills; false at the first fill outside the buffer. */
  method FillDirectoryAndEntries(buffer: array<u8>, data: seq<u8>, p: ParseFacts) returns (ok: bool)
    requires |data| == buffer.Length
    requires AllInRange(SlotFills(data, p.optionalHeader), |data|)
    requires buffer[..] == ApplyFills(data, SlotFills(data, p.optionalHeader))
    modifies buffer
    ensures ok <==> AllInRange(RedactionFills(data, p), |data|)
    ensures ok ==> buffer[..] == ApplyFills(data, RedactionFills(data, p))
  {
    var slot := SlotFills(data, p.optionalHeader);
    var dir := DirectoryFill(p);
    var pre := slot + [dir];
    var numEntries := NumEntries(p);
    if dir.offset + dir.size > buffer.Length {
      assert pre[|slot|] == dir;
      PrefixOutOfRange(pre, EntryFills(p.entries, numEntries), |data|, |slot|);
      return false;
    }
    FillWithZeroes(buffer, dir.offset, dir.size);
    ApplyFillsSnoc(data, slot, dir);
    ok := FillEntries(buffer, data, pre, p.entries, numEntries);
  }

  /**
   * The loop over the entries: each entry's data range in array order. It
   * stops, reporting false, at the first range outside the buffer.
   */
  method FillEntries(buffer: array<u8>, data: seq<u8>, pre: seq<Fill>, entries: seq<DebugEntry>, n: u32)
    returns (ok: bool)
    requires n <= |entries| && |data| == buffer.Length
    requires AllInRange(pre, |data|) && buffer[..] == ApplyFills(data, pre)
    modifies buffer
    ensures ok <==> AllInRange(pre + EntryFills(entries, n), |data|)
    ensures ok ==> buffer[..] == ApplyFills(data, pre + EntryFills(entries, n))
  {
    assert pre + EntryFills(entries, 0) == pre;
    var i: u32 := 0;
    while i < n
      invariant i <= n
      invariant AllInRange(pre + EntryFills(entries, i), |data|)
      invariant buffer[..] == ApplyFills(data, pre + EntryFills(entries, i))
    {
      ok := FillEntry(buffer, data, pre, entries, i, n);
      if !ok {
        return false;
      }
      i := i + 1;
    }
    return true;
  }

  /** One pass of the entry loop: entry `i`'s data range is zeroed, or is outside the buffer and ends the loop. */
  method FillEntry(buffer: array<u8>, data: seq<u8>, pre: seq<Fill>, entries: seq<DebugEntry>, i: u32, n: u32)
    returns (ok: bool)
    requires i < n <= |entries| && |data| == buffer.Length
    requires AllInRange(pre + EntryFills(entries, i), |data|)
    requires buffer[..] == ApplyFills(data, pre + EntryFills(entries, i))
    modifies buffer
    ensures !ok ==> !AllInRange(pre + EntryFills(entries, n), |data|)
    ensures ok ==> AllInRange(pre + EntryFills(entries, i + 1), |data|)
    ensures ok ==> buffer[..] == ApplyFills(data, pre + EntryFills(entries, i + 1))
  {
    var entryOffset := entries[i].idd.PointerToRawData;
    var entrySize := entries[i].idd.SizeOfData;
    var done := pre + EntryFills(entries, i);
    if entryOffset + entrySize > buffer.Length {
      EntryOutOfRange(pre, entries, i, n, |data|);
      return false;
    }
    FillWithZeroes(buffer, entryOffset, entrySize);
    ApplyFillsSnoc(data, done, EntryFill(entries[i]));
    assert pre + EntryFills(entries, i + 1) == done + [EntryFill(entries[i])];
    return true;
  }

  /** A fill of the first list that is outside the buffer leaves the whole list outside the range. */
  lemma PrefixOutOfRange(pre: seq<Fill>, rest: seq<Fill>, len: nat, k: nat)
    requires k < |pre| && !FillInRange(pre[k], len)
    ensures !AllInRange(pre + rest, len)
  {
    assert (pre + rest)[k] == pre[k];
  }

  /** An entry whose data range leaves the buffer makes the run's fills leave it too. */
  lemma EntryOutOfRange(pre: seq<Fill>, entries: seq<DebugEntry>, i: nat, n: nat, len: nat)
    requires i < n <= |entries|
    requires !FillInRange(EntryFill(entries[i]), len)
    ensures !AllInRange(pre + EntryFills(entries, n), len)
  {
    assert (pre + EntryFills(entries, n))[|pre| + i] == EntryFill(entries[i]);
  }

  // ---------------------------------------------------------------------
  // What a run does

  /** Whether check `k` of the ladder fails, given that the ones before it passed. */
  predicate FailsCheck(args: seq<string>, file: FileFacts, p: ParseFacts, k: nat)
    requires k < |LADDER|
  {
    match k
    case 0 => |args| < 2
    case 1 => !file.present
    case 2 => file.isEmpty
    case 3 => file.data == []
    case 4 => p.loadError != ERROR_NONE
    case 5 => p.debugError == ERROR_DIRECTORY_DOES_NOT_EXIST
    case 6 => NumEntries(p) == 0
    case _ => AllInRange(SlotFills(file.data, p.optionalHeader), |file.data|) && DirectoryOffset(p) == 0
  }

  /** The eight failure messages are distinct, so a message names its check. */
  lemma LadderMessagesDistinct()
    ensures forall j, k :: 0 <= j < k < |LADDER| ==> LADDER[j] != LADDER[k]
  {
    assert |ERROR_USAGE| == 29 && |ERROR_NOT_EXIST| == 32 && |ERROR_EMPTY_FILE| == 27 && |ERROR_EMPTY_DATA| == 24;
    assert |ERROR_PE_PARSE| == 56 && |ERROR_NO_DIR| == 29 && |ERROR_NO_ENTRIES| == 22 && |ERROR_NULL_OFFSET| == 30;
    assert ERROR_USAGE[0] != ERROR_NO_DIR[0];
  }

  /**
   * The failure exits come in the fixed order usage, missing file, empty
   * file, empty data, parse error, missing debug directory, no entries,
   * null offset: the run fails with the k-th message exactly when the k-th
   * check fails and every earlier one passes. A failed run writes nothing.
   */
  lemma LadderOrder(args: seq<string>, file: FileFacts, p: ParseFacts, k: nat)
    requires k < |LADDER|
    ensures Redaction(args, file, p) == Failed(LADDER[k]) <==>
      FailsCheck(args, file, p, k) && forall j :: 0 <= j < k ==> !FailsCheck(args, file, p, j)
  {
    LadderMessagesDistinct();
    var first := FirstFailingCheck(args, file, p);
    assert Redaction(args, file, p).Failed? <==> first < |LADDER|;
    assert first < |LADDER| ==> Redaction(args, file, p) == Failed(LADDER[first]);
  }

  /** The position of the first check that fails, or the ladder's length when none does. */
  function FirstFailingCheck(args: seq<string>, file: FileFacts, p: ParseFacts): (r: nat)
    ensures r <= |LADDER|
    ensures forall j :: 0 <= j < r && j < |LADDER| ==> !FailsCheck(args, file, p, j)
    ensures r < |LADDER| ==> FailsCheck(args, file, p, r)
  {
    if |args| < 2 then 0
    else if !file.present then 1
    else if file.isEmpty then 2
    else if file.data == [] then 3
    else if p.loadError != ERROR_NONE then 4
    else if p.debugError == ERROR_DIRECTORY_DOES_NOT_EXIST then 5
    else if NumEntries(p) == 0 then 6
    else if FillPhase(file.data, p).NullOffset? then 7
    else 8
  }

  /**
   * A written output comes from a run that passed every check: it is the
   * fill phase's buffer, it has the input's length, and its name is derived
   * from the argument.
   */
  lemma WrittenShape(args: seq<string>, file: FileFacts, p: ParseFacts)
    requires Redaction(args, file, p).Written?
    ensures FirstFailingCheck(args, file, p) == |LADDER|
    ensures |args| >= 2 && Redaction(args, file, p).path == OutputName(args[1])
    ensures FillPhase(file.data, p) == Filled(Redaction(args, file, p).bytes)
    ensures |Redaction(args, file, p).bytes| == |file.data|
  {
  }

  /** Locality: each byte the fill phase yields is zero if some fill covers it, and the input byte otherwise. */
  lemma FilledBytes(data: seq<u8>, p: ParseFacts, i: nat)
    requires FillPhase(data, p).Filled? && i < |data|
    ensures AllInRange(RedactionFills(data, p), |data|) && |FillPhase(data, p).bytes| == |data|
    ensures FillPhase(data, p).bytes[i] == if Covered(RedactionFills(data, p), i) then 0 else data[i]
  {
    ApplyFillsEffect(data, RedactionFills(data, p), i);
  }

  /** A covered byte is zero. */
  lemma CoveredIsZero(data: seq<u8>, p: ParseFacts, k: nat, i: nat)
    requires FillPhase(data, p).Filled?
    requires var fills := RedactionFills(data, p);
      k < |fills| && fills[k].offset <= i < fills[k].offset + fills[k].size
    ensures i < |data| && FillPhase(data, p).bytes[i] == 0
  {
    var fills := RedactionFills(data, p);
    assert FillInRange(fills[k], |data|);
    FilledBytes(data, p, i);
  }

  /**
   * The Debug slot's eight bytes, at the match plus getFieldOffset(Debug), are
   * zeroed when the search reports a match.
   */
  lemma SlotZeroed(data: seq<u8>, p: ParseFacts, i: nat)
    requires FillPhase(data, p).Filled? && FindSignature(data, 0).Some?
    requires var at := Add32(Trunc32(FindSignature(data, 0).value), GetFieldOffset(p.optionalHeader, DebugRva));
      at <= i < at + SLOT_SIZE
    ensures i < |data| && FillPhase(data, p).bytes[i] == 0
  {
    var at := Add32(Trunc32(FindSignature(data, 0).value), GetFieldOffset(p.optionalHeader, DebugRva));
    assert RedactionFills(data, p)[0] == Fill(at, SLOT_SIZE);
    CoveredIsZero(data, p, 0, i);
  }

  /**
   * The record array is zeroed from the translated directory offset, which
   * is not 0, for 28 bytes per entry (the product cut to 32 bits).
   */
  lemma DirectoryZeroed(data: seq<u8>, p: ParseFacts, i: nat)
    requires FillPhase(data, p).Filled?
    ensures DirectoryOffset(p) != 0
    ensures DirectoryOffset(p) <= i < DirectoryOffset(p) + Trunc32(DEBUG_DIRECTORY_SIZE * NumEntries(p)) ==>
      i < |data| && FillPhase(data, p).bytes[i] == 0
  {
    var fills := RedactionFills(data, p);
    var s := |SlotFills(data, p.optionalHeader)|;
    if DirectoryOffset(p) <= i < DirectoryOffset(p) + Trunc32(DEBUG_DIRECTORY_SIZE * NumEntries(p)) {
      assert fills[s] == DirectoryFill(p);
      CoveredIsZero(data, p, s, i);
    }
  }

  /** Each entry's data range [PointerToRawData, PointerToRawData + SizeOfData) is zeroed. */
  lemma EntryDataZeroed(data: seq<u8>, p: ParseFacts, k: nat, i: nat)
    requires FillPhase(data, p).Filled? && k < NumEntries(p)
    requires var d := p.entries[k].idd; d.PointerToRawData <= i < d.PointerToRawData + d.SizeOfData
    ensures i < |data| && FillPhase(data, p).bytes[i] == 0
  {
    var fills := RedactionFills(data, p);
    var s := |SlotFills(data, p.optionalHeader)| + 1;
    assert fills[s + k] == EntryFill(p.entries[k]);
    CoveredIsZero(data, p, s + k, i);
  }

  /** A byte that no fill covers is the input byte. */
  lemma UncoveredUnchanged(data: seq<u8>, p: ParseFacts, i: nat)
    requires FillPhase(data, p).Filled? && i < |data|
    requires !Covered(RedactionFills(data, p), i)
    ensures FillPhase(data, p).bytes[i] == data[i]
  {
    FilledBytes(data, p, i);
  }

  /**
   * Entries that a successful debug-directory read took from this file end
   * inside it, so their fills are never out of range: undefined behaviour can
   * only come from the slot or the record array.
   */
  lemma EntryFillsInRange(records: seq<DebugRecord>, file: FileFacts, p: ParseFacts)
    requires FirstBadEntry(records, |file.data|) == |records|
    requires p.entries == AttachData(records, file.data)
    ensures AllInRange(EntryFills(p.entries, NumEntries(p)), |file.data|)
  {
    var fills := EntryFills(p.entries, NumEntries(p));
    forall k | 0 <= k < |fills|
      ensures FillInRange(fills[k], |file.data|)
    {
      ReadEntriesInFile(records, file.data, k);
    }
  }

  /**
   * Only 0 counts as a null offset: a debug directory whose RVA no section
   * maps and that lies past the headers translates to UINT32_MAX, which is
   * used as-is, and the record fill then runs past the end of any buffer
   * shorter than 4 GiB.
   */
  lemma UnmappedDirectoryIsUndefined(data: seq<u8>, p: ParseFacts)
    requires AllInRange(SlotFills(data, p.optionalHeader), |data|)
    requires DirectoryOffset(p) == U32_MAX && |data| < U32_MAX
    ensures FillPhase(data, p) == OutOfBuffer
  {
    var fills := RedactionFills(data, p);
    assert fills[|SlotFills(data, p.optionalHeader)|] == DirectoryFill(p);
  }

  /**
   * When the first "PE" is the NT signature at e_lfanew, the slot fill covers
   * data directory 6: 168 bytes past the signature for a 32-bit optional
   * header, 184 for a 64-bit one.
   */
  lemma SlotIsDebugDirectoryEntry(data: seq<u8>, oh: OptionalHeader, lfanew: u32)
    requires FindSignature(data, 0) == Some(lfanew as nat)
    requires lfanew + 184 < TWO_32
    ensures SlotFills(data, oh) ==
      [Fill(lfanew + if ImageBitability(oh) == 64 then 184 else 168, SLOT_SIZE)]
  {
    DirectorySlotLayout(oh, DebugRva);
  }
}
