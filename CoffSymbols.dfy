// CoffSymbolTable: the COFF symbol table and the string table after it
// (sections 5.4 and 5.6 of the Microsoft PE/COFF Specification), read from
// the file at a file offset.
module CoffSymbols {
  import opened Bytes
  import opened PeAux
  import opened LoaderErrors

  /** COFF_SYMBOL_NAME_MAX_LENGTH: the length at which a long name is checked for printable bytes. */
  const COFF_SYMBOL_NAME_MAX_LENGTH: nat := 256

  datatype CoffSymbol = CoffSymbol(
    Index: u32,
    Name: seq<u8>,
    Value: u32,
    SectionNumber: u16,
    TypeComplex: u8,
    TypeSimple: u8,
    StorageClass: u8,
    NumberOfAuxSymbols: u8)

  /** isprint in the C locale. */
  predicate Printable(c: u8)
  {
    0x20 <= c < 0x7F
  }

  predicate AllPrintable(s: seq<u8>)
  {
    forall i :: 0 <= i < |s| ==> Printable(s[i])
  }

  // ---------------------------------------------------------------------
  // Names

  /**
   * The bytes of the string table from `from` up to the first NUL or the
   * recorded table size. A byte past the end of the table buffer, which the
   * source would read out of bounds, ends the run like a NUL.
   */
  function RunFrom(table: seq<u8>, tableSize: nat, from: nat): (r: seq<u8>)
    ensures NoNul(r) && (from + |r| <= tableSize || r == [])
  {
    if from < tableSize then
      var r := StringAt(table, from, tableSize - from);
      assert |r| <= tableSize - from;
      r
    else []
  }

  /**
   * The run from `from` is the bytes of the table from there on, none of
   * them NUL and all inside the recorded size, and it stops at the recorded
   * size, the end of the buffer or a NUL.
   */
  lemma RunShape(table: seq<u8>, tableSize: nat, from: nat)
    ensures var run := RunFrom(table, tableSize, from);
      (forall k :: 0 <= k < |run| ==> from + k < tableSize && run[k] == ByteAt(table, from + k) != 0) &&
      (from + |run| >= tableSize || ByteAt(table, from + |run|) == 0)
  {
    if from < tableSize {
      var run := StringAt(table, from, tableSize - from);
      assert run == RunFrom(table, tableSize, from);
      if run != [] {
        assert run == table[from..from + |run|];
        forall k | 0 <= k < |run|
          ensures from + k < tableSize && run[k] == ByteAt(table, from + k) != 0
        {
          assert run[k] == table[from + k];
        }
      }
      var e := from + |run|;
      if e < tableSize && e < |table| {
        assert table[e] == 0;
        assert ByteAt(table, e) == 0;
      }
    }
  }

  /**
   * A long name: the run from NameOffset, cut to its first 256 bytes when it
   * is longer and those are not all printable.
   */
  function LongName(table: seq<u8>, tableSize: nat, nameOffset: nat): (r: seq<u8>)
    ensures NoNul(r)
    ensures var run := RunFrom(table, tableSize, nameOffset);
      |r| <= |run| && r == run[..|r|]
    ensures r != RunFrom(table, tableSize, nameOffset) ==>
      |r| == COFF_SYMBOL_NAME_MAX_LENGTH && !AllPrintable(r)
    ensures |r| > COFF_SYMBOL_NAME_MAX_LENGTH ==> AllPrintable(r[..COFF_SYMBOL_NAME_MAX_LENGTH])
  {
    var run := RunFrom(table, tableSize, nameOffset);
    if |run| > COFF_SYMBOL_NAME_MAX_LENGTH && !AllPrintable(run[..COFF_SYMBOL_NAME_MAX_LENGTH])
    then run[..COFF_SYMBOL_NAME_MAX_LENGTH]
    else run
  }

  /** A name that reached 256 bytes of a longer run without being all printable is the cut long name. */
  lemma LongNameCut(table: seq<u8>, tableSize: nat, nameOffset: nat, name: seq<u8>)
    requires var run := RunFrom(table, tableSize, nameOffset);
      |name| == COFF_SYMBOL_NAME_MAX_LENGTH < |run| && name == run[..|name|] && !AllPrintable(name)
    ensures name == LongName(table, tableSize, nameOffset)
  {
  }

  /** A run that is not cut is the long name itself. */
  lemma LongNameWhole(table: seq<u8>, tableSize: nat, nameOffset: nat)
    requires var run := RunFrom(table, tableSize, nameOffset);
      |run| > COFF_SYMBOL_NAME_MAX_LENGTH ==> AllPrintable(run[..COFF_SYMBOL_NAME_MAX_LENGTH])
    ensures LongName(table, tableSize, nameOffset) == RunFrom(table, tableSize, nameOffset)
  {
  }

  /** Once the name has 256 bytes, all printable, the first 256 bytes of the run are printable. */
  lemma PrintablePrefixKept(run: seq<u8>, name: seq<u8>)
    requires |name| <= |run| && name == run[..|name|] && |name| >= COFF_SYMBOL_NAME_MAX_LENGTH
    requires |name| == COFF_SYMBOL_NAME_MAX_LENGTH ==> AllPrintable(name)
    requires |name| > COFF_SYMBOL_NAME_MAX_LENGTH ==> AllPrintable(run[..COFF_SYMBOL_NAME_MAX_LENGTH])
    ensures AllPrintable(run[..COFF_SYMBOL_NAME_MAX_LENGTH])
  {
    if |name| == COFF_SYMBOL_NAME_MAX_LENGTH {
      assert run[..COFF_SYMBOL_NAME_MAX_LENGTH] == name;
    }
  }

  /** The long-name loop: bytes are appended until a NUL or the table size, with the printable check at 256 bytes. */
  method ReadLongName(table: seq<u8>, tableSize: nat, nameOffset: nat) returns (name: seq<u8>)
    ensures name == LongName(table, tableSize, nameOffset)
  {
    ghost var run := RunFrom(table, tableSize, nameOffset);
    RunShape(table, tableSize, nameOffset);
    name := [];
    var j := nameOffset;
    while j < tableSize && ByteAt(table, j) != 0
      invariant nameOffset <= j <= nameOffset + |run| && name == run[..j - nameOffset]
      invariant |name| > COFF_SYMBOL_NAME_MAX_LENGTH ==> AllPrintable(run[..COFF_SYMBOL_NAME_MAX_LENGTH])
      decreases tableSize - j
    {
      if j - nameOffset == COFF_SYMBOL_NAME_MAX_LENGTH && !AllPrintable(name) {
        LongNameCut(table, tableSize, nameOffset, name);
        return;
      }
      if |name| >= COFF_SYMBOL_NAME_MAX_LENGTH {
        PrintablePrefixKept(run, name);
      }
      assert run[..j + 1 - nameOffset] == name + [ByteAt(table, j)];
      name := name + [ByteAt(table, j)];
      j := j + 1;
    }
    assert name == run;
    LongNameWhole(table, tableSize, nameOffset);
  }

  /** The short-name loop: at most eight bytes of the record, up to the first NUL. */
  method ReadShortName(dump: seq<u8>, at: nat) returns (name: seq<u8>)
    requires at + 8 <= |dump|
    ensures name == CString(dump[at..at + 8])
  {
    name := [];
    var j := at;
    var k := 0;
    while k < 8 && dump[j] != 0
      invariant k <= 8 && j == at + k
      invariant name == dump[at..j] && NoNul(name)
    {
      name := name + [dump[j]];
      j := j + 1;
      k := k + 1;
    }
    CStringUnique(dump[at..at + 8], name);
  }

  // ---------------------------------------------------------------------
  // The symbol walker

  /** The 18-byte record in slot `i` of the table copy. */
  function RecordAt(dump: seq<u8>, i: nat): (rec: seq<u8>)
    requires COFF_SYMBOL_SIZE * i + COFF_SYMBOL_SIZE <= |dump|
    ensures |rec| == COFF_SYMBOL_SIZE
  {
    dump[COFF_SYMBOL_SIZE * i..COFF_SYMBOL_SIZE * i + COFF_SYMBOL_SIZE]
  }

  /**
   * A symbol from its record: a non-zero first word means an inline name of
   * at most eight bytes; a zero one means a name in the string table at
   * NameOffset, or none when the table or the offset is empty.
   */
  function DecodeSymbol(rec: seq<u8>, table: seq<u8>, tableSize: nat, index: nat): (s: CoffSymbol)
    requires |rec| == COFF_SYMBOL_SIZE
    ensures index < TWO_32 ==> s.Index == index
    ensures s.NumberOfAuxSymbols == rec[17]
    ensures U32At(rec, 0) != 0 ==> s.Name == CString(rec[..8]) && |s.Name| <= 8
    ensures U32At(rec, 0) == 0 && tableSize != 0 && U32At(rec, 4) != 0 ==>
      s.Name == LongName(table, tableSize, U32At(rec, 4))
    ensures NoNul(s.Name)
  {
    var zeroes := U32At(rec, 0);
    var nameOffset := U32At(rec, 4);
    var name :=
      if zeroes != 0 then CString(rec[..8])
      else if tableSize != 0 && nameOffset != 0 then LongName(table, tableSize, nameOffset)
      else [];
    CoffSymbol(Trunc32(index), name, U32At(rec, 8), U16At(rec, 12), rec[14], rec[15], rec[16], rec[17])
  }

  function SymbolAt(dump: seq<u8>, table: seq<u8>, tableSize: nat, i: nat): (s: CoffSymbol)
    requires COFF_SYMBOL_SIZE * i + COFF_SYMBOL_SIZE <= |dump|
    ensures s.NumberOfAuxSymbols == dump[COFF_SYMBOL_SIZE * i + 17]
  {
    var rec := RecordAt(dump, i);
    assert rec[17] == dump[COFF_SYMBOL_SIZE * i + 17];
    DecodeSymbol(rec, table, tableSize, i)
  }

  /** read(inputbuffer, size) on one slot: the record's fields and its name. */
  method ReadSymbol(dump: seq<u8>, table: seq<u8>, tableSize: nat, i: nat) returns (s: CoffSymbol)
    requires COFF_SYMBOL_SIZE * i + COFF_SYMBOL_SIZE <= |dump|
    ensures s == SymbolAt(dump, table, tableSize, i)
  {
    var at := COFF_SYMBOL_SIZE * i;
    var rec := dump[at..at + COFF_SYMBOL_SIZE];
    var zeroes := U32At(rec, 0);
    var nameOffset := U32At(rec, 4);
    var name: seq<u8> := [];
    if zeroes == 0 {
      if tableSize != 0 && nameOffset != 0 {
        name := ReadLongName(table, tableSize, nameOffset);
      }
    } else {
      name := ReadShortName(dump, at);
      assert rec[..8] == dump[at..at + 8];
    }
    s := CoffSymbol(Trunc32(i), name, U32At(rec, 8), U16At(rec, 12), rec[14], rec[15], rec[16], rec[17]);
  }

  /** The slots the walker visits from slot `i` of `e`: each one past the previous record's auxiliary slots. */
  function Slots(dump: seq<u8>, i: nat, e: nat): (r: seq<nat>)
    requires COFF_SYMBOL_SIZE * e <= |dump|
    ensures forall k :: 0 <= k < |r| ==> i <= r[k] < e
    ensures |r| <= e - i || r == []
    decreases e - i
  {
    if i >= e then []
    else [i] + Slots(dump, i + dump[COFF_SYMBOL_SIZE * i + 17] as nat + 1, e)
  }

  /**
   * The visited slots start at `i`, and each next slot skips the previous
   * record's NumberOfAuxSymbols slots.
   */
  lemma {:induction false} SlotsSkipAux(dump: seq<u8>, i: nat, e: nat, k: nat)
    requires COFF_SYMBOL_SIZE * e <= |dump| && k < |Slots(dump, i, e)|
    ensures Slots(dump, i, e)[0] == i
    ensures k + 1 < |Slots(dump, i, e)| ==>
      Slots(dump, i, e)[k + 1] == Slots(dump, i, e)[k] + dump[COFF_SYMBOL_SIZE * Slots(dump, i, e)[k] + 17] as nat + 1
    decreases k
  {
    if k > 0 {
      var next := i + dump[COFF_SYMBOL_SIZE * i + 17] as nat + 1;
      SlotsSkipAux(dump, next, e, k - 1);
      assert Slots(dump, i, e)[1..] == Slots(dump, next, e);
    }
  }

  /** The symbols read(inputbuffer, size) stores: the record in each visited slot of the `e` slots. */
  function Symbols(dump: seq<u8>, table: seq<u8>, tableSize: nat, e: nat): (r: seq<CoffSymbol>)
    requires COFF_SYMBOL_SIZE * e <= |dump|
    ensures |r| == |Slots(dump, 0, e)| && |r| <= e
    ensures forall k :: 0 <= k < |r| ==> r[k] == SymbolAt(dump, table, tableSize, Slots(dump, 0, e)[k])
  {
    var slots := Slots(dump, 0, e);
    seq(|slots|, k requires 0 <= k < |slots| => SymbolAt(dump, table, tableSize, slots[k]))
  }

  /** A stored symbol's Index is the slot its record was read from. */
  lemma SymbolIndexIsSlot(dump: seq<u8>, table: seq<u8>, tableSize: nat, e: nat, k: nat)
    requires COFF_SYMBOL_SIZE * e <= |dump| && e < TWO_32 && k < |Symbols(dump, table, tableSize, e)|
    ensures Symbols(dump, table, tableSize, e)[k].Index == Slots(dump, 0, e)[k]
  {
    var slot := Slots(dump, 0, e)[k];
    assert SymbolAt(dump, table, tableSize, slot) == DecodeSymbol(RecordAt(dump, slot), table, tableSize, slot);
  }

  /** The walker's next slot: the one in hand is the next visited, and the rest follow from past its auxiliary slots. */
  lemma SlotsAdvance(dump: seq<u8>, i: nat, e: nat, slots: seq<nat>, n: nat)
    requires COFF_SYMBOL_SIZE * e <= |dump| && i < e
    requires n <= |slots| && Slots(dump, i, e) == slots[n..]
    ensures n < |slots| && slots[n] == i
    ensures Slots(dump, i + dump[COFF_SYMBOL_SIZE * i + 17] as nat + 1, e) == slots[n + 1..]
  {
    assert slots[n..][1..] == slots[n + 1..];
  }

  /** `found` holds the symbols of the first |found| visited slots. */
  predicate SymbolsRead(dump: seq<u8>, table: seq<u8>, tableSize: nat, slots: seq<nat>, found: seq<CoffSymbol>)
    requires forall k :: 0 <= k < |slots| ==> COFF_SYMBOL_SIZE * slots[k] + COFF_SYMBOL_SIZE <= |dump|
  {
    |found| <= |slots| && forall k {:trigger found[k]} :: 0 <= k < |found| ==> found[k] == SymbolAt(dump, table, tableSize, slots[k])
  }

  lemma SymbolsReadAppend(dump: seq<u8>, table: seq<u8>, tableSize: nat, slots: seq<nat>, found: seq<CoffSymbol>, s: CoffSymbol)
    requires forall k :: 0 <= k < |slots| ==> COFF_SYMBOL_SIZE * slots[k] + COFF_SYMBOL_SIZE <= |dump|
    requires SymbolsRead(dump, table, tableSize, slots, found) && |found| < |slots|
    requires s == SymbolAt(dump, table, tableSize, slots[|found|])
    ensures SymbolsRead(dump, table, tableSize, slots, found + [s])
  {
    var f := found + [s];
    forall k | 0 <= k < |f|
      ensures f[k] == SymbolAt(dump, table, tableSize, slots[k])
    {
      if k < |found| {
        assert f[k] == found[k];
      }
    }
  }

  lemma SymbolsReadAll(dump: seq<u8>, table: seq<u8>, tableSize: nat, e: nat, found: seq<CoffSymbol>)
    requires COFF_SYMBOL_SIZE * e <= |dump|
    requires SymbolsRead(dump, table, tableSize, Slots(dump, 0, e), found) && |found| == |Slots(dump, 0, e)|
    ensures found == Symbols(dump, table, tableSize, e)
  {
  }

  /** One pass of the walker's loop: the symbol in the next visited slot `i`, appended to those read. */
  method ReadNextSymbol(dump: seq<u8>, table: seq<u8>, tableSize: nat, ghost slots: seq<nat>, found: seq<CoffSymbol>, i: nat)
    returns (found': seq<CoffSymbol>, aux: nat)
    requires forall k :: 0 <= k < |slots| ==> COFF_SYMBOL_SIZE * slots[k] + COFF_SYMBOL_SIZE <= |dump|
    requires SymbolsRead(dump, table, tableSize, slots, found) && |found| < |slots| && slots[|found|] == i
    ensures SymbolsRead(dump, table, tableSize, slots, found') && |found'| == |found| + 1
    ensures aux == dump[COFF_SYMBOL_SIZE * i + 17] as nat
  {
    var s := ReadSymbol(dump, table, tableSize, i);
    SymbolsReadAppend(dump, table, tableSize, slots, found, s);
    found' := found + [s];
    aux := s.NumberOfAuxSymbols as nat;
  }

  /** The walker's loop: slot by slot over the first `e` slots, skipping auxiliary records. */
  method WalkSlots(dump: seq<u8>, table: seq<u8>, tableSize: nat, e: nat) returns (found: seq<CoffSymbol>)
    requires COFF_SYMBOL_SIZE * e <= |dump|
    ensures SymbolsRead(dump, table, tableSize, Slots(dump, 0, e), found) && |found| == |Slots(dump, 0, e)|
  {
    ghost var slots := Slots(dump, 0, e);
    found := [];
    var i := 0;
    while i < e
      invariant |found| <= |slots| && Slots(dump, i, e) == slots[|found|..]
      invariant SymbolsRead(dump, table, tableSize, slots, found)
      decreases e - i
    {
      SlotsAdvance(dump, i, e, slots, |found|);
      var aux;
      found, aux := ReadNextSymbol(dump, table, tableSize, slots, found, i);
      i := i + aux + 1;
    }
  }

  /** read(inputbuffer, size)'s walk over size / 18 slots. */
  method WalkSymbols(dump: seq<u8>, table: seq<u8>, tableSize: nat, uiSize: u32) returns (found: seq<CoffSymbol>)
    requires uiSize as int <= |dump|
    ensures found == Symbols(dump, table, tableSize, uiSize as nat / COFF_SYMBOL_SIZE)
  {
    var e := uiSize as nat / COFF_SYMBOL_SIZE;
    found := WalkSlots(dump, table, tableSize, e);
    SymbolsReadAll(dump, table, tableSize, e, found);
  }

  // ---------------------------------------------------------------------
  // The string table

  /** memcpy of four bytes into the low half of a 64-bit size_t, on a little-endian machine. */
  function LowReplaced(old64: nat, low: u32): (r: nat)
    ensures r % TWO_32 == low && r / TWO_32 == old64 / TWO_32
    ensures old64 < TWO_32 ==> r == low
  {
    (old64 / TWO_32) * TWO_32 + low
  }

  /** Four bytes at `at`, with bytes past the end of the file read as zero. */
  function U32Padded(s: seq<u8>, at: nat): (r: u32)
    ensures at + 4 <= |s| ==> r == U32At(s, at)
  {
    var b := (if at <= |s| then s[at..] else []) + [0, 0, 0, 0];
    assert at + 4 <= |s| ==> b[..4] == s[at..at + 4];
    if at + 4 <= |s| then U32At(s, at) else U32At(b, 0)
  }

  /**
   * The bytes the size copy of read's second step takes when fewer than
   * four bytes follow the string-table offset `sto` of a file of `fileSize`
   * bytes; as written it always copies four, from `sto` to `sto + 4`.
   */
  function SizeCopyEndAsWritten(fileSize: nat, sto: nat): (end: nat)
    requires sto < fileSize < sto + 4
  {
    sto + 4
  }

  /**
   * That step is reached, from the string-table offset itself, exactly when
   * one to three bytes follow it; the four-byte copy then ends past the file.
   */
  lemma SizeCopyAsWrittenOverreads(fileData: seq<u8>, sto: nat)
    requires sto < |fileData| < sto + 4
    ensures var start := if |fileData| >= sto + 4 then sto + 4 else sto;
      start == sto && |fileData| > start && |fileData| - start < 4
    ensures SizeCopyEndAsWritten(|fileData|, sto) > |fileData|
  {
  }

  /** A file of ten bytes whose string table would start at offset 8: the copy reads bytes 10 and 11. */
  lemma SizeCopyAsWrittenSample()
    ensures SizeCopyEndAsWritten(10, 8) == 12
  {
  }

  /**
   * The corrected copy reads only the bytes the file still holds: the word
   * has the remaining bytes at the bottom and zeros above them.
   */
  lemma {:induction false} U32PaddedPartial(s: seq<u8>, at: nat)
    requires at < |s| < at + 4
    ensures U32Padded(s, at) % 0x100 == s[at]
    ensures |s| - at == 1 ==> U32Padded(s, at) == s[at] as int
    ensures |s| - at == 2 ==> U32Padded(s, at) == s[at] as int + 0x100 * s[at + 1] as int
    ensures |s| - at == 3 ==> U32Padded(s, at) == s[at] as int + 0x100 * s[at + 1] as int + 0x1_0000 * s[at + 2] as int
  {
    var b := s[at..] + [0, 0, 0, 0];
    assert U32Padded(s, at) == U32At(b, 0);
    assert b[0] == s[at];
    if |s| - at >= 2 { assert b[1] == s[at + 1]; } else { assert b[1] == 0; }
    if |s| - at == 3 { assert b[2] == s[at + 2]; } else { assert b[2] == 0; }
    assert b[3] == 0;
  }

  datatype StringTable = StringTable(size: nat, bytes: seq<u8>, start: nat)

  /**
   * read's string-table steps, from the file and the member values left by
   * the previous read: the size field (when it fits) is copied into the low
   * half of the size and becomes the first four table bytes; the size is
   * then adjusted to the rest of the file, and the bytes after the field are
   * copied in when the size exceeds four. `start` is where those bytes begin.
   */
  function StringTablePhase(fileData: seq<u8>, sto: nat, oldSize: nat, oldTable: seq<u8>): (st: StringTable)
    requires sto < |fileData|
    ensures st.start <= |fileData| && st.size <= |fileData| - st.start + 4
    ensures st.size > 4 ==>
      |st.bytes| == st.size && st.bytes[4..] == fileData[st.start..st.start + st.size - 4]
  {
    var fs := |fileData|;
    var hasField := fs >= sto + 4;
    var size1 := if hasField then LowReplaced(oldSize, U32At(fileData, sto)) else oldSize;
    var table1 := if hasField then fileData[sto..sto + 4] else oldTable;
    var start := if hasField then sto + 4 else sto;
    var size2 :=
      if fs > start && fs - start < 4 then LowReplaced(size1, U32Padded(fileData, sto))
      else if fs > start && fs - start == 4 && size1 < 4 then 4
      else size1;
    var size3 := if size2 > fs || start + size2 > fs then fs - start + 4 else size2;
    var head := if |table1| >= 4 then table1[..4] else table1 + seq(4 - |table1|, _ => 0);
    var table2 := if size3 > 4 then head + fileData[start..start + size3 - 4] else table1;
    StringTable(size3, table2, start)
  }

  /**
   * With a whole size field after the symbol table and a size below 2^32
   * left by the previous read, the size is the field's value when the file
   * holds four more bytes than it, and otherwise the rest of the file; the
   * table is then the file's bytes from the field on.
   */
  lemma StringTableFromField(fileData: seq<u8>, sto: nat, oldSize: nat, oldTable: seq<u8>)
    requires sto < |fileData| && sto + 4 <= |fileData| && oldSize < TWO_32
    requires U32At(fileData, sto) >= 4
    ensures var st := StringTablePhase(fileData, sto, oldSize, oldTable);
      var v := U32At(fileData, sto);
      st.start == sto + 4 &&
      st.size == (if sto + 4 + v <= |fileData| then v as nat else |fileData| - sto) &&
      (st.size > 4 ==> st.bytes == fileData[sto..sto + st.size])
  {
    var st := StringTablePhase(fileData, sto, oldSize, oldTable);
    if st.size > 4 {
      assert st.bytes[..4] == fileData[sto..sto + 4];
      assert st.bytes == st.bytes[..4] + st.bytes[4..];
      assert fileData[sto..sto + st.size] == fileData[sto..sto + 4] + fileData[sto + 4..sto + st.size];
    }
  }

  class CoffSymbolTable {
    var stringTableSize: nat
    var numberOfStoredSymbols: u32
    var stringTable: seq<u8>
    var symbolTableDump: seq<u8>
    var symbolTable: seq<CoffSymbol>
    var ldrError: LoaderError

    constructor ()
      ensures stringTableSize == 0 && numberOfStoredSymbols == 0 && stringTable == []
      ensures symbolTableDump == [] && symbolTable == [] && ldrError == LDR_ERROR_NONE
    {
      stringTableSize := 0;
      numberOfStoredSymbols := 0;
      stringTable := [];
      symbolTableDump := [];
      symbolTable := [];
      ldrError := LDR_ERROR_NONE;
    }

    /**
     * read(fileData, offset, size): a wrapping range, or a table or string
     * table starting at or past the end of the file, is refused with nothing
     * changed. Otherwise the table is copied, the string table set up, and
     * the symbols walked (over the size truncated to unsigned int) are
     * appended to those already held.
     */
    method Read(fileData: seq<u8>, uiOffset: u64, uiSize: u64) returns (r: int)
      requires |fileData| < TWO_64
      modifies this
      ensures r == ERROR_NONE || r == ERROR_INVALID_FILE
      ensures r == ERROR_INVALID_FILE <==>
        uiOffset + uiSize >= TWO_64 || uiOffset as int >= |fileData| || uiOffset + uiSize >= |fileData|
      ensures r == ERROR_INVALID_FILE ==>
        stringTableSize == old(stringTableSize) && stringTable == old(stringTable) &&
        symbolTableDump == old(symbolTableDump) && symbolTable == old(symbolTable) &&
        numberOfStoredSymbols == old(numberOfStoredSymbols)
      ensures r == ERROR_NONE ==>
        var st := StringTablePhase(fileData, uiOffset + uiSize, old(stringTableSize), old(stringTable));
        symbolTableDump == fileData[uiOffset..uiOffset + uiSize] &&
        stringTableSize == st.size && stringTable == st.bytes &&
        symbolTable == old(symbolTable) +
          Symbols(symbolTableDump, stringTable, stringTableSize, Trunc32(uiSize) / COFF_SYMBOL_SIZE) &&
        numberOfStoredSymbols == Trunc32(|symbolTable|)
      ensures ldrError == old(ldrError)
    {
      if uiOffset + uiSize >= TWO_64 {
        return ERROR_INVALID_FILE;
      }
      var fileSize := |fileData|;
      var stringTableOffset := uiOffset + uiSize;
      if uiOffset as int >= fileSize || stringTableOffset >= fileSize {
        return ERROR_INVALID_FILE;
      }
      symbolTableDump := fileData[uiOffset..stringTableOffset];
      var st := StringTablePhase(fileData, stringTableOffset, stringTableSize, stringTable);
      stringTableSize := st.size;
      stringTable := st.bytes;
      var found := WalkSymbols(symbolTableDump, stringTable, stringTableSize, Trunc32(uiSize));
      symbolTable := symbolTable + found;
      numberOfStoredSymbols := Trunc32(|symbolTable|);
      r := ERROR_NONE;
    }

    /** setLoaderError: the first error reported is kept. */
    method SetLoaderError(error: LoaderError)
      modifies this`ldrError
      ensures ldrError == KeepFirst(old(ldrError), error)
    {
      if ldrError == LDR_ERROR_NONE {
        ldrError := error;
      }
    }
  }
}
