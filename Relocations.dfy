// RelocationsDirectory: the base relocation table, a run of blocks each made
// of an 8-byte header (page RVA, block size) and 16-bit type-and-offset
// entries (section 6.6 of the Microsoft PE/COFF Specification).
module Relocations {
  import opened Bytes
  import opened PeAux
  import opened LoaderErrors
  import opened ImageLoader

  const REL_BASED_ABSOLUTE: nat := 0
  const REL_BASED_HIGH: nat := 1
  const REL_BASED_LOW: nat := 2
  const REL_BASED_HIGHLOW: nat := 3
  const REL_BASED_HIGHADJ: nat := 4
  const REL_BASED_MIPS_JMPADDR: nat := 5
  const REL_BASED_IA64_IMM64: nat := 9
  const REL_BASED_DIR64: nat := 10

  /** IMG_BASE_RELOC: a block's header fields and the entries stored for it. */
  datatype BaseRelocation = BaseRelocation(VirtualAddress: u32, SizeOfBlock: u32, RelocData: seq<u16>)

  /** The type an entry carries in its top four bits. */
  function EntryType(typeAndOffset: u16): (r: nat)
    ensures r < 16
  {
    typeAndOffset / 0x1000
  }

  /** The types the parser accepts without a loader error. */
  predicate KnownType(t: nat)
  {
    t == REL_BASED_ABSOLUTE || t == REL_BASED_HIGH || t == REL_BASED_LOW || t == REL_BASED_HIGHLOW ||
    t == REL_BASED_HIGHADJ || t == REL_BASED_MIPS_JMPADDR || t == REL_BASED_IA64_IMM64 || t == REL_BASED_DIR64
  }

  /** The getDataDirRva/Size check of read(): the directory must lie inside the image, with its end computed in 32 bits. */
  function RelocationsOutOfImage(rva: u32, size: u32, sizeOfImage: u32): (r: bool)
    ensures r <==> !(rva < sizeOfImage && rva + size <= sizeOfImage)
  {
    rva >= sizeOfImage || Add32(rva, size) < rva || Add32(rva, size) > sizeOfImage
  }

  // ---------------------------------------------------------------------
  // Parsing, as the entries are laid out: slot i of a block is the word at
  // base + 2i, and a HIGHADJ entry takes the slot after it as its parameter.
  // ---------------------------------------------------------------------

  /** The entries of one block, the loader errors they report, and where the cursor stops. */
  datatype EntryRun = EntryRun(entries: seq<u16>, reports: seq<LoaderError>, end: nat)

  /** The block's slots from `i` on, of `n`, stopping at the end of the directory. */
  function EntriesFrom(dir: seq<u8>, base: nat, i: nat, n: nat): (r: EntryRun)
    ensures base + 2 * i <= r.end
    ensures |r.entries| <= n - i || r.entries == []
    decreases n - i
  {
    if i >= n || base + 2 * i + 2 > |dir| then EntryRun([], [], base + 2 * i)
    else
      var t := U16At(dir, base + 2 * i);
      var rest := EntriesFrom(dir, base, if EntryType(t) == REL_BASED_HIGHADJ then i + 2 else i + 1, n);
      EntryRun([t] + rest.entries, (if KnownType(EntryType(t)) then [] else [LDR_ERROR_RELOC_ENTRY_BAD_TYPE]) + rest.reports, rest.end)
  }

  /** One turn of the entry loop, with the entry read and the next slot named. */
  lemma EntriesStep(dir: seq<u8>, base: nat, i: nat, n: nat, t: u16, next: nat)
    requires i < n && base + 2 * i + 2 <= |dir| && t == U16At(dir, base + 2 * i)
    requires next == if EntryType(t) == REL_BASED_HIGHADJ then i + 2 else i + 1
    ensures var rest := EntriesFrom(dir, base, next, n);
      EntriesFrom(dir, base, i, n) ==
        EntryRun([t] + rest.entries, (if KnownType(EntryType(t)) then [] else [LDR_ERROR_RELOC_ENTRY_BAD_TYPE]) + rest.reports, rest.end)
  {
  }

  /** The blocks parsed from `p` on and the loader errors reported, in order. */
  datatype BlockRun = BlockRun(blocks: seq<BaseRelocation>, reports: seq<LoaderError>)

  /**
   * read(data, uiSize, sizeOfImage) from the header at `p`: another header is
   * read only while it ends strictly before the directory does; a block whose
   * page lies past the image or which runs past the directory ends the parse
   * with its loader error; a block smaller than its header is stepped over and
   * not stored.
   */
  function Blocks(dir: seq<u8>, sizeOfImage: u32, p: nat): (r: BlockRun)
    decreases |dir| - p, 1
  {
    if p + SIZEOF_BASE_RELOCATION >= |dir| then BlockRun([], [])
    else BlocksAt(dir, sizeOfImage, p, U32At(dir, p), U32At(dir, p + 4))
  }

  /** The parse from a header at `p` whose page and size are `va` and `sz`. */
  function BlocksAt(dir: seq<u8>, sizeOfImage: u32, p: nat, va: u32, sz: u32): (r: BlockRun)
    decreases |dir| - p, 0
  {
    if va > sizeOfImage then BlockRun([], [LDR_ERROR_RELOC_BLOCK_INVALID_VA])
    else if p + sz > |dir| then BlockRun([], [LDR_ERROR_RELOC_BLOCK_INVALID_LENGTH])
    else if sz < SIZEOF_BASE_RELOCATION then Blocks(dir, sizeOfImage, p + SIZEOF_BASE_RELOCATION)
    else
      var run := EntriesFrom(dir, p + SIZEOF_BASE_RELOCATION, 0, (sz - SIZEOF_BASE_RELOCATION) / 2);
      var rest := Blocks(dir, sizeOfImage, run.end);
      BlockRun([BaseRelocation(va, sz, run.entries)] + rest.blocks, run.reports + rest.reports)
  }

  /** The number of stored entries whose type is not one the parser knows. */
  function BadTypes(entries: seq<u16>): nat
  {
    if entries == [] then 0
    else (if KnownType(EntryType(entries[0])) then 0 else 1) + BadTypes(entries[1..])
  }

  /**
   * An entry of an unknown type is still stored: every one of them reports
   * RELOC_ENTRY_BAD_TYPE once, and nothing else is reported for entries.
   */
  lemma {:induction false} EntryReportsAreBadTypes(dir: seq<u8>, base: nat, i: nat, n: nat)
    ensures var r := EntriesFrom(dir, base, i, n);
      |r.reports| == BadTypes(r.entries) && forall k :: 0 <= k < |r.reports| ==> r.reports[k] == LDR_ERROR_RELOC_ENTRY_BAD_TYPE
    decreases n - i
  {
    if !(i >= n || base + 2 * i + 2 > |dir|) {
      var t := U16At(dir, base + 2 * i);
      var j := if EntryType(t) == REL_BASED_HIGHADJ then i + 2 else i + 1;
      EntryReportsAreBadTypes(dir, base, j, n);
      var r := EntriesFrom(dir, base, i, n);
      assert r.entries[1..] == EntriesFrom(dir, base, j, n).entries;
    }
  }

  /** No stored entry is a HIGHADJ one. */
  predicate NoHighAdj(entries: seq<u16>)
  {
    forall k :: 0 <= k < |entries| ==> EntryType(entries[k]) != REL_BASED_HIGHADJ
  }

  /**
   * Without HIGHADJ entries a block's entries are exactly its words, one per
   * slot, up to the block's slot count or the end of the directory.
   */
  lemma {:induction false} EntriesAreSlots(dir: seq<u8>, base: nat, i: nat, n: nat)
    requires base + 2 * i <= |dir|
    requires NoHighAdj(EntriesFrom(dir, base, i, n).entries)
    ensures var r := EntriesFrom(dir, base, i, n); var m := |r.entries|;
      r.end == base + 2 * (i + m) && base + 2 * (i + m) <= |dir| &&
      (i + m >= n || base + 2 * (i + m) + 2 > |dir|) &&
      forall k :: 0 <= k < m ==> r.entries[k] == U16At(dir, base + 2 * (i + k))
    decreases n - i
  {
    if !(i >= n || base + 2 * i + 2 > |dir|) {
      var t := U16At(dir, base + 2 * i);
      var r := EntriesFrom(dir, base, i, n);
      assert r.entries[0] == t;
      var rest := EntriesFrom(dir, base, i + 1, n);
      assert r.entries[1..] == rest.entries;
      assert NoHighAdj(rest.entries) by {
        forall k | 0 <= k < |rest.entries| ensures EntryType(rest.entries[k]) != REL_BASED_HIGHADJ {
          assert rest.entries[k] == r.entries[k + 1];
        }
      }
      EntriesAreSlots(dir, base, i + 1, n);
    }
  }

  /** A stored block's page lies inside the image and its size covers its header and entries. */
  predicate WellFormedBlock(b: BaseRelocation, sizeOfImage: u32)
  {
    b.VirtualAddress <= sizeOfImage && b.SizeOfBlock >= SIZEOF_BASE_RELOCATION &&
    |b.RelocData| <= (b.SizeOfBlock - SIZEOF_BASE_RELOCATION) / 2
  }

  /**
   * Every stored block is well formed, and only the last report can be about
   * a block header: a bad header ends the parse.
   */
  lemma {:induction false} BlocksWellFormed(dir: seq<u8>, sizeOfImage: u32, p: nat)
    ensures ReportsEndParse(Blocks(dir, sizeOfImage, p), sizeOfImage)
    decreases |dir| - p, 1
  {
    if p + SIZEOF_BASE_RELOCATION < |dir| {
      BlocksAtWellFormed(dir, sizeOfImage, p, U32At(dir, p), U32At(dir, p + 4));
    }
  }

  /** Every stored block is well formed, and only the last report can be about a block header. */
  predicate ReportsEndParse(r: BlockRun, sizeOfImage: u32)
  {
    (forall k :: 0 <= k < |r.blocks| ==> WellFormedBlock(r.blocks[k], sizeOfImage)) &&
    (forall k :: 0 <= k < |r.reports| - 1 ==> r.reports[k] == LDR_ERROR_RELOC_ENTRY_BAD_TYPE) &&
    (forall k :: 0 <= k < |r.reports| ==> r.reports[k] in {LDR_ERROR_RELOC_ENTRY_BAD_TYPE, LDR_ERROR_RELOC_BLOCK_INVALID_VA, LDR_ERROR_RELOC_BLOCK_INVALID_LENGTH})
  }

  /** A well-formed block with only entry-type reports, in front of a run that ends the parse properly, still does. */
  lemma ReportsEndParseCons(b: BaseRelocation, reports: seq<LoaderError>, rest: BlockRun, sizeOfImage: u32)
    requires WellFormedBlock(b, sizeOfImage) && ReportsEndParse(rest, sizeOfImage)
    requires forall k :: 0 <= k < |reports| ==> reports[k] == LDR_ERROR_RELOC_ENTRY_BAD_TYPE
    ensures ReportsEndParse(BlockRun([b] + rest.blocks, reports + rest.reports), sizeOfImage)
  {
    var r := BlockRun([b] + rest.blocks, reports + rest.reports);
    forall k | 0 <= k < |r.blocks| ensures WellFormedBlock(r.blocks[k], sizeOfImage) {
      if k > 0 { assert r.blocks[k] == rest.blocks[k - 1]; }
    }
    forall k | 0 <= k < |r.reports|
      ensures r.reports[k] in {LDR_ERROR_RELOC_ENTRY_BAD_TYPE, LDR_ERROR_RELOC_BLOCK_INVALID_VA, LDR_ERROR_RELOC_BLOCK_INVALID_LENGTH}
      ensures k < |r.reports| - 1 ==> r.reports[k] == LDR_ERROR_RELOC_ENTRY_BAD_TYPE
    {
      if k >= |reports| { assert r.reports[k] == rest.reports[k - |reports|]; }
    }
  }

  lemma {:induction false} BlocksAtWellFormed(dir: seq<u8>, sizeOfImage: u32, p: nat, va: u32, sz: u32)
    ensures ReportsEndParse(BlocksAt(dir, sizeOfImage, p, va, sz), sizeOfImage)
    decreases |dir| - p, 0
  {
    if va <= sizeOfImage && p + sz <= |dir| {
      if sz < SIZEOF_BASE_RELOCATION {
        BlocksWellFormed(dir, sizeOfImage, p + SIZEOF_BASE_RELOCATION);
      } else {
        var n := (sz - SIZEOF_BASE_RELOCATION) / 2;
        var run := EntriesFrom(dir, p + SIZEOF_BASE_RELOCATION, 0, n);
        EntryReportsAreBadTypes(dir, p + SIZEOF_BASE_RELOCATION, 0, n);
        BlocksWellFormed(dir, sizeOfImage, run.end);
        var rest := Blocks(dir, sizeOfImage, run.end);
        var b := BaseRelocation(va, sz, run.entries);
        assert WellFormedBlock(b, sizeOfImage);
        ReportsEndParseCons(b, run.reports, rest, sizeOfImage);
        assert BlocksAt(dir, sizeOfImage, p, va, sz) == BlockRun([b] + rest.blocks, run.reports + rest.reports);
      }
    }
  }

  /** The entry loop of one block: slot by slot, a HIGHADJ entry stepping over its parameter. */
  method ParseEntries(dir: seq<u8>, base: nat, n: nat) returns (entries: seq<u16>, reports: seq<LoaderError>, end: nat)
    ensures EntryRun(entries, reports, end) == EntriesFrom(dir, base, 0, n)
  {
    ghost var all := EntriesFrom(dir, base, 0, n);
    entries := [];
    reports := [];
    var i := 0;
    while i < n && base + 2 * i + 2 <= |dir|
      invariant entries + EntriesFrom(dir, base, i, n).entries == all.entries
      invariant reports + EntriesFrom(dir, base, i, n).reports == all.reports
      invariant EntriesFrom(dir, base, i, n).end == all.end
      decreases n - i
    {
      var t := U16At(dir, base + 2 * i);
      var next := if EntryType(t) == REL_BASED_HIGHADJ then i + 2 else i + 1;
      var bad := if KnownType(EntryType(t)) then [] else [LDR_ERROR_RELOC_ENTRY_BAD_TYPE];
      ghost var rest := EntriesFrom(dir, base, next, n);
      EntriesStep(dir, base, i, n, t, next);
      ConcatAssoc(entries, [t], rest.entries);
      ConcatAssoc(reports, bad, rest.reports);
      entries := entries + [t];
      reports := reports + bad;
      i := next;
    }
    end := base + 2 * i;
  }

  /**
   * One turn of the block loop on the header at `pos`: the block stored, if
   * any, the errors reported, and whether the loop stops or goes on at `next`.
   */
  method ParseBlock(dir: seq<u8>, sizeOfImage: u32, pos: nat, va: u32, sz: u32)
    returns (stored: seq<BaseRelocation>, found: seq<LoaderError>, next: nat, stop: bool)
    ensures stop ==> BlocksAt(dir, sizeOfImage, pos, va, sz) == BlockRun(stored, found)
    ensures !stop ==> (next > pos &&
      BlocksAt(dir, sizeOfImage, pos, va, sz) ==
        BlockRun(stored + Blocks(dir, sizeOfImage, next).blocks, found + Blocks(dir, sizeOfImage, next).reports))
  {
    stored, found, next, stop := [], [], pos, true;
    if va > sizeOfImage {
      found := [LDR_ERROR_RELOC_BLOCK_INVALID_VA];
    } else if pos + sz > |dir| {
      found := [LDR_ERROR_RELOC_BLOCK_INVALID_LENGTH];
    } else if sz >= SIZEOF_BASE_RELOCATION {
      var entries, end;
      entries, found, end := ParseEntries(dir, pos + SIZEOF_BASE_RELOCATION, (sz - SIZEOF_BASE_RELOCATION) / 2);
      stored, next, stop := [BaseRelocation(va, sz, entries)], end, false;
    } else {
      next, stop := pos + SIZEOF_BASE_RELOCATION, false;
    }
  }

  /** read(data, uiSize, sizeOfImage)'s block loop. */
  method ParseBlocks(dir: seq<u8>, sizeOfImage: u32) returns (blocks: seq<BaseRelocation>, reports: seq<LoaderError>)
    ensures BlockRun(blocks, reports) == Blocks(dir, sizeOfImage, 0)
  {
    ghost var all := Blocks(dir, sizeOfImage, 0);
    blocks := [];
    reports := [];
    var pos := 0;
    while pos + SIZEOF_BASE_RELOCATION < |dir|
      invariant blocks + Blocks(dir, sizeOfImage, pos).blocks == all.blocks
      invariant reports + Blocks(dir, sizeOfImage, pos).reports == all.reports
      decreases |dir| - pos
    {
      var stored, found, next, stop := ParseBlock(dir, sizeOfImage, pos, U32At(dir, pos), U32At(dir, pos + 4));
      ghost var rest := if stop then BlockRun([], []) else Blocks(dir, sizeOfImage, next);
      ConcatAssoc(blocks, stored, rest.blocks);
      ConcatAssoc(reports, found, rest.reports);
      blocks := blocks + stored;
      reports := reports + found;
      if stop {
        assert blocks == blocks + rest.blocks && reports == reports + rest.reports;
        break;
      }
      pos := next;
    }
  }

  // ---------------------------------------------------------------------
  // Parsing as written: the entry read is typeAndOffsets[i], but a HIGHADJ
  // entry advances only the cursor `data`, which also bounds the loop and
  // gives the next block's header.
  // ---------------------------------------------------------------------

  function EntriesAsWritten(dir: seq<u8>, base: nat, i: nat, n: nat, data: nat): (r: EntryRun)
    requires base + 2 * i <= data
    ensures data <= r.end
    decreases n - i
  {
    if i >= n || data + 2 > |dir| then EntryRun([], [], data)
    else
      var t := U16At(dir, base + 2 * i);
      var skip := if EntryType(t) == REL_BASED_HIGHADJ then 2 else 0;
      var rest := EntriesAsWritten(dir, base, i + 1, n, data + skip + 2);
      EntryRun([t] + rest.entries, (if KnownType(EntryType(t)) then [] else [LDR_ERROR_RELOC_ENTRY_BAD_TYPE]) + rest.reports, rest.end)
  }

  function BlocksAsWritten(dir: seq<u8>, sizeOfImage: u32, p: nat): (r: BlockRun)
    decreases |dir| - p, 1
  {
    if p + SIZEOF_BASE_RELOCATION >= |dir| then BlockRun([], [])
    else BlocksAtAsWritten(dir, sizeOfImage, p, U32At(dir, p), U32At(dir, p + 4))
  }

  function BlocksAtAsWritten(dir: seq<u8>, sizeOfImage: u32, p: nat, va: u32, sz: u32): (r: BlockRun)
    decreases |dir| - p, 0
  {
    if va > sizeOfImage then BlockRun([], [LDR_ERROR_RELOC_BLOCK_INVALID_VA])
    else if p + sz > |dir| then BlockRun([], [LDR_ERROR_RELOC_BLOCK_INVALID_LENGTH])
    else if sz < SIZEOF_BASE_RELOCATION then BlocksAsWritten(dir, sizeOfImage, p + SIZEOF_BASE_RELOCATION)
    else
      var base := p + SIZEOF_BASE_RELOCATION;
      var run := EntriesAsWritten(dir, base, 0, (sz - SIZEOF_BASE_RELOCATION) / 2, base);
      var rest := BlocksAsWritten(dir, sizeOfImage, run.end);
      BlockRun([BaseRelocation(va, sz, run.entries)] + rest.blocks, run.reports + rest.reports)
  }

  /** Without HIGHADJ entries the cursor and the index agree, and so do the two entry loops. */
  lemma {:induction false} EntriesAgree(dir: seq<u8>, base: nat, i: nat, n: nat)
    requires NoHighAdj(EntriesFrom(dir, base, i, n).entries)
    ensures EntriesAsWritten(dir, base, i, n, base + 2 * i) == EntriesFrom(dir, base, i, n)
    decreases n - i
  {
    if !(i >= n || base + 2 * i + 2 > |dir|) {
      var r := EntriesFrom(dir, base, i, n);
      var rest := EntriesFrom(dir, base, i + 1, n);
      assert EntryType(r.entries[0]) != REL_BASED_HIGHADJ;
      assert r.entries[1..] == rest.entries;
      assert NoHighAdj(rest.entries) by {
        forall k | 0 <= k < |rest.entries| ensures EntryType(rest.entries[k]) != REL_BASED_HIGHADJ {
          assert rest.entries[k] == r.entries[k + 1];
        }
      }
      EntriesAgree(dir, base, i + 1, n);
    }
  }

  /** No block of a parse holds a HIGHADJ entry. */
  predicate NoHighAdjBlocks(blocks: seq<BaseRelocation>)
  {
    forall k :: 0 <= k < |blocks| ==> NoHighAdj(blocks[k].RelocData)
  }

  /** The finding is confined to HIGHADJ: on tables without such entries the parse as written is the corrected one. */
  lemma {:induction false} BlocksAgree(dir: seq<u8>, sizeOfImage: u32, p: nat)
    requires NoHighAdjBlocks(Blocks(dir, sizeOfImage, p).blocks)
    ensures BlocksAsWritten(dir, sizeOfImage, p) == Blocks(dir, sizeOfImage, p)
    decreases |dir| - p, 1
  {
    if p + SIZEOF_BASE_RELOCATION < |dir| {
      BlocksAtAgree(dir, sizeOfImage, p, U32At(dir, p), U32At(dir, p + 4));
    }
  }

  lemma {:induction false} BlocksAtAgree(dir: seq<u8>, sizeOfImage: u32, p: nat, va: u32, sz: u32)
    requires NoHighAdjBlocks(BlocksAt(dir, sizeOfImage, p, va, sz).blocks)
    ensures BlocksAtAsWritten(dir, sizeOfImage, p, va, sz) == BlocksAt(dir, sizeOfImage, p, va, sz)
    decreases |dir| - p, 0
  {
    if va <= sizeOfImage && p + sz <= |dir| {
      if sz < SIZEOF_BASE_RELOCATION {
        BlocksAgree(dir, sizeOfImage, p + SIZEOF_BASE_RELOCATION);
      } else {
        var base := p + SIZEOF_BASE_RELOCATION;
        var n := (sz - SIZEOF_BASE_RELOCATION) / 2;
        var run := EntriesFrom(dir, base, 0, n);
        var r := BlocksAt(dir, sizeOfImage, p, va, sz);
        var rest := Blocks(dir, sizeOfImage, run.end);
        assert r.blocks == [BaseRelocation(va, sz, run.entries)] + rest.blocks;
        assert NoHighAdj(r.blocks[0].RelocData);
        EntriesAgree(dir, base, 0, n);
        assert NoHighAdjBlocks(rest.blocks) by {
          forall k | 0 <= k < |rest.blocks| ensures NoHighAdj(rest.blocks[k].RelocData) {
            assert rest.blocks[k] == r.blocks[k + 1];
          }
        }
        BlocksAgree(dir, sizeOfImage, run.end);
      }
    }
  }

  /**
   * A 22-byte table of two blocks: a 12-byte block at page 0x1000 holding a
   * HIGHADJ entry and its parameter 0x1234, then a 10-byte block at page
   * 0x2000 holding one HIGHLOW entry.
   */
  const HIGHADJ_SAMPLE: seq<u8> := [
    0x00, 0x10, 0x00, 0x00, 12, 0x00, 0x00, 0x00, 0x00, 0x40, 0x34, 0x12,
    0x00, 0x20, 0x00, 0x00, 10, 0x00, 0x00, 0x00, 0x01, 0x30]

  /**
   * As written, the parameter slot is stored as an entry and the cursor ends
   * two bytes past the first block, so the second header is never reached.
   */
  lemma HighAdjLosesNextBlock()
    ensures BlocksAsWritten(HIGHADJ_SAMPLE, 0x3000, 0) == BlockRun([BaseRelocation(0x1000, 12, [0x4000, 0x1234])], [])
  {
    var d := HIGHADJ_SAMPLE;
    assert U32At(d, 0) == 0x1000 && U32At(d, 4) == 12 && U16At(d, 8) == 0x4000 && U16At(d, 10) == 0x1234;
    assert EntriesAsWritten(d, 8, 2, 2, 14) == EntryRun([], [], 14);
    assert EntriesAsWritten(d, 8, 1, 2, 12) == EntryRun([0x1234], [], 14);
    assert EntriesAsWritten(d, 8, 0, 2, 8) == EntryRun([0x4000, 0x1234], [], 14);
    assert BlocksAsWritten(d, 0x3000, 14) == BlockRun([], []);
  }

  /** The corrected parse of the same bytes stores the HIGHADJ entry alone and then the second block. */
  lemma HighAdjKeepsNextBlock()
    ensures Blocks(HIGHADJ_SAMPLE, 0x3000, 0) ==
      BlockRun([BaseRelocation(0x1000, 12, [0x4000]), BaseRelocation(0x2000, 10, [0x3001])], [])
  {
    var d := HIGHADJ_SAMPLE;
    assert U32At(d, 0) == 0x1000 && U32At(d, 4) == 12 && U16At(d, 8) == 0x4000 && U16At(d, 10) == 0x1234;
    assert EntriesFrom(d, 8, 2, 2) == EntryRun([], [], 12);
    assert EntriesFrom(d, 8, 0, 2) == EntryRun([0x4000], [], 12);
    HighAdjSampleSecondBlock();
  }

  /** The second block of the sample, parsed from its header at offset 12. */
  lemma HighAdjSampleSecondBlock()
    ensures Blocks(HIGHADJ_SAMPLE, 0x3000, 12) == BlockRun([BaseRelocation(0x2000, 10, [0x3001])], [])
  {
    var d := HIGHADJ_SAMPLE;
    assert U32At(d, 12) == 0x2000 && U32At(d, 16) == 10 && U16At(d, 20) == 0x3001;
    assert EntriesFrom(d, 20, 1, 1) == EntryRun([], [], 22);
    assert EntriesFrom(d, 20, 0, 1) == EntryRun([0x3001], [], 22);
    assert Blocks(d, 0x3000, 22) == BlockRun([], []);
  }

  // ---------------------------------------------------------------------
  // size()
  // ---------------------------------------------------------------------

  /** All stored entries. */
  function EntryCount(blocks: seq<BaseRelocation>): nat
  {
    if blocks == [] then 0 else EntryCount(blocks[..|blocks| - 1]) + |blocks[|blocks| - 1].RelocData|
  }

  /**
   * size(): 72 bytes per block (the size PELIB_IMAGE_BASE_RELOCATION reports,
   * not its 8 bytes in the file) and two per entry, in 32-bit arithmetic.
   */
  function RelocationsSize(blocks: seq<BaseRelocation>): u32
  {
    (BASE_RELOCATION_REPORTED_SIZE * |blocks| + 2 * EntryCount(blocks)) % TWO_32
  }

  /** Truncating a factor first does not change a product taken modulo m. */
  lemma MulMod(x: nat, c: nat, m: nat)
    requires m > 0
    ensures ((x % m) * c) % m == (x * c) % m
  {
    var q, b := x / m, x % m;
    var t := b * c;
    MulSplit(x, m, q, b, c);
    DivModUnique(t, m, t / m, t % m);
    assert x * c == m * (q * c + t / m) + t % m;
    DivModUnique(x * c, m, q * c + t / m, t % m);
  }

  lemma MulSplit(x: nat, m: nat, q: nat, b: nat, c: nat)
    requires x == m * q + b
    ensures x * c == m * (q * c) + b * c
  {
  }

  /** One turn of size()'s loop keeps the running size equal to the exact sum modulo 2^32. */
  lemma SizeStep(exact: nat, size2: u32, n: nat)
    requires size2 == exact % TWO_32
    ensures Add32(size2, Trunc32(Trunc32(n) * 2)) == (exact + 2 * n) % TWO_32
  {
    MulMod(n, 2, TWO_32);
    var m := Trunc32(Trunc32(n) * 2);
    assert m == (2 * n) % TWO_32;
    AddMod(exact, m, TWO_32);
    AddMod(2 * n, exact, TWO_32);
  }

  lemma EntryCountStep(blocks: seq<BaseRelocation>, i: nat)
    requires i < |blocks|
    ensures EntryCount(blocks[..i + 1]) == EntryCount(blocks[..i]) + |blocks[i].RelocData|
  {
    assert blocks[..i + 1][..i] == blocks[..i];
  }

  // ---------------------------------------------------------------------
  // The directory object
  // ---------------------------------------------------------------------

  class RelocationsDirectory {
    var relocations: seq<BaseRelocation>
    var ldrError: LoaderError

    constructor ()
      ensures relocations == [] && ldrError == LDR_ERROR_NONE
    {
      relocations := [];
      ldrError := LDR_ERROR_NONE;
    }

    /** setLoaderError: the first error reported is kept. */
    method SetLoaderError(e: LoaderError)
      modifies this
      ensures ldrError == KeepFirst(old(ldrError), e) && relocations == old(relocations)
    {
      if ldrError == LDR_ERROR_NONE {
        ldrError := e;
      }
    }

    /**
     * read(data, uiSize, sizeOfImage): the blocks held are replaced by those
     * parsed, and the loader error is the one already held or else the first
     * reported while parsing.
     */
    method ReadBlocks(dir: seq<u8>, sizeOfImage: u32)
      modifies this
      ensures relocations == Blocks(dir, sizeOfImage, 0).blocks
      ensures ldrError == KeepFirst(old(ldrError), FirstError(Blocks(dir, sizeOfImage, 0).reports))
    {
      var blocks, reports := ParseBlocks(dir, sizeOfImage);
      relocations := blocks;
      RecordAllKeepsFirst(ldrError, reports);
      ldrError := RecordAll(ldrError, reports);
    }

    /**
     * read(imageLoader): a directory outside the image, or larger than the
     * file, is refused with RELOCATIONS_OUT_OF_IMAGE; one the image cannot
     * supply in full is refused without a loader error; otherwise it is parsed.
     */
    method Read(img: seq<u8>, oh: OptionalHeader, sizeOfFile: nat) returns (r: int)
      requires |img| < TWO_32
      modifies this
      ensures r == ERROR_NONE || r == ERROR_INVALID_FILE
      ensures var rva := DataDirRva(oh, DIR_BASERELOC); var size := DataDirSize(oh, DIR_BASERELOC);
        var dir := ReadImage(img, rva, size);
        (RelocationsOutOfImage(rva, size, oh.SizeOfImage) || size > sizeOfFile ==>
          r == ERROR_INVALID_FILE && ldrError == KeepFirst(old(ldrError), LDR_ERROR_RELOCATIONS_OUT_OF_IMAGE) &&
          relocations == old(relocations)) &&
        (!RelocationsOutOfImage(rva, size, oh.SizeOfImage) && size <= sizeOfFile && |dir| != size ==>
          r == ERROR_INVALID_FILE && ldrError == old(ldrError) && relocations == old(relocations)) &&
        (!RelocationsOutOfImage(rva, size, oh.SizeOfImage) && size <= sizeOfFile && |dir| == size ==>
          r == ERROR_NONE && relocations == Blocks(dir, oh.SizeOfImage, 0).blocks &&
          ldrError == KeepFirst(old(ldrError), FirstError(Blocks(dir, oh.SizeOfImage, 0).reports)))
    {
      var rva := DataDirRva(oh, DIR_BASERELOC);
      var size := DataDirSize(oh, DIR_BASERELOC);
      if RelocationsOutOfImage(rva, size, oh.SizeOfImage) || size > sizeOfFile {
        SetLoaderError(LDR_ERROR_RELOCATIONS_OUT_OF_IMAGE);
        return ERROR_INVALID_FILE;
      }
      var dir := ReadImage(img, rva, size);
      if |dir| != size {
        return ERROR_INVALID_FILE;
      }
      ReadBlocks(dir, oh.SizeOfImage);
      r := ERROR_NONE;
    }

    /** size(): the loop over the blocks, wrapping at 32 bits. */
    method Size() returns (r: u32)
      ensures r == RelocationsSize(relocations)
    {
      var blocks := relocations;
      MulMod(|blocks|, BASE_RELOCATION_REPORTED_SIZE, TWO_32);
      var size2: u32 := Trunc32(Trunc32(|blocks|) * BASE_RELOCATION_REPORTED_SIZE);
      ghost var exact: nat := BASE_RELOCATION_REPORTED_SIZE * |blocks|;
      var i := 0;
      while i < |blocks|
        invariant i <= |blocks|
        invariant exact == BASE_RELOCATION_REPORTED_SIZE * |blocks| + 2 * EntryCount(blocks[..i])
        invariant size2 == exact % TWO_32
      {
        var n := |blocks[i].RelocData|;
        SizeStep(exact, size2, n);
        EntryCountStep(blocks, i);
        size2 := Add32(size2, Trunc32(Trunc32(n) * 2));
        exact := exact + 2 * n;
        i := i + 1;
      }
      assert blocks[..i] == blocks;
      r := size2;
    }

    /** calcNumberOfRelocations: the number of blocks, as a 32-bit count. */
    function CalcNumberOfRelocations(): (r: u32)
      reads this
      ensures |relocations| < TWO_32 ==> r == |relocations|
    {
      Trunc32(|relocations|)
    }

    /** calcNumberOfRelocationData: the number of entries of a block, as a 32-bit count. */
    function CalcNumberOfRelocationData(block: nat): (r: u32)
      reads this
      requires block < |relocations|
      ensures |relocations[block].RelocData| < TWO_32 ==> r == |relocations[block].RelocData|
    {
      Trunc32(|relocations[block].RelocData|)
    }

    function GetVirtualAddress(block: nat): u32
      reads this
      requires block < |relocations|
    {
      relocations[block].VirtualAddress
    }

    function GetSizeOfBlock(block: nat): u32
      reads this
      requires block < |relocations|
    {
      relocations[block].SizeOfBlock
    }

    function GetRelocationData(block: nat, entry: nat): u16
      reads this
      requires block < |relocations| && entry < |relocations[block].RelocData|
    {
      relocations[block].RelocData[entry]
    }

    method SetVirtualAddress(block: nat, value: u32)
      requires block < |relocations|
      modifies this
      ensures relocations == old(relocations)[block := old(relocations)[block].(VirtualAddress := value)]
      ensures ldrError == old(ldrError) && GetVirtualAddress(block) == value
    {
      relocations := relocations[block := relocations[block].(VirtualAddress := value)];
    }

    method SetSizeOfBlock(block: nat, value: u32)
      requires block < |relocations|
      modifies this
      ensures relocations == old(relocations)[block := old(relocations)[block].(SizeOfBlock := value)]
      ensures ldrError == old(ldrError) && GetSizeOfBlock(block) == value
    {
      relocations := relocations[block := relocations[block].(SizeOfBlock := value)];
    }

    method SetRelocationData(block: nat, entry: nat, value: u16)
      requires block < |relocations| && entry < |relocations[block].RelocData|
      modifies this
      ensures relocations == old(relocations)[block := old(relocations)[block].(RelocData := old(relocations)[block].RelocData[entry := value])]
      ensures ldrError == old(ldrError) && GetRelocationData(block, entry) == value
    {
      relocations := relocations[block := relocations[block].(RelocData := relocations[block].RelocData[entry := value])];
    }

    /** addRelocation: appends a block with a zero header and no entries. */
    method AddRelocation()
      modifies this
      ensures relocations == old(relocations) + [BaseRelocation(0, 0, [])] && ldrError == old(ldrError)
    {
      relocations := relocations + [BaseRelocation(0, 0, [])];
    }

    method AddRelocationData(block: nat, value: u16)
      requires block < |relocations|
      modifies this
      ensures relocations == old(relocations)[block := old(relocations)[block].(RelocData := old(relocations)[block].RelocData + [value])]
      ensures ldrError == old(ldrError)
    {
      relocations := relocations[block := relocations[block].(RelocData := relocations[block].RelocData + [value])];
    }

    method RemoveRelocation(block: nat)
      requires block < |relocations|
      modifies this
      ensures relocations == old(relocations)[..block] + old(relocations)[block + 1..] && ldrError == old(ldrError)
    {
      relocations := relocations[..block] + relocations[block + 1..];
    }

    method RemoveRelocationData(block: nat, entry: nat)
      requires block < |relocations| && entry < |relocations[block].RelocData|
      modifies this
      ensures var e := old(relocations)[block].RelocData;
        relocations == old(relocations)[block := old(relocations)[block].(RelocData := e[..entry] + e[entry + 1..])]
      ensures ldrError == old(ldrError)
    {
      var e := relocations[block].RelocData;
      relocations := relocations[block := relocations[block].(RelocData := e[..entry] + e[entry + 1..])];
    }
  }
}
