// TlsDirectory: the IMAGE_TLS_DIRECTORY record (section 6.7 of the
// Microsoft PE/COFF Specification) and the list of TLS callbacks it points to.
module TlsDirectories {
  import opened Bytes
  import opened PeAux
  import opened LoaderErrors
  import opened ImageLoader


  /** PELIB_MAX_TLS_CALLBACKS: at most this many callbacks are collected. */
  const MAX_TLS_CALLBACKS: nat := 0x100

  /** The TLS record, in its 64-bit form; 32-bit images are widened into it. */
  datatype TlsRecord = TlsRecord(
    StartAddressOfRawData: u64,
    EndAddressOfRawData: u64,
    AddressOfIndex: u64,
    AddressOfCallBacks: u64,
    SizeOfZeroFill: u32,
    Characteristics: u32)

  const ZeroTls: TlsRecord := TlsRecord(0, 0, 0, 0, 0, 0)

  /** The 40-byte 64-bit record, little-endian, no padding. */
  function EncodeTls64(t: TlsRecord): (r: seq<u8>)
    ensures |r| == TLS_DIRECTORY64_SIZE
  {
    Enc64(t.StartAddressOfRawData) + Enc64(t.EndAddressOfRawData) + Enc64(t.AddressOfIndex) +
    Enc64(t.AddressOfCallBacks) + Enc32(t.SizeOfZeroFill) + Enc32(t.Characteristics)
  }

  function DecodeTls64(b: seq<u8>): TlsRecord
    requires |b| >= TLS_DIRECTORY64_SIZE
  {
    TlsRecord(U64At(b, 0), U64At(b, 8), U64At(b, 16), U64At(b, 24), U32At(b, 32), U32At(b, 36))
  }

  /** The 24-byte 32-bit record; rebuild casts each address to 32 bits. */
  function EncodeTls32(t: TlsRecord): (r: seq<u8>)
    ensures |r| == TLS_DIRECTORY32_SIZE
  {
    Enc32(Trunc32(t.StartAddressOfRawData)) + Enc32(Trunc32(t.EndAddressOfRawData)) +
    Enc32(Trunc32(t.AddressOfIndex)) + Enc32(Trunc32(t.AddressOfCallBacks)) +
    Enc32(t.SizeOfZeroFill) + Enc32(t.Characteristics)
  }

  /** read's conversion of the 32-bit record: each field widened unchanged. */
  function DecodeTls32(b: seq<u8>): (t: TlsRecord)
    requires |b| >= TLS_DIRECTORY32_SIZE
    ensures t.StartAddressOfRawData == U32At(b, 0) && t.EndAddressOfRawData == U32At(b, 4)
    ensures t.AddressOfIndex == U32At(b, 8) && t.AddressOfCallBacks == U32At(b, 12)
    ensures t.SizeOfZeroFill == U32At(b, 16) && t.Characteristics == U32At(b, 20)
    ensures t.AddressOfCallBacks < TWO_32
  {
    TlsRecord(U32At(b, 0), U32At(b, 4), U32At(b, 8), U32At(b, 12), U32At(b, 16), U32At(b, 20))
  }

  /** Decoding a rebuilt 64-bit record gives it back. */
  lemma DecodeEncodeTls64(t: TlsRecord)
    ensures DecodeTls64(EncodeTls64(t)) == t
  {
    var e := EncodeTls64(t);
    assert e[0..8] == Enc64(t.StartAddressOfRawData) && e[8..16] == Enc64(t.EndAddressOfRawData);
    assert e[16..24] == Enc64(t.AddressOfIndex) && e[24..32] == Enc64(t.AddressOfCallBacks);
    assert e[32..36] == Enc32(t.SizeOfZeroFill) && e[36..40] == Enc32(t.Characteristics);
    U64AtEnc(e, 0, t.StartAddressOfRawData);
    U64AtEnc(e, 8, t.EndAddressOfRawData);
    U64AtEnc(e, 16, t.AddressOfIndex);
    U64AtEnc(e, 24, t.AddressOfCallBacks);
    U32AtEnc(e, 32, t.SizeOfZeroFill);
    U32AtEnc(e, 36, t.Characteristics);
  }

  /** A record whose addresses fit in 32 bits survives the 32-bit rebuild and the widening read. */
  lemma DecodeEncodeTls32(t: TlsRecord)
    requires t.StartAddressOfRawData < TWO_32 && t.EndAddressOfRawData < TWO_32
    requires t.AddressOfIndex < TWO_32 && t.AddressOfCallBacks < TWO_32
    ensures DecodeTls32(EncodeTls32(t)) == t
  {
    var e := EncodeTls32(t);
    assert e == Enc32(t.StartAddressOfRawData) + Enc32(t.EndAddressOfRawData) + Enc32(t.AddressOfIndex) +
      Enc32(t.AddressOfCallBacks) + Enc32(t.SizeOfZeroFill) + Enc32(t.Characteristics);
    assert e[0..4] == Enc32(t.StartAddressOfRawData) && e[4..8] == Enc32(t.EndAddressOfRawData);
    assert e[8..12] == Enc32(t.AddressOfIndex) && e[12..16] == Enc32(t.AddressOfCallBacks);
    assert e[16..20] == Enc32(t.SizeOfZeroFill) && e[20..24] == Enc32(t.Characteristics);
    U32AtEnc(e, 0, t.StartAddressOfRawData);
    U32AtEnc(e, 4, t.EndAddressOfRawData);
    U32AtEnc(e, 8, t.AddressOfIndex);
    U32AtEnc(e, 12, t.AddressOfCallBacks);
    U32AtEnc(e, 16, t.SizeOfZeroFill);
    U32AtEnc(e, 20, t.Characteristics);
  }

  // ---------------------------------------------------------------------
  // Callbacks

  /** The RVA of callback slot `k`: `k` pointer steps from `rva`, each a 32-bit sum. */
  function SlotRva(rva: u32, step: nat, k: nat): u32
    requires step <= 8
    decreases k
  {
    if k == 0 then rva else SlotRva(Add32(rva, step), step, k - 1)
  }

  /** The callbacks from `rva`: at most `count`, up to the first zero value or failed read. */
  function Callbacks(img: seq<u8>, oh: OptionalHeader, rva: u32, count: nat): (r: seq<u64>)
    requires |img| < TWO_32
    ensures |r| <= count
    decreases count, 2
  {
    if count == 0 then [] else CallbacksFromSlot(img, oh, rva, count)
  }

  /** The callbacks from slot `rva` when at least one more may be read. */
  function CallbacksFromSlot(img: seq<u8>, oh: OptionalHeader, rva: u32, count: nat): (r: seq<u64>)
    requires |img| < TWO_32 && count > 0
    ensures |r| <= count
    decreases count, 1
  {
    CallbacksPastRead(img, oh, rva, count, Add32(rva, PointerSize(oh)))
  }

  /** The pointer at slot `rva` and, when it is non-zero, the callbacks from the slot `next` that follows. */
  function CallbacksPastRead(img: seq<u8>, oh: OptionalHeader, rva: u32, count: nat, next: u32): (r: seq<u64>)
    requires |img| < TWO_32 && count > 0 && next == Add32(rva, PointerSize(oh))
    ensures |r| <= count
    decreases count, 0
  {
    match ReadPointer(img, oh, rva)
    case None => []
    case Some(v) => if v == 0 then [] else [v] + Callbacks(img, oh, next, count - 1)
  }

  /** One step of the callback sequence: stop at a failed read or a zero, or keep the value and go on. */
  lemma CallbacksUnfold(img: seq<u8>, oh: OptionalHeader, rva: u32, count: nat, value: Option<u64>)
    requires |img| < TWO_32 && count > 0 && value == ReadPointer(img, oh, rva)
    ensures value.None? || value.value == 0 ==> Callbacks(img, oh, rva, count) == []
    ensures value.Some? && value.value != 0 ==>
      Callbacks(img, oh, rva, count) == [value.value] + Callbacks(img, oh, Add32(rva, PointerSize(oh)), count - 1)
  {
    assert CallbacksFromSlot(img, oh, rva, count) == CallbacksPastRead(img, oh, rva, count, Add32(rva, PointerSize(oh)));
  }

  /** Callback `k` is the non-zero pointer read at slot `k`. */
  lemma {:induction false} CallbackAt(img: seq<u8>, oh: OptionalHeader, rva: u32, count: nat, k: nat)
    requires |img| < TWO_32 && k < |Callbacks(img, oh, rva, count)|
    ensures Callbacks(img, oh, rva, count)[k] != 0
    ensures ReadPointer(img, oh, SlotRva(rva, PointerSize(oh), k)) == Some(Callbacks(img, oh, rva, count)[k])
    decreases k
  {
    CallbacksUnfold(img, oh, rva, count, ReadPointer(img, oh, rva));
    if k > 0 {
      var next := Add32(rva, PointerSize(oh));
      assert Callbacks(img, oh, rva, count)[k] == Callbacks(img, oh, next, count - 1)[k - 1];
      CallbackAt(img, oh, next, count - 1, k - 1);
    }
  }

  /** When fewer than `count` callbacks are collected, the slot after the last one cannot be read or holds zero. */
  lemma {:induction false} CallbacksEnd(img: seq<u8>, oh: OptionalHeader, rva: u32, count: nat)
    requires |img| < TWO_32
    ensures var n := |Callbacks(img, oh, rva, count)|;
      n < count ==> var end := ReadPointer(img, oh, SlotRva(rva, PointerSize(oh), n)); end.None? || end.value == 0
    decreases count
  {
    if count > 0 {
      var first := ReadPointer(img, oh, rva);
      CallbacksUnfold(img, oh, rva, count, first);
      if first.Some? && first.value != 0 {
        var next := Add32(rva, PointerSize(oh));
        CallbacksEnd(img, oh, next, count - 1);
      }
    }
  }

  /** One pass of read's callback loop: the pointer at `rva`, and what it makes of the callbacks from there. */
  method ReadCallback(img: seq<u8>, oh: OptionalHeader, rva: u32, count: nat) returns (value: Option<u64>)
    requires |img| < TWO_32 && count > 0
    ensures value.None? || value.value == 0 ==> Callbacks(img, oh, rva, count) == []
    ensures value.Some? && value.value != 0 ==>
      Callbacks(img, oh, rva, count) == [value.value] + Callbacks(img, oh, Add32(rva, PointerSize(oh)), count - 1)
  {
    value := ReadPointer(img, oh, rva);
    CallbacksUnfold(img, oh, rva, count, value);
  }

  /** read's callback loop: up to 0x100 pointers from `rva`, stopping at a zero or a failed read. */
  method CollectCallbacks(img: seq<u8>, oh: OptionalHeader, rva0: u32) returns (found: seq<u64>)
    requires |img| < TWO_32
    ensures found == Callbacks(img, oh, rva0, MAX_TLS_CALLBACKS)
  {
    var pointerSize := PointerSize(oh);
    var rva := rva0;
    found := [];
    var i := 0;
    while i < MAX_TLS_CALLBACKS
      invariant i <= MAX_TLS_CALLBACKS
      invariant found + Callbacks(img, oh, rva, MAX_TLS_CALLBACKS - i) == Callbacks(img, oh, rva0, MAX_TLS_CALLBACKS)
    {
      var value := ReadCallback(img, oh, rva, MAX_TLS_CALLBACKS - i);
      if value.None? || value.value == 0 {
        assert found + [] == found;
        return;
      }
      assert found + Callbacks(img, oh, rva, MAX_TLS_CALLBACKS - i) ==
        (found + [value.value]) + Callbacks(img, oh, Add32(rva, pointerSize), MAX_TLS_CALLBACKS - (i + 1));
      found := found + [value.value];
      rva := Add32(rva, pointerSize);
      i := i + 1;
    }
    assert found + [] == found;
  }

  /** read's callback range: strictly between ImageBase and ImageBase + SizeOfImage (a 64-bit sum). */
  predicate CallbacksInImage(oh: OptionalHeader, t: TlsRecord)
  {
    oh.ImageBase < t.AddressOfCallBacks < Add64(oh.ImageBase, oh.SizeOfImage)
  }

  /** read's range check: rva + size, a 32-bit sum, at or past SizeOfImage. */
  predicate TlsOutOfImage(oh: OptionalHeader)
  {
    Add32(DataDirRva(oh, DIR_TLS), DataDirSize(oh, DIR_TLS)) >= oh.SizeOfImage
  }

  // ---------------------------------------------------------------------
  // size() as written and as intended

  /**
   * size() as the source writes it: 24 only when the stored pointer size is
   * 32, but read stores getPointerSize(), which is 4 or 8.
   */
  function SizeAsWritten(pointerSize: nat): nat
  {
    if pointerSize == 32 then TLS_DIRECTORY32_SIZE else TLS_DIRECTORY64_SIZE
  }

  /** After a read, the as-written size is 40 even for a 32-bit image, whose record is 24 bytes. */
  lemma SizeAsWrittenIgnoresBitability(oh: OptionalHeader)
    ensures SizeAsWritten(PointerSize(oh)) == TLS_DIRECTORY64_SIZE
    ensures ImageBitability(oh) == 32 ==> SizeAsWritten(PointerSize(oh)) != TLS_DIRECTORY32_SIZE
  {
  }

  /** size() as intended: the 24-byte record for 4-byte pointers, the 40-byte one otherwise. */
  function TlsSize(pointerSize: nat): (r: nat)
    ensures r == TLS_DIRECTORY32_SIZE <==> pointerSize == 4
  {
    if pointerSize == 4 then TLS_DIRECTORY32_SIZE else TLS_DIRECTORY64_SIZE
  }

  /** The intended size follows the image: 24 for a 32-bit image, 40 for a 64-bit one. */
  lemma TlsSizeFollowsImage(oh: OptionalHeader)
    ensures TlsSize(PointerSize(oh)) == if ImageBitability(oh) == 32 then TLS_DIRECTORY32_SIZE else TLS_DIRECTORY64_SIZE
  {
  }

  /**
   * rebuild() as the source writes it: the same `pointerSize == 32` test as
   * size(), so after a read the 40-byte record is written for every image.
   */
  function RebuildAsWritten(pointerSize: nat, t: TlsRecord): (r: seq<u8>)
    ensures |r| == SizeAsWritten(pointerSize)
  {
    if pointerSize == 32 then EncodeTls32(t) else EncodeTls64(t)
  }

  /** After a read of a 32-bit image, the as-written rebuild writes the 40-byte record, not the 24-byte one. */
  lemma RebuildAsWrittenIgnoresBitability(oh: OptionalHeader, t: TlsRecord)
    ensures RebuildAsWritten(PointerSize(oh), t) == EncodeTls64(t)
    ensures ImageBitability(oh) == 32 ==> |RebuildAsWritten(PointerSize(oh), t)| != TLS_DIRECTORY32_SIZE
  {
  }

  // ---------------------------------------------------------------------
  // What read computes

  /** The size of the record read copies: the 24-byte layout for a 32-bit image, the 40-byte one otherwise. */
  function RecordSize(oh: OptionalHeader): (r: u32)
    ensures r == TlsSize(PointerSize(oh))
  {
    if ImageBitability(oh) == 32 then TLS_DIRECTORY32_SIZE else TLS_DIRECTORY64_SIZE
  }

  /** The bytes read obtains for the record. */
  function RecordBytes(img: seq<u8>, oh: OptionalHeader): (r: seq<u8>)
    requires |img| < TWO_32
    ensures |r| <= RecordSize(oh)
  {
    ReadImage(img, DataDirRva(oh, DIR_TLS), RecordSize(oh))
  }

  /**
   * The record after read's copy. The 32-bit record is read into a local
   * and widened only when complete; the 64-bit one is read straight into
   * the member, so a short read overwrites the bytes it reached.
   */
  function RecordAfterRead(img: seq<u8>, oh: OptionalHeader, prev: TlsRecord): TlsRecord
    requires |img| < TWO_32
  {
    var b := RecordBytes(img, oh);
    if ImageBitability(oh) == 32 then
      if |b| == TLS_DIRECTORY32_SIZE then DecodeTls32(b) else prev
    else DecodeTls64(b + EncodeTls64(prev)[|b|..])
  }

  /** A complete read gives the record the bytes encode, whatever was there before. */
  lemma CompleteReadDecodes(img: seq<u8>, oh: OptionalHeader, prev: TlsRecord)
    requires |img| < TWO_32 && |RecordBytes(img, oh)| == RecordSize(oh)
    ensures ImageBitability(oh) == 32 ==> RecordAfterRead(img, oh, prev) == DecodeTls32(RecordBytes(img, oh))
    ensures ImageBitability(oh) == 64 ==> RecordAfterRead(img, oh, prev) == DecodeTls64(RecordBytes(img, oh))
  {
    var b := RecordBytes(img, oh);
    if ImageBitability(oh) == 64 {
      assert EncodeTls64(prev)[|b|..] == [];
      assert b + EncodeTls64(prev)[|b|..] == b;
    }
  }

  /** A read that reaches no byte leaves the record as it was. */
  lemma EmptyReadKeepsRecord(img: seq<u8>, oh: OptionalHeader, prev: TlsRecord)
    requires |img| < TWO_32 && RecordBytes(img, oh) == []
    ensures RecordAfterRead(img, oh, prev) == prev
  {
    assert [] + EncodeTls64(prev)[0..] == EncodeTls64(prev);
    DecodeEncodeTls64(prev);
  }

  /** A short 64-bit read that stops before byte 32 leaves SizeOfZeroFill and Characteristics as they were. */
  lemma ShortReadKeepsTail(img: seq<u8>, oh: OptionalHeader, prev: TlsRecord)
    requires |img| < TWO_32 && ImageBitability(oh) == 64 && |RecordBytes(img, oh)| <= 32
    ensures RecordAfterRead(img, oh, prev).SizeOfZeroFill == prev.SizeOfZeroFill
    ensures RecordAfterRead(img, oh, prev).Characteristics == prev.Characteristics
  {
    var b := RecordBytes(img, oh);
    var e := EncodeTls64(prev);
    var c := b + e[|b|..];
    assert e[32..36] == Enc32(prev.SizeOfZeroFill) && e[36..40] == Enc32(prev.Characteristics);
    assert c[32..36] == e[32..36] && c[36..40] == e[36..40];
    U32AtEnc(c, 32, prev.SizeOfZeroFill);
    U32AtEnc(c, 36, prev.Characteristics);
  }

  /** The callbacks read appends after a complete record: none unless AddressOfCallBacks lies inside the image. */
  function CallbacksAfterRead(img: seq<u8>, oh: OptionalHeader, t: TlsRecord): (r: seq<u64>)
    requires |img| < TWO_32
    ensures |r| <= MAX_TLS_CALLBACKS
    ensures !CallbacksInImage(oh, t) ==> r == []
  {
    if CallbacksInImage(oh, t)
    then Callbacks(img, oh, Trunc32(t.AddressOfCallBacks - oh.ImageBase), MAX_TLS_CALLBACKS)
    else []
  }

  /** read's copy of the record: whether all of it was read, and the record afterwards. */
  method ReadRecord(img: seq<u8>, oh: OptionalHeader, prev: TlsRecord) returns (complete: bool, tls: TlsRecord)
    requires |img| < TWO_32
    ensures complete <==> |RecordBytes(img, oh)| == RecordSize(oh)
    ensures tls == RecordAfterRead(img, oh, prev)
  {
    var rva := DataDirRva(oh, DIR_TLS);
    tls := prev;
    if ImageBitability(oh) == 32 {
      var b := ReadImage(img, rva, TLS_DIRECTORY32_SIZE);
      complete := |b| == TLS_DIRECTORY32_SIZE;
      if complete {
        tls := DecodeTls32(b);
      }
    } else {
      var b := ReadImage(img, rva, TLS_DIRECTORY64_SIZE);
      tls := DecodeTls64(b + EncodeTls64(tls)[|b|..]);
      complete := |b| == TLS_DIRECTORY64_SIZE;
    }
  }

  /** read's callbacks for the record `t`: those from its callback address when that lies in the image. */
  method ReadCallbacks(img: seq<u8>, oh: OptionalHeader, t: TlsRecord) returns (found: seq<u64>)
    requires |img| < TWO_32
    ensures found == CallbacksAfterRead(img, oh, t)
  {
    found := [];
    if CallbacksInImage(oh, t) {
      found := CollectCallbacks(img, oh, Trunc32(t.AddressOfCallBacks - oh.ImageBase));
    }
  }

  class TlsDirectory {
    var tls: TlsRecord
    var callbacks: seq<u64>
    var pointerSize: nat

    constructor ()
      ensures tls == ZeroTls && callbacks == [] && pointerSize == 0
    {
      tls := ZeroTls;
      callbacks := [];
      pointerSize := 0;
    }

    /**
     * read: the directory must end before SizeOfImage; the record is read in
     * the image's layout; callbacks found inside the image are appended to
     * those already held.
     */
    method Read(img: seq<u8>, oh: OptionalHeader) returns (r: int)
      requires |img| < TWO_32
      modifies this
      ensures r == ERROR_NONE || r == ERROR_INVALID_FILE
      ensures r == ERROR_NONE <==> !TlsOutOfImage(oh) && |RecordBytes(img, oh)| == RecordSize(oh)
      ensures TlsOutOfImage(oh) ==> tls == old(tls) && pointerSize == old(pointerSize)
      ensures !TlsOutOfImage(oh) ==> pointerSize == PointerSize(oh) && tls == RecordAfterRead(img, oh, old(tls))
      ensures r == ERROR_NONE ==> callbacks == old(callbacks) + CallbacksAfterRead(img, oh, tls)
      ensures r != ERROR_NONE ==> callbacks == old(callbacks)
    {
      var rva := DataDirRva(oh, DIR_TLS);
      var size := DataDirSize(oh, DIR_TLS);
      if Add32(rva, size) >= oh.SizeOfImage {
        return ERROR_INVALID_FILE;
      }
      pointerSize := PointerSize(oh);
      var complete;
      complete, tls := ReadRecord(img, oh, tls);
      if !complete {
        return ERROR_INVALID_FILE;
      }
      var found := ReadCallbacks(img, oh, tls);
      callbacks := callbacks + found;
      r := ERROR_NONE;
    }

    /** size(), as intended. */
    function Size(): (r: nat)
      reads this
      ensures r == |Rebuild()|
    {
      TlsSize(pointerSize)
    }

    /**
     * rebuild(), as intended: the record in the layout of the pointer
     * size; reading it back gives the record, for the 32-bit layout when
     * its addresses fit in 32 bits.
     */
    function Rebuild(): (r: seq<u8>)
      reads this
      ensures pointerSize == 4 ==> |r| == TLS_DIRECTORY32_SIZE
      ensures pointerSize != 4 ==> |r| == TLS_DIRECTORY64_SIZE && DecodeTls64(r) == tls
      ensures (pointerSize == 4 && tls.StartAddressOfRawData < TWO_32 && tls.EndAddressOfRawData < TWO_32 &&
        tls.AddressOfIndex < TWO_32 && tls.AddressOfCallBacks < TWO_32) ==> DecodeTls32(r) == tls
    {
      if pointerSize == 4 then
        if tls.StartAddressOfRawData < TWO_32 && tls.EndAddressOfRawData < TWO_32 &&
          tls.AddressOfIndex < TWO_32 && tls.AddressOfCallBacks < TWO_32
        then DecodeEncodeTls32(tls); EncodeTls32(tls)
        else EncodeTls32(tls)
      else DecodeEncodeTls64(tls); EncodeTls64(tls)
    }

    /**
     * After a read, the intended rebuild writes the record in the image's
     * layout: 24 bytes for a 32-bit image, 40 for a 64-bit one.
     */
    lemma RebuildFollowsImage(oh: OptionalHeader)
      requires pointerSize == PointerSize(oh)
      ensures |Rebuild()| == if ImageBitability(oh) == 32 then TLS_DIRECTORY32_SIZE else TLS_DIRECTORY64_SIZE
    {
    }

    method SetStartAddressOfRawData(value: u64)
      modifies this`tls
      ensures tls == old(tls).(StartAddressOfRawData := value)
    {
      tls := tls.(StartAddressOfRawData := value);
    }

    method SetEndAddressOfRawData(value: u64)
      modifies this`tls
      ensures tls == old(tls).(EndAddressOfRawData := value)
    {
      tls := tls.(EndAddressOfRawData := value);
    }

    method SetAddressOfIndex(value: u64)
      modifies this`tls
      ensures tls == old(tls).(AddressOfIndex := value)
    {
      tls := tls.(AddressOfIndex := value);
    }

    method SetAddressOfCallBacks(value: u64)
      modifies this`tls
      ensures tls == old(tls).(AddressOfCallBacks := value)
    {
      tls := tls.(AddressOfCallBacks := value);
    }

    method SetSizeOfZeroFill(value: u32)
      modifies this`tls
      ensures tls == old(tls).(SizeOfZeroFill := value)
    {
      tls := tls.(SizeOfZeroFill := value);
    }

    method SetCharacteristics(value: u32)
      modifies this`tls
      ensures tls == old(tls).(Characteristics := value)
    {
      tls := tls.(Characteristics := value);
    }
  }
}
