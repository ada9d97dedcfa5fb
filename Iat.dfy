// IatDirectory: the import address table, a run of 32-bit values ended by
// the first zero (section 6.4.4 of the Microsoft PE/COFF Specification).
module IatDirectories {
  import opened Bytes
  import opened PeAux
  import opened LoaderErrors
  import opened ImageLoader

  /** The 32-bit items a buffer holds: one per whole group of four bytes. */
  function Items(buffer: seq<u8>): (r: seq<u32>)
    ensures |r| == |buffer| / 4
    ensures forall i :: 0 <= i < |r| ==> 4 * i + 4 <= |buffer| && r[i] == U32At(buffer, 4 * i)
  {
    seq(|buffer| / 4, i requires 0 <= i < |buffer| / 4 => U32At(buffer, 4 * i))
  }

  /** The items up to and including the first zero; all of them when none is zero. */
  function UpToZero(s: seq<u32>): (r: seq<u32>)
    ensures |r| <= |s| && r == s[..|r|]
    ensures forall j :: 0 <= j < |r| - 1 ==> r[j] != 0
    ensures |r| < |s| ==> |r| > 0 && r[|r| - 1] == 0
  {
    if s == [] then []
    else if s[0] == 0 then [0]
    else [s[0]] + UpToZero(s[1..])
  }

  /** The table is cut exactly after the first zero. */
  lemma {:induction false} UpToZeroCutsAtFirstZero(s: seq<u32>, z: nat)
    requires z < |s| && s[z] == 0 && forall j :: 0 <= j < z ==> s[j] != 0
    ensures UpToZero(s) == s[..z + 1]
    decreases z
  {
    if z > 0 {
      UpToZeroCutsAtFirstZero(s[1..], z - 1);
      assert [s[0]] + s[1..][..z] == s[..z + 1];
    }
  }

  /** Without a zero the whole run is kept. */
  lemma {:induction false} UpToZeroWithoutZero(s: seq<u32>)
    requires forall j :: 0 <= j < |s| ==> s[j] != 0
    ensures UpToZero(s) == s
    decreases |s|
  {
    if s != [] {
      UpToZeroWithoutZero(s[1..]);
      assert [s[0]] + s[1..] == s;
    }
  }

  /** read(buffer, size)'s loop over the buffer's items: each is kept, and the loop stops after the first zero. */
  method CollectItems(items: seq<u32>) returns (acc: seq<u32>)
    ensures acc == UpToZero(items)
  {
    acc := [];
    var i := 0;
    while i < |items|
      invariant i <= |items| && acc == items[..i]
      invariant forall j :: 0 <= j < i ==> items[j] != 0
    {
      acc := acc + [items[i]];
      if items[i] == 0 {
        UpToZeroCutsAtFirstZero(items, i);
        return;
      }
      i := i + 1;
    }
    assert items[..i] == items;
    UpToZeroWithoutZero(items);
  }

  /** The loader read's refusal: a size with a top-byte bit set, a wrapping end, or a range reaching SizeOfImage. */
  predicate IatRejected(oh: OptionalHeader)
  {
    var rva := DataDirRva(oh, DIR_IAT);
    var size := DataDirSize(oh, DIR_IAT);
    And32(size, 0xFF00_0000) != 0 || rva + size >= TWO_32 || rva >= oh.SizeOfImage ||
    Add32(rva, size) >= oh.SizeOfImage
  }

  /** The refusal in plain terms: the size is below 16 MiB and the range ends strictly inside the image. */
  lemma IatRejectedMeaning(oh: OptionalHeader)
    ensures !IatRejected(oh) <==>
      DataDirSize(oh, DIR_IAT) < 0x100_0000 &&
      DataDirRva(oh, DIR_IAT) + DataDirSize(oh, DIR_IAT) < oh.SizeOfImage
  {
    TopByteMask(DataDirSize(oh, DIR_IAT));
  }

  /** rebuild: the items one after another, four little-endian bytes each. */
  function Rebuild(iat: seq<u32>): (r: seq<u8>)
    ensures |r| == 4 * |iat|
  {
    if iat == [] then [] else Rebuild(iat[..|iat| - 1]) + Enc32(iat[|iat| - 1])
  }

  /** Reading a rebuilt table gives the items back, up to the first zero. */
  lemma {:induction false} RebuildItems(iat: seq<u32>)
    ensures Items(Rebuild(iat)) == iat
  {
    if iat != [] {
      var front := iat[..|iat| - 1];
      RebuildItems(front);
      ItemsAppend(Rebuild(front), iat[|iat| - 1]);
      assert front + [iat[|iat| - 1]] == iat;
    }
  }

  /** Four more bytes encoding `x` add the item `x` after the others. */
  lemma ItemsAppend(b: seq<u8>, x: u32)
    requires |b| % 4 == 0
    ensures Items(b + Enc32(x)) == Items(b) + [x]
  {
    var c := b + Enc32(x);
    var n := |b| / 4;
    forall i | 0 <= i <= n
      ensures Items(c)[i] == (Items(b) + [x])[i]
    {
      if i < n {
        assert c[4 * i..4 * i + 4] == b[4 * i..4 * i + 4];
        ReadSameBytes(c, b, 4 * i);
      } else {
        assert c[4 * i..4 * i + 4] == Enc32(x);
        U32AtEnc(c, 4 * i, x);
      }
    }
  }

  /** Two buffers with the same four bytes at `at` read the same item there. */
  lemma ReadSameBytes(c: seq<u8>, b: seq<u8>, at: nat)
    requires at + 4 <= |c| && at + 4 <= |b| && c[at..at + 4] == b[at..at + 4]
    ensures U32At(c, at) == U32At(b, at)
  {
    assert c[at] == b[at] && c[at + 1] == b[at + 1] && c[at + 2] == b[at + 2] && c[at + 3] == b[at + 3] by {
      assert c[at..at + 4][0] == c[at] && c[at..at + 4][1] == c[at + 1];
      assert c[at..at + 4][2] == c[at + 2] && c[at..at + 4][3] == c[at + 3];
    }
  }

  class IatDirectory {
    var iat: seq<u32>

    constructor ()
      ensures iat == []
    {
      iat := [];
    }

    /** read(buffer, size): the table is cleared, then refilled with the buffer's items up to the first zero. */
    method ReadBuffer(buffer: seq<u8>) returns (r: int)
      modifies this`iat
      ensures r == ERROR_NONE
      ensures iat == UpToZero(Items(buffer))
    {
      iat := CollectItems(Items(buffer));
      r := ERROR_NONE;
    }

    /**
     * read(imageLoader): a refused directory leaves the table as it was;
     * otherwise the bytes read at the directory's RVA replace it.
     */
    method Read(img: seq<u8>, oh: OptionalHeader) returns (r: int)
      requires |img| < TWO_32
      modifies this`iat
      ensures r == ERROR_NONE || r == ERROR_INVALID_FILE
      ensures r == ERROR_INVALID_FILE <==> IatRejected(oh)
      ensures IatRejected(oh) ==> iat == old(iat)
      ensures !IatRejected(oh) ==>
        iat == UpToZero(Items(ReadImage(img, DataDirRva(oh, DIR_IAT), DataDirSize(oh, DIR_IAT))))
    {
      var iatRva := DataDirRva(oh, DIR_IAT);
      var iatSize := DataDirSize(oh, DIR_IAT);
      if And32(iatSize, 0xFF00_0000) != 0 {
        return ERROR_INVALID_FILE;
      }
      if iatRva + iatSize >= TWO_32 || iatRva >= oh.SizeOfImage || Add32(iatRva, iatSize) >= oh.SizeOfImage {
        return ERROR_INVALID_FILE;
      }
      var bytes := ReadImage(img, iatRva, iatSize);
      r := ReadBuffer(bytes);
    }

    /** calcNumberOfAddresses: the count, as an unsigned int. */
    function CalcNumberOfAddresses(): (r: u32)
      reads this
      ensures |iat| < TWO_32 ==> r == |iat|
    {
      Trunc32(|iat|)
    }

    /** getAddress; an index past the table is undefined behaviour in the source. */
    function GetAddress(index: nat): (r: u32)
      requires index < |iat|
      reads this
    {
      iat[index]
    }

    /** setAddress: only the given item changes. */
    method SetAddress(index: nat, value: u32)
      requires index < |iat|
      modifies this`iat
      ensures iat == old(iat)[index := value]
    {
      iat := iat[index := value];
    }

    /** addAddress: the value is appended. */
    method AddAddress(value: u32)
      modifies this`iat
      ensures iat == old(iat) + [value]
    {
      iat := iat + [value];
    }

    /** removeAddress: the index-th item goes, the rest keep their order. */
    method RemoveAddress(index: nat)
      requires index < |iat|
      modifies this`iat
      ensures iat == old(iat)[..index] + old(iat)[index + 1..]
    {
      iat := iat[..index] + iat[index + 1..];
    }

    /** clear: the table is emptied. */
    method Clear()
      modifies this`iat
      ensures iat == []
    {
      iat := [];
    }

    /** size(): four bytes an item, as an unsigned int product of the truncated count. */
    function Size(): (r: u32)
      reads this
      ensures 4 * |iat| < TWO_32 ==> r == |Rebuild(iat)|
    {
      Trunc32(Trunc32(|iat|) * 4)
    }
  }
}
