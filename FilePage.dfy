// PELIB_FILE_PAGE: one 4 KiB page of the mapped image, and the byte a
// reader sees at each position of a page.
module FilePages {
  import opened Bytes
  import opened PeAux

  function Zeros(n: nat): (r: seq<u8>)
    ensures |r| == n && forall i :: 0 <= i < n ==> r[i] == 0
  {
    seq(n, _ => 0)
  }

  /** std::vector::resize to a page: truncate, or extend with zero bytes. */
  function Resized(b: seq<u8>): (r: seq<u8>)
    ensures |r| == PAGE_SIZE
    ensures forall i :: 0 <= i < PAGE_SIZE ==> r[i] == if i < |b| then b[i] else 0
  {
    if |b| >= PAGE_SIZE then b[..PAGE_SIZE] else b + Zeros(PAGE_SIZE - |b|)
  }

  /** A page buffer is either not allocated or exactly one page long. */
  predicate IsPageBuffer(b: seq<u8>)
  {
    |b| == 0 || |b| == PAGE_SIZE
  }

  /**
   * The byte readFromPage yields at `offset`: a page without a buffer (an
   * invalid or zero page) reads as zero.
   */
  function PageByte(b: seq<u8>, offset: nat): (r: u8)
    requires IsPageBuffer(b) && offset < PAGE_SIZE
    ensures b == [] ==> r == 0
  {
    if |b| == 0 then 0 else b[offset]
  }

  /** readFromPage: `n` bytes from `offset`, copied from the buffer or, without one, zeros. */
  function ReadFromPage(b: seq<u8>, offset: nat, n: nat): (r: seq<u8>)
    requires IsPageBuffer(b) && offset + n <= PAGE_SIZE
    ensures |r| == n && forall i :: 0 <= i < n ==> r[i] == PageByte(b, offset + i)
  {
    if |b| != 0 then b[offset..offset + n] else Zeros(n)
  }

  class FilePage {
    var buffer: seq<u8>
    var isInvalidPage: bool
    var isZeroPage: bool

    /** A page is never both invalid and a zero page, and its buffer is empty or one page. */
    predicate Valid()
      reads this
    {
      IsPageBuffer(buffer) && !(isInvalidPage && isZeroPage)
    }

    /** A fresh page is invalid: no buffer, and not a zero page. */
    constructor ()
      ensures Valid()
      ensures buffer == [] && isInvalidPage && !isZeroPage
    {
      buffer := [];
      isInvalidPage := true;
      isZeroPage := false;
    }

    /**
     * writeToPage: an offset inside the page allocates the buffer and copies
     * up to the end of the page; an offset past the page changes nothing.
     */
    method WriteToPage(data: seq<u8>, offset: nat, length: nat)
      requires offset < PAGE_SIZE ==> (if offset + length > PAGE_SIZE then PAGE_SIZE - offset else length) <= |data|
      requires Valid()
      modifies this`buffer
      ensures Valid()
      ensures offset >= PAGE_SIZE ==> buffer == old(buffer)
      ensures offset < PAGE_SIZE ==>
        var n := if offset + length > PAGE_SIZE then PAGE_SIZE - offset else length;
        |buffer| == PAGE_SIZE &&
        buffer[offset..offset + n] == data[..n] &&
        (forall i :: 0 <= i < PAGE_SIZE && !(offset <= i < offset + n) ==> buffer[i] == Resized(old(buffer))[i])
    {
      if offset < PAGE_SIZE {
        if |buffer| != PAGE_SIZE {
          buffer := Resized(buffer);
        }
        var n := length;
        if offset + n > PAGE_SIZE {
          n := PAGE_SIZE - offset;
        }
        buffer := buffer[..offset] + data[..n] + buffer[offset + n..];
      }
    }

    /**
     * setValidPage: the page holds `data[..length]` followed by zeros, and is
     * valid and not a zero page.
     */
    method SetValidPage(data: seq<u8>, length: nat) returns (r: bool)
      requires length <= PAGE_SIZE && length <= |data|
      requires Valid()
      modifies this
      ensures Valid()
      ensures buffer == data[..length] + Zeros(PAGE_SIZE - length)
      ensures !isInvalidPage && !isZeroPage && r
    {
      WriteToPage(data, 0, length);
      buffer := buffer[..length] + Zeros(PAGE_SIZE - length);
      isInvalidPage := false;
      isZeroPage := false;
      r := true;
    }

    /** setZeroPage: the buffer is released and the page reads as zeros. */
    method SetZeroPage()
      modifies this
      ensures Valid()
      ensures buffer == [] && !isInvalidPage && isZeroPage
    {
      buffer := [];
      isInvalidPage := false;
      isZeroPage := true;
    }
  }

  /** After setValidPage, each byte of the page reads as the data given, or zero past its length. */
  lemma ValidPageContents(data: seq<u8>, length: nat, offset: nat)
    requires length <= PAGE_SIZE && length <= |data| && offset < PAGE_SIZE
    ensures PageByte(data[..length] + Zeros(PAGE_SIZE - length), offset) == if offset < length then data[offset] else 0
  {
  }
}
