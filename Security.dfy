// SecurityDirectory: the attribute certificate table (section 5.2 of the
// Microsoft PE/COFF Specification), read from the file at a file offset.
module SecurityDirectories {
  import opened Bytes
  import opened PeAux
  import opened LoaderErrors

  const WIN_CERT_REVISION_1_0: u16 := 0x100
  const WIN_CERT_REVISION_2_0: u16 := 0x200
  const WIN_CERT_TYPE_PKCS_SIGNED_DATA: u16 := 2

  /** One certificate: its 8-byte header and the Length - 8 bytes after it. */
  datatype Certificate = Certificate(Length: u32, Revision: u16, CertificateType: u16, payload: seq<u8>)

  /** How the certificate walk ended: the table used up, a rejected header, or a read past the table. */
  datatype WalkEnd = Complete | BadHeader | PastEnd

  datatype Walk = Walk(certs: seq<Certificate>, end: WalkEnd)

  /** The header checks: Length beyond the header, a known revision, PKCS signed data. */
  predicate HeaderAccepted(length: u32, revision: u16, certType: u16)
  {
    length > CERTIFICATE_ENTRY_SIZE &&
    (revision == WIN_CERT_REVISION_1_0 || revision == WIN_CERT_REVISION_2_0) &&
    certType == WIN_CERT_TYPE_PKCS_SIGNED_DATA
  }

  /** The sum of the certificates' lengths. */
  function TotalLength(certs: seq<Certificate>): nat
  {
    if certs == [] then 0 else certs[0].Length as nat + TotalLength(certs[1..])
  }

  /**
   * The walk from offset `at` of the table: a header, then its payload,
   * until the offset reaches the table's end. Reading a header or a payload
   * that does not fit in the table is undefined behaviour in the source;
   * the walk stops there with PastEnd.
   */
  function Certificates(dir: seq<u8>, at: nat): (w: Walk)
    ensures at + TotalLength(w.certs) <= |dir| || (w.certs == [] && w.end == Complete)
    decreases |dir| - at, 2
  {
    if at >= |dir| then Walk([], Complete) else CertificatesFrom(dir, at)
  }

  /** The walk from an offset inside the table: the header must fit. */
  function CertificatesFrom(dir: seq<u8>, at: nat): (w: Walk)
    requires at < |dir|
    ensures at + TotalLength(w.certs) <= |dir|
    decreases |dir| - at, 1
  {
    if at + CERTIFICATE_ENTRY_SIZE > |dir| then Walk([], PastEnd) else CertificatesAtHeader(dir, at)
  }

  /** The walk from a header that fits: it must pass the checks and its payload must fit. */
  function CertificatesAtHeader(dir: seq<u8>, at: nat): (w: Walk)
    requires at + CERTIFICATE_ENTRY_SIZE <= |dir|
    ensures at + TotalLength(w.certs) <= |dir|
    decreases |dir| - at, 0
  {
    var length := U32At(dir, at);
    var revision := U16At(dir, at + 4);
    var certType := U16At(dir, at + 6);
    if !HeaderAccepted(length, revision, certType) then Walk([], BadHeader)
    else if at + length > |dir| then Walk([], PastEnd)
    else
      var c := Certificate(length, revision, certType, dir[at + CERTIFICATE_ENTRY_SIZE..at + length]);
      var rest := Certificates(dir, at + length);
      assert ([c] + rest.certs)[1..] == rest.certs;
      Walk([c] + rest.certs, rest.end)
  }

  /** The walk from a header that fits is the walk from that header. */
  lemma CertificatesUnfold(dir: seq<u8>, at: nat)
    requires at + CERTIFICATE_ENTRY_SIZE <= |dir|
    ensures Certificates(dir, at) == CertificatesAtHeader(dir, at)
  {
    assert CertificatesFrom(dir, at) == CertificatesAtHeader(dir, at);
  }

  /** A table walked to its end is tiled exactly by the certificates: their lengths add up to the table's size. */
  lemma {:induction false} CompleteWalkTiles(dir: seq<u8>, at: nat)
    requires at <= |dir| && Certificates(dir, at).end == Complete
    ensures at + TotalLength(Certificates(dir, at).certs) == |dir|
    decreases |dir| - at
  {
    if at < |dir| {
      CertificatesUnfold(dir, at);
      var length := U32At(dir, at);
      CompleteWalkTiles(dir, at + length);
      var rest := Certificates(dir, at + length).certs;
      assert Certificates(dir, at).certs[1..] == rest;
    }
  }

  /** Every certificate walked passed the header checks and holds Length - 8 payload bytes. */
  lemma {:induction false} WalkedCertificatesAccepted(dir: seq<u8>, at: nat, i: nat)
    requires i < |Certificates(dir, at).certs|
    ensures var c := Certificates(dir, at).certs[i];
      HeaderAccepted(c.Length, c.Revision, c.CertificateType) &&
      |c.payload| == c.Length as int - CERTIFICATE_ENTRY_SIZE
    decreases i
  {
    CertificatesUnfold(dir, at);
    if i > 0 {
      var length := U32At(dir, at);
      WalkedCertificatesAccepted(dir, at + length, i - 1);
      assert Certificates(dir, at).certs[i] == Certificates(dir, at + length).certs[i - 1];
    }
  }

  /** A certificate laid out again: its header fields, then its payload. */
  function EncodeCertificate(c: Certificate): (r: seq<u8>)
  {
    Enc32(c.Length) + Enc16(c.Revision) + Enc16(c.CertificateType) + c.payload
  }

  function EncodeCertificates(certs: seq<Certificate>): seq<u8>
  {
    if certs == [] then [] else EncodeCertificate(certs[0]) + EncodeCertificates(certs[1..])
  }

  /** The eight header bytes are the three fields read from them. */
  lemma HeaderBytes(dir: seq<u8>, at: nat)
    requires at + CERTIFICATE_ENTRY_SIZE <= |dir|
    ensures dir[at..at + 8] == Enc32(U32At(dir, at)) + Enc16(U16At(dir, at + 4)) + Enc16(U16At(dir, at + 6))
  {
    Enc32Dec32(dir, at);
    Enc16Dec16(dir, at + 4);
    Enc16Dec16(dir, at + 6);
    assert dir[at..at + 8] == dir[at..at + 4] + dir[at + 4..at + 6] + dir[at + 6..at + 8];
  }

  /** A table walked to its end is its certificates laid out one after another. */
  lemma {:induction false} CompleteWalkReencodes(dir: seq<u8>, at: nat)
    requires at <= |dir| && Certificates(dir, at).end == Complete
    ensures EncodeCertificates(Certificates(dir, at).certs) == dir[at..]
    decreases |dir| - at
  {
    if at < |dir| {
      CertificatesUnfold(dir, at);
      var length := U32At(dir, at);
      CompleteWalkReencodes(dir, at + length);
      var w := Certificates(dir, at);
      assert w.certs[1..] == Certificates(dir, at + length).certs;
      HeaderBytes(dir, at);
      assert dir[at..] == dir[at..at + 8] + dir[at + 8..at + length] + dir[at + length..];
    }
  }

  /** One step of the walk that keeps a certificate: it is the header and payload at `at`, and the walk goes on after it. */
  lemma WalkStep(dir: seq<u8>, at: nat, c: Certificate)
    requires at + CERTIFICATE_ENTRY_SIZE <= |dir|
    requires c.Length == U32At(dir, at) && c.Revision == U16At(dir, at + 4) && c.CertificateType == U16At(dir, at + 6)
    requires HeaderAccepted(c.Length, c.Revision, c.CertificateType) && at + c.Length <= |dir|
    requires c.payload == dir[at + CERTIFICATE_ENTRY_SIZE..at + c.Length]
    ensures Certificates(dir, at).certs == [c] + Certificates(dir, at + c.Length).certs
    ensures Certificates(dir, at).end == Certificates(dir, at + c.Length).end
  {
    CertificatesUnfold(dir, at);
  }

  /**
   * One pass of read's loop at offset `at`: the certificate there, or how the
   * walk ends when its header does not fit, is refused, or its payload does
   * not fit.
   */
  method ReadCertificate(dir: seq<u8>, at: nat) returns (c: Option<Certificate>, end: WalkEnd)
    requires at < |dir|
    ensures c.None? ==> Certificates(dir, at) == Walk([], end)
    ensures c.Some? ==> c.value.Length > CERTIFICATE_ENTRY_SIZE && at + c.value.Length <= |dir|
    ensures c.Some? ==> Certificates(dir, at).certs == [c.value] + Certificates(dir, at + c.value.Length).certs
    ensures c.Some? ==> Certificates(dir, at).end == Certificates(dir, at + c.value.Length).end
  {
    end := Complete;
    if at + CERTIFICATE_ENTRY_SIZE > |dir| {
      return None, PastEnd;
    }
    CertificatesUnfold(dir, at);
    var length := U32At(dir, at);
    var revision := U16At(dir, at + 4);
    var certType := U16At(dir, at + 6);
    if !HeaderAccepted(length, revision, certType) {
      return None, BadHeader;
    }
    if at + length > |dir| {
      return None, PastEnd;
    }
    var cert := Certificate(length, revision, certType, dir[at + CERTIFICATE_ENTRY_SIZE..at + length]);
    WalkStep(dir, at, cert);
    c := Some(cert);
  }

  /** read's loop: headers and payloads in turn while the bytes read stay below the table's size. */
  method WalkCertificates(dir: seq<u8>) returns (found: seq<Certificate>, end: WalkEnd)
    requires |dir| < TWO_32
    ensures Walk(found, end) == Certificates(dir, 0)
  {
    ghost var all := Certificates(dir, 0);
    found := [];
    var bytesRead: nat := 0;
    while bytesRead < |dir|
      invariant found + Certificates(dir, bytesRead).certs == all.certs
      invariant Certificates(dir, bytesRead).end == all.end
      decreases |dir| - bytesRead
    {
      var c, e := ReadCertificate(dir, bytesRead);
      if c.None? {
        assert found + [] == found;
        return found, e;
      }
      assert found + Certificates(dir, bytesRead).certs ==
        (found + [c.value]) + Certificates(dir, bytesRead + c.value.Length).certs;
      found := found + [c.value];
      bytesRead := bytesRead + c.value.Length;
    }
    assert found + [] == found;
    end := Complete;
  }

  /** The file-size check as written: the end is the unsigned int sum offset + size, which can wrap. */
  predicate CutAsWritten(fileSize: nat, offset: u32, size: u32)
  {
    fileSize < Add32(offset, size)
  }

  /** The file-size check as intended: the table must end inside the file. */
  predicate DirectoryCut(fileSize: nat, offset: u32, size: u32)
  {
    fileSize < offset + size
  }

  /** A table that runs past the end of a 256-byte file passes the check as written. */
  lemma CutAsWrittenMissesWrap()
    ensures !CutAsWritten(0x100, 0xFFFF_FFF0, 0x20) && DirectoryCut(0x100, 0xFFFF_FFF0, 0x20)
  {
  }

  /** The stored size as written: read assigns the member to itself, so it keeps its value. */
  function StoredSizeAsWritten(previous: u64, uiSize: u32): u64
  {
    previous
  }

  /** After the first successful read, getSize as written reports 0 for every non-empty table. */
  lemma StoredSizeAsWrittenIgnoresRead(uiSize: u32)
    requires uiSize > 0
    ensures StoredSizeAsWritten(0, uiSize) != uiSize as u64
  {
  }

  class SecurityDirectory {
    var ldrError: LoaderError
    var certs: seq<Certificate>
    var offset: u64
    var size: u64

    constructor ()
      ensures ldrError == LDR_ERROR_NONE && certs == [] && offset == 0 && size == 0
    {
      ldrError := LDR_ERROR_NONE;
      certs := [];
      offset := 0;
      size := 0;
    }

    /**
     * read: the loader error is reset; a table past the end of the file or
     * made only of zero bytes (an empty one included) is refused with its
     * loader error; otherwise the certificates walked are appended to those
     * already held, and the read succeeds only if the walk used up the table.
     */
    method Read(fileData: seq<u8>, uiOffset: u32, uiSize: u32) returns (r: int)
      modifies this
      ensures r == ERROR_NONE || r == ERROR_INVALID_FILE
      ensures DirectoryCut(|fileData|, uiOffset, uiSize) ==>
        r == ERROR_INVALID_FILE && ldrError == LDR_ERROR_DIGITAL_SIGNATURE_CUT &&
        certs == old(certs) && offset == old(offset) && size == old(size)
      ensures !DirectoryCut(|fileData|, uiOffset, uiSize) ==>
        var dir := fileData[uiOffset..uiOffset + uiSize];
        ((forall i :: 0 <= i < |dir| ==> dir[i] == 0) ==>
          r == ERROR_INVALID_FILE && ldrError == LDR_ERROR_DIGITAL_SIGNATURE_ZEROED &&
          certs == old(certs) && offset == old(offset) && size == old(size)) &&
        ((exists i :: 0 <= i < |dir| && dir[i] != 0) ==>
          ldrError == LDR_ERROR_NONE &&
          certs == old(certs) + Certificates(dir, 0).certs &&
          (r == ERROR_NONE <==> Certificates(dir, 0).end == Complete) &&
          (r == ERROR_NONE ==> offset == uiOffset as u64 && size == uiSize as u64) &&
          (r != ERROR_NONE ==> offset == old(offset) && size == old(size)))
    {
      ldrError := LDR_ERROR_NONE;
      if |fileData| < uiOffset + uiSize {
        ldrError := LDR_ERROR_DIGITAL_SIGNATURE_CUT;
        return ERROR_INVALID_FILE;
      }
      var dir := fileData[uiOffset..uiOffset + uiSize];
      if forall i :: 0 <= i < |dir| ==> dir[i] == 0 {
        ldrError := LDR_ERROR_DIGITAL_SIGNATURE_ZEROED;
        return ERROR_INVALID_FILE;
      }
      var found, end := WalkCertificates(dir);
      certs := certs + found;
      if end != Complete {
        return ERROR_INVALID_FILE;
      }
      offset := uiOffset as u64;
      size := uiSize as u64;
      r := ERROR_NONE;
    }

    /** calcNumberOfCertificates: the count, as an unsigned int. */
    function CalcNumberOfCertificates(): (r: u32)
      reads this
      ensures |certs| < TWO_32 ==> r == |certs|
    {
      Trunc32(|certs|)
    }
  }
}
