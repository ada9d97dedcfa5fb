// BoundImportDirectory: the table of bound import descriptors, each an
// 8-byte record (TimeDateStamp, OffsetModuleName,
// NumberOfModuleForwarderRefs) followed by its forwarder records, ended by an
// all-zero record, with the module names stored after the table.
module BoundImports {
  import opened Bytes
  import opened PeAux
  import opened LoaderErrors
  import opened ImageLoader
  import opened FilePages

  /** The descriptor at `pos`, as the InputBuffer reads it, without name or forwarders. */
  function DescriptorAt(buf: seq<u8>, pos: nat): (d: BoundDirectory)
    requires pos + BOUND_IMPORT_DESCRIPTOR_SIZE <= |buf|
    ensures d.strModuleName == [] && d.moduleForwarders == []
  {
    BoundDirectory(BoundImportDescriptor(U32At(buf, pos), U16At(buf, pos + 4), U16At(buf, pos + 6)), [], [])
  }

  predicate IsTerminator(d: BoundDirectory)
  {
    d.ibdDescriptor.TimeDateStamp == 0 && d.ibdDescriptor.OffsetModuleName == 0 && d.ibdDescriptor.NumberOfModuleForwarderRefs == 0
  }

  // ---------------------------------------------------------------------
  // read(inpBuffer, data, dwSize): the descriptor loop
  // ---------------------------------------------------------------------

  /**
   * The forwarder records of one descriptor: each is read only when it ends
   * strictly before the buffer does.
   */
  function Forwarders(buf: seq<u8>, pos: nat, count: nat): (r: Option<seq<BoundDirectory>>)
    ensures r.Some? ==> |r.value| == count && (count == 0 || pos + BOUND_IMPORT_DESCRIPTOR_SIZE * count < |buf|)
    decreases count
  {
    if count == 0 then Some([])
    else if pos + BOUND_IMPORT_DESCRIPTOR_SIZE >= |buf| then None
    else Prepend([DescriptorAt(buf, pos)], Forwarders(buf, pos + BOUND_IMPORT_DESCRIPTOR_SIZE, count - 1))
  }

  /**
   * The descriptors from `pos` on: reading one fails unless it ends strictly
   * before the buffer does, and the all-zero descriptor ends the table.
   */
  function Descriptors(buf: seq<u8>, pos: nat): (r: Option<seq<BoundDirectory>>)
    decreases |buf| - pos, 1
  {
    if pos + BOUND_IMPORT_DESCRIPTOR_SIZE >= |buf| then None
    else DescriptorsAt(buf, pos, DescriptorAt(buf, pos))
  }

  /** The table from the descriptor `d` read at `pos`. */
  function DescriptorsAt(buf: seq<u8>, pos: nat, d: BoundDirectory): (r: Option<seq<BoundDirectory>>)
    requires pos + BOUND_IMPORT_DESCRIPTOR_SIZE < |buf|
    decreases |buf| - pos, 0
  {
    if IsTerminator(d) then Some([])
    else
      var f := Forwarders(buf, pos + BOUND_IMPORT_DESCRIPTOR_SIZE, d.ibdDescriptor.NumberOfModuleForwarderRefs);
      if f.None? then None
      else Prepend([d.(moduleForwarders := f.value)],
                   Descriptors(buf, pos + BOUND_IMPORT_DESCRIPTOR_SIZE + BOUND_IMPORT_DESCRIPTOR_SIZE * |f.value|))
  }

  /** The record bytes of a descriptor. */
  function EncodeDescriptor(d: BoundDirectory): (r: seq<u8>)
    ensures |r| == BOUND_IMPORT_DESCRIPTOR_SIZE
  {
    Enc32(d.ibdDescriptor.TimeDateStamp) + Enc16(d.ibdDescriptor.OffsetModuleName) + Enc16(d.ibdDescriptor.NumberOfModuleForwarderRefs)
  }

  function EncodeDescriptors(fs: seq<BoundDirectory>): (r: seq<u8>)
    ensures |r| == BOUND_IMPORT_DESCRIPTOR_SIZE * |fs|
  {
    if fs == [] then [] else EncodeDescriptor(fs[0]) + EncodeDescriptors(fs[1..])
  }

  /** The descriptor table of a module list: each descriptor followed by its forwarders. */
  function EncodeTable(ms: seq<BoundDirectory>): seq<u8>
    decreases |ms|, 2
  {
    if ms == [] then [] else EncodeTableFrom(ms)
  }

  /** The table of a non-empty module list: its first module, then the others. */
  function EncodeTableFrom(ms: seq<BoundDirectory>): seq<u8>
    requires ms != []
    decreases |ms|, 1
  {
    EncodeModuleThen(ms[0], ms[1..])
  }

  /** A module's descriptor and forwarders, then the table of the modules after it. */
  function EncodeModuleThen(m: BoundDirectory, rest: seq<BoundDirectory>): seq<u8>
    decreases |rest| + 1, 0
  {
    EncodeDescriptor(m) + EncodeDescriptors(m.moduleForwarders) + EncodeTable(rest)
  }

  /** A descriptor read from the buffer encodes back to the bytes it was read from. */
  lemma DescriptorReencodes(buf: seq<u8>, pos: nat)
    requires pos + BOUND_IMPORT_DESCRIPTOR_SIZE <= |buf|
    ensures EncodeDescriptor(DescriptorAt(buf, pos)) == buf[pos..pos + BOUND_IMPORT_DESCRIPTOR_SIZE]
  {
    Enc32Dec32(buf, pos);
    Enc16Dec16(buf, pos + 4);
    Enc16Dec16(buf, pos + 6);
    assert buf[pos..pos + 8] == buf[pos..pos + 4] + buf[pos + 4..pos + 6] + buf[pos + 6..pos + 8];
  }

  lemma {:induction false} ForwardersReencode(buf: seq<u8>, pos: nat, count: nat)
    requires pos <= |buf| && Forwarders(buf, pos, count).Some?
    ensures var fs := Forwarders(buf, pos, count).value;
      pos + BOUND_IMPORT_DESCRIPTOR_SIZE * count <= |buf| &&
      EncodeDescriptors(fs) == buf[pos..pos + BOUND_IMPORT_DESCRIPTOR_SIZE * count] &&
      forall j :: 0 <= j < |fs| ==> fs[j].moduleForwarders == []
    decreases count
  {
    if count > 0 {
      var fs := Forwarders(buf, pos, count).value;
      var rest := Forwarders(buf, pos + 8, count - 1).value;
      assert fs == [DescriptorAt(buf, pos)] + rest;
      assert fs[1..] == rest;
      ForwardersReencode(buf, pos + 8, count - 1);
      DescriptorReencodes(buf, pos);
      assert buf[pos..pos + 8 * count] == buf[pos..pos + 8] + buf[pos + 8..pos + 8 + 8 * (count - 1)];
    }
  }

  /** A stored module is no terminator and holds as many forwarders, themselves without any, as its descriptor says. */
  predicate ModuleWellFormed(m: BoundDirectory)
  {
    !IsTerminator(m) && |m.moduleForwarders| == m.ibdDescriptor.NumberOfModuleForwarderRefs &&
    forall j :: 0 <= j < |m.moduleForwarders| ==> m.moduleForwarders[j].moduleForwarders == []
  }

  predicate ModulesWellFormed(ms: seq<BoundDirectory>)
  {
    forall k :: 0 <= k < |ms| ==> ModuleWellFormed(ms[k])
  }

  /**
   * The buffer holds, from `pos`, the encoding of `ms` followed by an
   * all-zero record that ends strictly before the buffer does.
   */
  predicate TableAt(buf: seq<u8>, pos: nat, ms: seq<BoundDirectory>)
  {
    var e := EncodeTable(ms);
    pos + |e| + BOUND_IMPORT_DESCRIPTOR_SIZE < |buf| && buf[pos..pos + |e|] == e &&
    buf[pos + |e|..pos + |e| + BOUND_IMPORT_DESCRIPTOR_SIZE] == Zeros(BOUND_IMPORT_DESCRIPTOR_SIZE) &&
    ModulesWellFormed(ms)
  }

  lemma TableEmpty(buf: seq<u8>, pos: nat)
    requires pos + BOUND_IMPORT_DESCRIPTOR_SIZE < |buf|
    requires IsTerminator(DescriptorAt(buf, pos))
    ensures TableAt(buf, pos, [])
  {
    DescriptorReencodes(buf, pos);
    assert EncodeDescriptor(DescriptorAt(buf, pos)) == Zeros(8);
  }

  /** The table of a non-empty module list: the first module's records, then the rest's table. */
  lemma EncodeTableCons(m: BoundDirectory, rest: seq<BoundDirectory>)
    ensures EncodeTable([m] + rest) == EncodeDescriptor(m) + EncodeDescriptors(m.moduleForwarders) + EncodeTable(rest)
  {
    assert ([m] + rest)[1..] == rest;
    assert EncodeTableFrom([m] + rest) == EncodeModuleThen(m, rest);
  }

  /** Two adjacent slices of the buffer make up the slice across both. */
  lemma AdjacentSlices(buf: seq<u8>, a: nat, b: nat, c: nat)
    requires a <= b <= c <= |buf|
    ensures buf[a..c] == buf[a..b] + buf[b..c]
  {
  }

  /** Adding a well-formed module in front keeps a list well formed. */
  lemma ModulesWellFormedCons(m: BoundDirectory, rest: seq<BoundDirectory>)
    requires ModuleWellFormed(m) && ModulesWellFormed(rest)
    ensures ModulesWellFormed([m] + rest)
  {
    var ms := [m] + rest;
    forall k | 0 <= k < |ms|
      ensures ModuleWellFormed(ms[k])
    {
      if k > 0 {
        assert ms[k] == rest[k - 1];
      }
    }
  }

  lemma TableCons(buf: seq<u8>, pos: nat, m: BoundDirectory, rest: seq<BoundDirectory>)
    requires pos + BOUND_IMPORT_DESCRIPTOR_SIZE + BOUND_IMPORT_DESCRIPTOR_SIZE * |m.moduleForwarders| <= |buf|
    requires EncodeDescriptor(m) == buf[pos..pos + BOUND_IMPORT_DESCRIPTOR_SIZE]
    requires EncodeDescriptors(m.moduleForwarders) ==
      buf[pos + BOUND_IMPORT_DESCRIPTOR_SIZE..pos + BOUND_IMPORT_DESCRIPTOR_SIZE + BOUND_IMPORT_DESCRIPTOR_SIZE * |m.moduleForwarders|]
    requires TableAt(buf, pos + BOUND_IMPORT_DESCRIPTOR_SIZE + BOUND_IMPORT_DESCRIPTOR_SIZE * |m.moduleForwarders|, rest)
    requires ModuleWellFormed(m)
    ensures TableAt(buf, pos, [m] + rest)
  {
    var next := pos + 8 + 8 * |m.moduleForwarders|;
    AdjacentSlices(buf, pos, pos + 8, next);
    EncodeTableCons(m, rest);
    TableBytesCons(buf, pos, EncodeDescriptor(m) + EncodeDescriptors(m.moduleForwarders), EncodeTable(rest));
    ModulesWellFormedCons(m, rest);
  }

  /** A module's bytes at `pos` followed by the rest's table and its terminator make up the whole table and terminator. */
  lemma TableBytesCons(buf: seq<u8>, pos: nat, head: seq<u8>, tail: seq<u8>)
    requires pos + |head| + |tail| + BOUND_IMPORT_DESCRIPTOR_SIZE < |buf|
    requires buf[pos..pos + |head|] == head && buf[pos + |head|..pos + |head| + |tail|] == tail
    ensures buf[pos..pos + |head + tail|] == head + tail
    ensures buf[pos + |head + tail|..pos + |head + tail| + BOUND_IMPORT_DESCRIPTOR_SIZE] ==
      buf[pos + |head| + |tail|..pos + |head| + |tail| + BOUND_IMPORT_DESCRIPTOR_SIZE]
  {
    AdjacentSlices(buf, pos, pos + |head|, pos + |head| + |tail|);
  }

  /** A table that parses re-encodes to the bytes it was read from, up to its all-zero record. */
  lemma {:induction false} DescriptorsReencode(buf: seq<u8>, pos: nat)
    requires Descriptors(buf, pos).Some?
    ensures TableAt(buf, pos, Descriptors(buf, pos).value)
    decreases |buf| - pos
  {
    var d := DescriptorAt(buf, pos);
    assert Descriptors(buf, pos) == DescriptorsAt(buf, pos, d);
    DescriptorReencodes(buf, pos);
    if IsTerminator(d) {
      TableEmpty(buf, pos);
    } else {
      var count := d.ibdDescriptor.NumberOfModuleForwarderRefs;
      var fs := Forwarders(buf, pos + 8, count).value;
      var next := pos + 8 + 8 * |fs|;
      var m := d.(moduleForwarders := fs);
      assert DescriptorsAt(buf, pos, d) == Prepend([m], Descriptors(buf, next));
      var rest := Descriptors(buf, next).value;
      ForwardersReencode(buf, pos + 8, count);
      DescriptorsReencode(buf, next);
      assert EncodeDescriptor(m) == EncodeDescriptor(d);
      TableCons(buf, pos, m, rest);
      assert Descriptors(buf, pos).value == [m] + rest;
    }
  }

  // ---------------------------------------------------------------------
  // read(inpBuffer, data, dwSize): the name loop
  // ---------------------------------------------------------------------

  /** A module name: the bytes from its offset up to the first NUL or the end of the buffer. */
  function NameAt(buf: seq<u8>, omn: nat): (r: seq<u8>)
    requires omn <= |buf|
    ensures omn + |r| <= |buf| && r == buf[omn..omn + |r|] && NoNul(r)
    ensures omn + |r| == |buf| || buf[omn + |r|] == 0
  {
    CString(buf[omn..])
  }

  function NamedForwarders(buf: seq<u8>, fs: seq<BoundDirectory>): (r: Option<seq<BoundDirectory>>)
  {
    if fs == [] then Some([])
    else if fs[0].ibdDescriptor.OffsetModuleName > |buf| then None
    else Prepend([fs[0].(strModuleName := NameAt(buf, fs[0].ibdDescriptor.OffsetModuleName))], NamedForwarders(buf, fs[1..]))
  }

  function NamedModule(buf: seq<u8>, m: BoundDirectory): Option<BoundDirectory>
  {
    if m.ibdDescriptor.OffsetModuleName > |buf| then None
    else
      var fs := NamedForwarders(buf, m.moduleForwarders);
      if fs.None? then None
      else Some(m.(strModuleName := NameAt(buf, m.ibdDescriptor.OffsetModuleName), moduleForwarders := fs.value))
  }

  function NamedModules(buf: seq<u8>, ms: seq<BoundDirectory>): (r: Option<seq<BoundDirectory>>)
  {
    if ms == [] then Some([])
    else
      var m := NamedModule(buf, ms[0]);
      if m.None? then None else Prepend([m.value], NamedModules(buf, ms[1..]))
  }

  /** read(inpBuffer, data, dwSize): the descriptor table, then its names; None for ERROR_INVALID_FILE. */
  function ReadTable(buf: seq<u8>): Option<seq<BoundDirectory>>
  {
    var ms := Descriptors(buf, 0);
    if ms.None? then None else NamedModules(buf, ms.value)
  }

  /** Every name offset of a module, its forwarders' included, lies within the buffer (the end counts). */
  predicate OffsetsInBuffer(buf: seq<u8>, m: BoundDirectory)
  {
    m.ibdDescriptor.OffsetModuleName <= |buf| &&
    forall j :: 0 <= j < |m.moduleForwarders| ==> m.moduleForwarders[j].ibdDescriptor.OffsetModuleName <= |buf|
  }

  /** A descriptor with its name, and its forwarders' names, looked up in the buffer. */
  function WithName(buf: seq<u8>, d: BoundDirectory): BoundDirectory
    requires d.ibdDescriptor.OffsetModuleName <= |buf|
  {
    d.(strModuleName := NameAt(buf, d.ibdDescriptor.OffsetModuleName))
  }

  predicate NamedAs(buf: seq<u8>, m: BoundDirectory, r: BoundDirectory)
    requires OffsetsInBuffer(buf, m)
  {
    r.ibdDescriptor == m.ibdDescriptor &&
    r.strModuleName == NameAt(buf, m.ibdDescriptor.OffsetModuleName) &&
    |r.moduleForwarders| == |m.moduleForwarders| &&
    forall j :: 0 <= j < |m.moduleForwarders| ==> r.moduleForwarders[j] == WithName(buf, m.moduleForwarders[j])
  }

  lemma {:induction false} NamedForwardersMeaning(buf: seq<u8>, fs: seq<BoundDirectory>)
    ensures NamedForwarders(buf, fs).Some? <==> forall j :: 0 <= j < |fs| ==> fs[j].ibdDescriptor.OffsetModuleName <= |buf|
    ensures NamedForwarders(buf, fs).Some? ==>
      |NamedForwarders(buf, fs).value| == |fs| &&
      forall j :: 0 <= j < |fs| ==> NamedForwarders(buf, fs).value[j] == WithName(buf, fs[j])
    decreases |fs|
  {
    if fs != [] {
      NamedForwardersMeaning(buf, fs[1..]);
      if fs[0].ibdDescriptor.OffsetModuleName <= |buf| && NamedForwarders(buf, fs[1..]).Some? {
        var r := NamedForwarders(buf, fs).value;
        var rest := NamedForwarders(buf, fs[1..]).value;
        assert r == [WithName(buf, fs[0])] + rest;
        forall j | 0 <= j < |fs| ensures r[j] == WithName(buf, fs[j]) {
          if j > 0 { assert r[j] == rest[j - 1] && fs[1..][j - 1] == fs[j]; }
        }
      }
      if !(forall j :: 0 <= j < |fs| ==> fs[j].ibdDescriptor.OffsetModuleName <= |buf|) {
        var j :| 0 <= j < |fs| && fs[j].ibdDescriptor.OffsetModuleName > |buf|;
        if j > 0 { assert fs[1..][j - 1] == fs[j]; }
      }
    }
  }

  /** The name loop fails exactly when some offset lies past the buffer, and otherwise names every module and forwarder. */
  lemma {:induction false} NamedModulesMeaning(buf: seq<u8>, ms: seq<BoundDirectory>)
    ensures NamedModules(buf, ms).Some? <==> forall k :: 0 <= k < |ms| ==> OffsetsInBuffer(buf, ms[k])
    ensures NamedModules(buf, ms).Some? ==>
      |NamedModules(buf, ms).value| == |ms| &&
      forall k :: 0 <= k < |ms| ==> OffsetsInBuffer(buf, ms[k]) && NamedAs(buf, ms[k], NamedModules(buf, ms).value[k])
    decreases |ms|
  {
    if ms != [] {
      NamedForwardersMeaning(buf, ms[0].moduleForwarders);
      NamedModulesMeaning(buf, ms[1..]);
      var m := NamedModule(buf, ms[0]);
      if m.Some? && NamedModules(buf, ms[1..]).Some? {
        var r := NamedModules(buf, ms).value;
        var rest := NamedModules(buf, ms[1..]).value;
        assert r == [m.value] + rest;
        forall k | 0 <= k < |ms| ensures OffsetsInBuffer(buf, ms[k]) && NamedAs(buf, ms[k], r[k]) {
          if k > 0 { assert r[k] == rest[k - 1] && ms[1..][k - 1] == ms[k]; }
        }
      }
      if !(forall k :: 0 <= k < |ms| ==> OffsetsInBuffer(buf, ms[k])) {
        var k :| 0 <= k < |ms| && !OffsetsInBuffer(buf, ms[k]);
        if k > 0 { assert ms[1..][k - 1] == ms[k]; }
      }
    }
  }

  // ---------------------------------------------------------------------
  // The loops of read(inpBuffer, data, dwSize)
  // ---------------------------------------------------------------------

  method ParseForwarders(buf: seq<u8>, pos: nat, count: nat) returns (r: Option<seq<BoundDirectory>>)
    ensures r == Forwarders(buf, pos, count)
  {
    var acc: seq<BoundDirectory> := [];
    PrependNil(Forwarders(buf, pos, count));
    var i := 0;
    while i < count
      invariant i <= count
      invariant Forwarders(buf, pos, count) == Prepend(acc, Forwarders(buf, pos + BOUND_IMPORT_DESCRIPTOR_SIZE * i, count - i))
    {
      var at := pos + BOUND_IMPORT_DESCRIPTOR_SIZE * i;
      if at + BOUND_IMPORT_DESCRIPTOR_SIZE >= |buf| {
        return None;
      }
      PrependPrepend(acc, [DescriptorAt(buf, at)], Forwarders(buf, at + BOUND_IMPORT_DESCRIPTOR_SIZE, count - i - 1));
      acc := acc + [DescriptorAt(buf, at)];
      i := i + 1;
    }
    assert acc + [] == acc;
    r := Some(acc);
  }

  method ParseDescriptors(buf: seq<u8>) returns (r: Option<seq<BoundDirectory>>)
    ensures r == Descriptors(buf, 0)
  {
    var acc: seq<BoundDirectory> := [];
    PrependNil(Descriptors(buf, 0));
    var pos := 0;
    while true
      invariant pos <= |buf|
      invariant Descriptors(buf, 0) == Prepend(acc, Descriptors(buf, pos))
      decreases |buf| - pos
    {
      if pos + BOUND_IMPORT_DESCRIPTOR_SIZE >= |buf| {
        return None;
      }
      var d := DescriptorAt(buf, pos);
      if IsTerminator(d) {
        assert acc + [] == acc;
        return Some(acc);
      }
      var f := ParseForwarders(buf, pos + BOUND_IMPORT_DESCRIPTOR_SIZE, d.ibdDescriptor.NumberOfModuleForwarderRefs);
      if f.None? {
        return None;
      }
      var next := pos + BOUND_IMPORT_DESCRIPTOR_SIZE + BOUND_IMPORT_DESCRIPTOR_SIZE * |f.value|;
      PrependPrepend(acc, [d.(moduleForwarders := f.value)], Descriptors(buf, next));
      acc := acc + [d.(moduleForwarders := f.value)];
      pos := next;
    }
  }

  /** The byte loop that copies a name: up to the first NUL or the end of the buffer. */
  method ReadName(buf: seq<u8>, omn: nat) returns (name: seq<u8>)
    requires omn <= |buf|
    ensures name == NameAt(buf, omn)
  {
    name := [];
    var k := 0;
    while omn + k < |buf| && buf[omn + k] != 0
      invariant omn + k <= |buf|
      invariant name == buf[omn..omn + k] && NoNul(name)
    {
      name := name + [buf[omn + k]];
      k := k + 1;
    }
    CStringUnique(buf[omn..], name);
  }

  method NameForwarders(buf: seq<u8>, fs: seq<BoundDirectory>) returns (r: Option<seq<BoundDirectory>>)
    ensures r == NamedForwarders(buf, fs)
  {
    var acc: seq<BoundDirectory> := [];
    assert fs[0..] == fs;
    PrependNil(NamedForwarders(buf, fs));
    var j := 0;
    while j < |fs|
      invariant j <= |fs|
      invariant NamedForwarders(buf, fs) == Prepend(acc, NamedForwarders(buf, fs[j..]))
    {
      assert fs[j..][1..] == fs[j + 1..];
      if fs[j].ibdDescriptor.OffsetModuleName > |buf| {
        return None;
      }
      var name := ReadName(buf, fs[j].ibdDescriptor.OffsetModuleName);
      PrependPrepend(acc, [fs[j].(strModuleName := name)], NamedForwarders(buf, fs[j + 1..]));
      acc := acc + [fs[j].(strModuleName := name)];
      j := j + 1;
    }
    assert acc + [] == acc;
    r := Some(acc);
  }

  method NameModules(buf: seq<u8>, ms: seq<BoundDirectory>) returns (r: Option<seq<BoundDirectory>>)
    ensures r == NamedModules(buf, ms)
  {
    var acc: seq<BoundDirectory> := [];
    assert ms[0..] == ms;
    PrependNil(NamedModules(buf, ms));
    var i := 0;
    while i < |ms|
      invariant i <= |ms|
      invariant NamedModules(buf, ms) == Prepend(acc, NamedModules(buf, ms[i..]))
    {
      assert ms[i..][1..] == ms[i + 1..];
      if ms[i].ibdDescriptor.OffsetModuleName > |buf| {
        return None;
      }
      var name := ReadName(buf, ms[i].ibdDescriptor.OffsetModuleName);
      var fs := NameForwarders(buf, ms[i].moduleForwarders);
      if fs.None? {
        return None;
      }
      var m := ms[i].(strModuleName := name, moduleForwarders := fs.value);
      PrependPrepend(acc, [m], NamedModules(buf, ms[i + 1..]));
      acc := acc + [m];
      i := i + 1;
    }
    assert acc + [] == acc;
    r := Some(acc);
  }

  // ---------------------------------------------------------------------
  // read(imageLoader)
  // ---------------------------------------------------------------------

  /**
   * The loader's refusal: a size with any of its top eight bits set, or a
   * directory that does not end below SizeOfImage (a 32-bit wrap included).
   */
  function BoundImportRejected(rva: u32, size: u32, sizeOfImage: u32): (r: bool)
    ensures r <==> size >= 0x100_0000 || rva + size >= sizeOfImage
  {
    TopByteMask(size);
    And32(size, 0xFF00_0000) != 0 ||
    Add32(rva, size) < rva || rva >= sizeOfImage || Add32(rva, size) >= sizeOfImage
  }

  /** The zero-initialised vector of `size` bytes, with what readImage could copy into its front. */
  function DirectoryBytes(img: seq<u8>, rva: u32, size: u32): (r: seq<u8>)
    requires |img| < TWO_32
    ensures |r| == size
    ensures rva + size <= |img| ==> r == img[rva..rva + size]
  {
    var b := ReadImage(img, rva, size);
    b + Zeros(size - |b|)
  }

  // ---------------------------------------------------------------------
  // Counting and sizing
  // ---------------------------------------------------------------------

  /** All forwarders, counted over the modules in order. */
  function ForwarderCount(ms: seq<BoundDirectory>): nat
  {
    if ms == [] then 0 else ForwarderCount(ms[..|ms| - 1]) + |ms[|ms| - 1].moduleForwarders|
  }

  /** A module's name followed by its forwarders' names. */
  function ModuleNames(m: BoundDirectory): (r: seq<seq<u8>>)
    ensures |r| == 1 + |m.moduleForwarders| && r[0] == m.strModuleName
    ensures forall j :: 0 <= j < |m.moduleForwarders| ==> r[j + 1] == m.moduleForwarders[j].strModuleName
  {
    [m.strModuleName] + seq(|m.moduleForwarders|, j requires 0 <= j < |m.moduleForwarders| => m.moduleForwarders[j].strModuleName)
  }

  /** Every name in the order size() inserts them into its set. */
  function AllNames(ms: seq<BoundDirectory>): seq<seq<u8>>
  {
    if ms == [] then [] else AllNames(ms[..|ms| - 1]) + ModuleNames(ms[|ms| - 1])
  }

  /** The names without repeats, each where it first occurs. */
  function Dedup(s: seq<seq<u8>>): (r: seq<seq<u8>>)
  {
    if s == [] then []
    else
      var d := Dedup(s[..|s| - 1]);
      if s[|s| - 1] in d then d else d + [s[|s| - 1]]
  }

  /** The de-duplicated list holds each name of the input exactly once: it is the set size() builds. */
  lemma {:induction false} DedupIsSet(s: seq<seq<u8>>)
    ensures forall x :: x in Dedup(s) <==> x in s
    ensures forall i, j :: 0 <= i < j < |Dedup(s)| ==> Dedup(s)[i] != Dedup(s)[j]
    decreases |s|
  {
    if s != [] {
      var p := s[..|s| - 1];
      DedupIsSet(p);
      assert s == p + [s[|s| - 1]];
    }
  }

  /** The bytes the names take with their NULs. */
  function NameBytes(names: seq<seq<u8>>): nat
  {
    if names == [] then 0 else NameBytes(names[..|names| - 1]) + |names[|names| - 1]| + 1
  }

  /**
   * size(): one record per module and per forwarder, the terminating record,
   * and each distinct name once with its NUL, in 32-bit arithmetic.
   */
  function DirectorySize(ms: seq<BoundDirectory>): u32
  {
    (BOUND_IMPORT_DESCRIPTOR_SIZE * (1 + |ms| + ForwarderCount(ms)) + NameBytes(Dedup(AllNames(ms)))) % TWO_32
  }

  lemma ForwarderCountStep(ms: seq<BoundDirectory>, i: nat)
    requires i < |ms|
    ensures ForwarderCount(ms[..i + 1]) == ForwarderCount(ms[..i]) + |ms[i].moduleForwarders|
  {
    assert ms[..i + 1][..i] == ms[..i];
  }

  lemma AllNamesStep(ms: seq<BoundDirectory>, i: nat)
    requires i < |ms|
    ensures AllNames(ms[..i + 1]) == AllNames(ms[..i]) + ModuleNames(ms[i])
  {
    assert ms[..i + 1][..i] == ms[..i];
  }

  lemma DedupStep(s: seq<seq<u8>>, x: seq<u8>)
    ensures Dedup(s + [x]) == if x in Dedup(s) then Dedup(s) else Dedup(s) + [x]
  {
    assert (s + [x])[..|s|] == s;
  }

  lemma NameBytesStep(names: seq<seq<u8>>, i: nat)
    requires i < |names|
    ensures NameBytes(names[..i + 1]) == NameBytes(names[..i]) + |names[i]| + 1
  {
    assert names[..i + 1][..i] == names[..i];
  }

  lemma ModuleNamesPrefix(m: BoundDirectory, j: nat)
    requires j < |m.moduleForwarders|
    ensures ModuleNames(m)[..j + 2] == ModuleNames(m)[..j + 1] + [m.moduleForwarders[j].strModuleName]
  {
  }

  // ---------------------------------------------------------------------
  // Lookups
  // ---------------------------------------------------------------------

  /** Some module's name equals `name` ignoring case. */
  predicate HasNameNc(ms: seq<BoundDirectory>, name: seq<u8>)
  {
    exists i :: 0 <= i < |ms| && IsEqualNc(name, ms[i].strModuleName)
  }

  /** addBoundImport's duplicate search. */
  method FindNameNc(ms: seq<BoundDirectory>, name: seq<u8>) returns (found: bool)
    ensures found <==> HasNameNc(ms, name)
  {
    var i := 0;
    while i < |ms|
      invariant i <= |ms|
      invariant forall k :: 0 <= k < i ==> !IsEqualNc(name, ms[k].strModuleName)
    {
      if Upper(name) == Upper(ms[i].strModuleName) {
        return true;
      }
      i := i + 1;
    }
    return false;
  }

  /** The first module whose name is exactly `name`, from `from` on, or |ms|. */
  function FirstNamed(ms: seq<BoundDirectory>, name: seq<u8>, from: nat): (r: nat)
    requires from <= |ms|
    ensures from <= r <= |ms|
    ensures r < |ms| ==> ms[r].strModuleName == name
    ensures forall k :: from <= k < r ==> ms[k].strModuleName != name
    decreases |ms| - from
  {
    if from == |ms| || ms[from].strModuleName == name then from else FirstNamed(ms, name, from + 1)
  }

  /** The modules whose name is not exactly `name`, in their order. */
  function WithoutName(ms: seq<BoundDirectory>, name: seq<u8>): (r: seq<BoundDirectory>)
    ensures |r| <= |ms|
  {
    if ms == [] then []
    else (if ms[0].strModuleName == name then [] else [ms[0]]) + WithoutName(ms[1..], name)
  }

  /** removeBoundImport keeps exactly the modules of another name. */
  lemma {:induction false} WithoutNameMeaning(ms: seq<BoundDirectory>, name: seq<u8>)
    ensures forall m :: m in WithoutName(ms, name) <==> m in ms && m.strModuleName != name
    ensures (forall k :: 0 <= k < |ms| ==> ms[k].strModuleName != name) ==> WithoutName(ms, name) == ms
    decreases |ms|
  {
    if ms != [] {
      WithoutNameMeaning(ms[1..], name);
      assert ms == [ms[0]] + ms[1..];
    }
  }

  // ---------------------------------------------------------------------
  // The directory object
  // ---------------------------------------------------------------------

  class BoundImportDirectory {
    var modules: seq<BoundDirectory>

    constructor ()
      ensures modules == []
    {
      modules := [];
    }

    /** read(inpBuffer, data, dwSize): the stored list is replaced only when both loops succeed. */
    method ReadBuffer(buf: seq<u8>) returns (r: int)
      modifies this
      ensures ReadTable(buf).None? ==> r == ERROR_INVALID_FILE && modules == old(modules)
      ensures ReadTable(buf).Some? ==> r == ERROR_NONE && modules == ReadTable(buf).value
    {
      var ms := ParseDescriptors(buf);
      if ms.None? {
        return ERROR_INVALID_FILE;
      }
      var named := NameModules(buf, ms.value);
      if named.None? {
        return ERROR_INVALID_FILE;
      }
      modules := named.value;
      r := ERROR_NONE;
    }

    /** read(imageLoader): the loader's refusal, then the buffer read of the directory's bytes. */
    method Read(img: seq<u8>, oh: OptionalHeader) returns (r: int)
      requires |img| < TWO_32
      modifies this
      ensures var rva := DataDirRva(oh, DIR_BOUND_IMPORT); var size := DataDirSize(oh, DIR_BOUND_IMPORT);
        var t := ReadTable(DirectoryBytes(img, rva, size));
        (BoundImportRejected(rva, size, oh.SizeOfImage) ==> r == ERROR_INVALID_FILE && modules == old(modules)) &&
        (!BoundImportRejected(rva, size, oh.SizeOfImage) && t.None? ==> r == ERROR_INVALID_FILE && modules == old(modules)) &&
        (!BoundImportRejected(rva, size, oh.SizeOfImage) && t.Some? ==> r == ERROR_NONE && modules == t.value)
    {
      var rva := DataDirRva(oh, DIR_BOUND_IMPORT);
      var size := DataDirSize(oh, DIR_BOUND_IMPORT);
      if BoundImportRejected(rva, size, oh.SizeOfImage) {
        return ERROR_INVALID_FILE;
      }
      r := ReadBuffer(DirectoryBytes(img, rva, size));
    }

    /** addBoundImport: a name already present ignoring case is refused; otherwise a module without forwarders is appended. */
    method AddBoundImport(name: seq<u8>, tds: u32, omn: u16, wfr: u16) returns (r: int)
      modifies this
      ensures HasNameNc(old(modules), name) ==> r == ERROR_DUPLICATE_ENTRY && modules == old(modules)
      ensures !HasNameNc(old(modules), name) ==>
        r == ERROR_NONE && modules == old(modules) + [BoundDirectory(BoundImportDescriptor(tds, omn, wfr), name, [])]
    {
      var found := FindNameNc(modules, name);
      if found {
        return ERROR_DUPLICATE_ENTRY;
      }
      modules := modules + [BoundDirectory(BoundImportDescriptor(tds, omn, wfr), name, [])];
      r := ERROR_NONE;
    }

    /** getModuleIndex: the first exact match, or ERROR_ENTRY_NOT_FOUND. */
    function GetModuleIndex(name: seq<u8>): (r: int)
      reads this
      ensures r == ERROR_ENTRY_NOT_FOUND <==> forall k :: 0 <= k < |modules| ==> modules[k].strModuleName != name
      ensures r != ERROR_ENTRY_NOT_FOUND ==>
        0 <= r < |modules| && modules[r].strModuleName == name && forall k :: 0 <= k < r ==> modules[k].strModuleName != name
    {
      var i := FirstNamed(modules, name, 0);
      if i == |modules| then ERROR_ENTRY_NOT_FOUND else i
    }

    /** calcNumberOfModules: the number of modules, as a 32-bit count. */
    function CalcNumberOfModules(): (r: u32)
      reads this
      ensures |modules| < TWO_32 ==> r == |modules|
    {
      Trunc32(|modules|)
    }

    method Clear()
      modifies this
      ensures modules == []
    {
      modules := [];
    }

    /** removeBoundImport: every module of exactly that name goes, the rest keep their order. */
    method RemoveBoundImport(name: seq<u8>)
      modifies this
      ensures modules == WithoutName(old(modules), name)
    {
      modules := WithoutName(modules, name);
    }

    /** totalModules: modules plus forwarders, in 32-bit arithmetic. */
    method TotalModules() returns (r: u32)
      ensures r == (|modules| + ForwarderCount(modules)) % TWO_32
    {
      var ms := modules;
      var total: u32 := Trunc32(|ms|);
      ghost var exact: nat := |ms|;
      var i := 0;
      while i < |ms|
        invariant i <= |ms|
        invariant exact == |ms| + ForwarderCount(ms[..i]) && total == exact % TWO_32
      {
        AddStep(exact, total, |ms[i].moduleForwarders|);
        ForwarderCountStep(ms, i);
        total := Add32(total, Trunc32(|ms[i].moduleForwarders|));
        exact := exact + |ms[i].moduleForwarders|;
        i := i + 1;
      }
      assert ms[..i] == ms;
      r := total;
    }

    /** size(): the records counted while the names go into a set, then each name of the set. */
    method Size() returns (r: u32)
      ensures r == DirectorySize(modules)
    {
      var names, size2;
      ghost var seen, exact;
      names, seen, size2, exact := SizeRecords(modules);
      ghost var exact';
      r, exact' := SizeNames(names, size2, exact);
    }
  }

  /** size()'s module loop: every module's and forwarder's record and the terminator, and the set of names. */
  method SizeRecords(ms: seq<BoundDirectory>)
    returns (names: seq<seq<u8>>, ghost seen: seq<seq<u8>>, size2: u32, ghost exact: nat)
    ensures exact == BOUND_IMPORT_DESCRIPTOR_SIZE * (1 + |ms| + ForwarderCount(ms)) && size2 == exact % TWO_32
    ensures seen == AllNames(ms) && names == Dedup(seen)
  {
    size2 := BOUND_IMPORT_DESCRIPTOR_SIZE;
    exact := BOUND_IMPORT_DESCRIPTOR_SIZE;
    names := [];
    seen := [];
    var i := 0;
    while i < |ms|
      invariant i <= |ms|
      invariant exact == BOUND_IMPORT_DESCRIPTOR_SIZE * (1 + i + ForwarderCount(ms[..i])) && size2 == exact % TWO_32
      invariant seen == AllNames(ms[..i]) && names == Dedup(seen)
    {
      names, seen, size2, exact := SizeModule(ms[i], names, seen, size2, exact);
      AllNamesStep(ms, i);
      ForwarderCountStep(ms, i);
      i := i + 1;
    }
    assert ms[..i] == ms;
  }

  /** size()'s name loop: each name of the set with its NUL, added in 32-bit arithmetic. */
  method SizeNames(names: seq<seq<u8>>, size2: u32, ghost exact: nat) returns (r: u32, ghost exact': nat)
    requires size2 == exact % TWO_32
    ensures exact' == exact + NameBytes(names) && r == exact' % TWO_32
  {
    r := size2;
    exact' := exact;
    var k := 0;
    while k < |names|
      invariant k <= |names|
      invariant exact' == exact + NameBytes(names[..k]) && r == exact' % TWO_32
    {
      AddStep(exact', r, |names[k]| + 1);
      NameBytesStep(names, k);
      r := Add32(r, Trunc32(|names[k]| + 1));
      exact' := exact' + |names[k]| + 1;
      k := k + 1;
    }
    assert names[..k] == names;
  }

  /** One turn of size()'s module loop: the module's record and name, then each forwarder's. */
  method SizeModule(m: BoundDirectory, names: seq<seq<u8>>, ghost seen: seq<seq<u8>>, size2: u32, ghost exact: nat)
    returns (names': seq<seq<u8>>, ghost seen': seq<seq<u8>>, size2': u32, ghost exact': nat)
    requires names == Dedup(seen) && size2 == exact % TWO_32
    ensures seen' == seen + ModuleNames(m) && names' == Dedup(seen')
    ensures exact' == exact + BOUND_IMPORT_DESCRIPTOR_SIZE * (1 + |m.moduleForwarders|) && size2' == exact' % TWO_32
  {
    names', seen', size2', exact' := SizeRecord(m.strModuleName, names, seen, size2, exact);
    var j := 0;
    while j < |m.moduleForwarders|
      invariant j <= |m.moduleForwarders|
      invariant exact' == exact + BOUND_IMPORT_DESCRIPTOR_SIZE * (1 + j) && size2' == exact' % TWO_32
      invariant seen' == seen + ModuleNames(m)[..j + 1] && names' == Dedup(seen')
    {
      var fname := m.moduleForwarders[j].strModuleName;
      ModuleNamesPrefix(m, j);
      ConcatAssoc(seen, ModuleNames(m)[..j + 1], [fname]);
      names', seen', size2', exact' := SizeRecord(fname, names', seen', size2', exact');
      j := j + 1;
    }
    assert ModuleNames(m)[..j + 1] == ModuleNames(m);
  }

  /** One record counted by size(): its 8 bytes, and its name into the set. */
  method SizeRecord(name: seq<u8>, names: seq<seq<u8>>, ghost seen: seq<seq<u8>>, size2: u32, ghost exact: nat)
    returns (names': seq<seq<u8>>, ghost seen': seq<seq<u8>>, size2': u32, ghost exact': nat)
    requires names == Dedup(seen) && size2 == exact % TWO_32
    ensures seen' == seen + [name] && names' == Dedup(seen')
    ensures exact' == exact + BOUND_IMPORT_DESCRIPTOR_SIZE && size2' == exact' % TWO_32
  {
    DedupStep(seen, name);
    names' := if name in names then names else names + [name];
    seen' := seen + [name];
    AddStep(exact, size2, BOUND_IMPORT_DESCRIPTOR_SIZE);
    size2' := Add32(size2, Trunc32(BOUND_IMPORT_DESCRIPTOR_SIZE));
    exact' := exact + BOUND_IMPORT_DESCRIPTOR_SIZE;
  }
}
