// ResourceDirectory: the resource tree of section 6.9 of the Microsoft
// PE/COFF Specification. A node is a 16-byte directory header followed by
// 8-byte entries; each entry names its child by ID or by string and points
// at a further directory (top bit of OffsetToData set) or at a 16-byte data
// entry (a leaf). The tree is modelled as a value: ResourceChild owns its
// element, as the library's copy constructor makes it do.
module Resources {
  import opened Bytes
  import opened PeAux
  import opened LoaderErrors
  import opened ImageLoader
  import opened FilePages

  /** PELIB_IMAGE_RESOURCE_RVA_MASK: the offset bits of Name and OffsetToData. */
  const RVA_MASK: u32 := 0x7FFF_FFFF

  /** PELIB_MAX_RESOURCE_ENTRIES: the most entries of either kind a node may declare. */
  const MAX_RESOURCE_ENTRIES: nat := 0x8000

  // ---------------------------------------------------------------------
  // The flag bit and the offset bits of a 32-bit entry field

  /** `x & PELIB_IMAGE_RESOURCE_NAME_IS_STRING` (the same bit as DATA_IS_DIRECTORY) is non-zero. */
  predicate HasTopBit(x: u32)
  {
    x >= 0x8000_0000
  }

  /** `x & PELIB_IMAGE_RESOURCE_RVA_MASK`. */
  function RvaBits(x: u32): (r: u32)
    ensures r < 0x8000_0000
    ensures !HasTopBit(x) ==> r == x
  {
    x % 0x8000_0000
  }

  /** `PELIB_IMAGE_RESOURCE_DATA_IS_DIRECTORY | x`. */
  function SetTopBit(x: u32): (r: u32)
    ensures HasTopBit(r) && RvaBits(r) == RvaBits(x)
  {
    0x8000_0000 + x % 0x8000_0000
  }

  /** HasTopBit is the AND with the flag bit the library tests. */
  lemma TopBitIsAnd(x: u32)
    ensures (BitAnd(x, RESOURCE_NAME_IS_STRING) != 0) == HasTopBit(x)
  {
    Pow2TopBits();
    if HasTopBit(x) {
      HighBitAnd(x - 0x8000_0000, 31);
    } else {
      BitBelow(x, 31);
      AndOneBit(x, 31);
    }
  }

  /** RvaBits is the AND with PELIB_IMAGE_RESOURCE_RVA_MASK. */
  lemma RvaBitsIsAnd(x: u32)
    ensures BitAnd(x, RVA_MASK) == RvaBits(x)
  {
    Pow2TopBits();
    LowMaskAnd(x, 31);
  }

  /** SetTopBit is the OR with PELIB_IMAGE_RESOURCE_DATA_IS_DIRECTORY. */
  lemma SetTopBitIsOr(x: u32)
    ensures BitOr(x, RESOURCE_DATA_IS_DIRECTORY) == SetTopBit(x)
  {
    Pow2TopBits();
    if HasTopBit(x) {
      OrSetBit(x - 0x8000_0000, 31);
    } else {
      OrHighBit(x, 31);
    }
  }

  // ---------------------------------------------------------------------
  // The tree

  /** PELIB_IMAGE_RESOURCE_DIRECTORY: the header of a node. */
  datatype NodeHeader = NodeHeader(
    Characteristics: u32,
    TimeDateStamp: u32,
    MajorVersion: u16,
    MinorVersion: u16,
    NumberOfNamedEntries: u16,
    NumberOfIdEntries: u16)

  /** PELIB_IMAGE_RESOURCE_DATA_ENTRY: what a leaf's entry holds. */
  datatype DataEntry = DataEntry(OffsetToData: u32, Size: u32, CodePage: u32, Reserved: u32)

  /** ResourceElement: a directory node with its children, or a leaf with its raw data. */
  datatype ResourceElement =
    | Node(header: NodeHeader, children: seq<ResourceChild>)
    | Leaf(entry: DataEntry, data: seq<u8>)

  /** ResourceChild: a directory entry of a node together with the element it points at. */
  datatype ResourceChild = ResourceChild(entry: ResDirEntry, child: ResourceElement)

  /** The zeroed header of a freshly constructed node. */
  const EMPTY_HEADER: NodeHeader := NodeHeader(0, 0, 0, 0, 0, 0)

  /** `new ResourceNode`: no children, a zeroed header. */
  const EMPTY_NODE: ResourceElement := Node(EMPTY_HEADER, [])

  /** `new ResourceLeaf`: a zeroed entry and no data. */
  const EMPTY_LEAF: ResourceElement := Leaf(DataEntry(0, 0, 0, 0), [])

  // ---------------------------------------------------------------------
  // ResourceChild: identity and order

  /** equalId: the entry's Name field is the ID. */
  predicate EqualId(c: ResourceChild, id: u32)
  {
    c.entry.Name == id
  }

  /** equalName: the entry's name string is the name. */
  predicate EqualName(c: ResourceChild, name: seq<u8>)
  {
    c.entry.wstrName == name
  }

  /** isNamedResource: the child carries a non-empty name string. */
  predicate IsNamedResource(c: ResourceChild)
  {
    |c.entry.wstrName| != 0
  }

  /** ResourceChild::operator<: named children first; names by string, IDs by number. */
  predicate ChildLess(a: ResourceChild, b: ResourceChild)
  {
    if IsNamedResource(a) && !IsNamedResource(b) then true
    else if !IsNamedResource(a) && IsNamedResource(b) then false
    else if IsNamedResource(a) && IsNamedResource(b) then LexLess(a.entry.wstrName, b.entry.wstrName)
    else a.entry.Name < b.entry.Name
  }

  /** Two children the order cannot tell apart: the same name, or no name and the same ID. */
  predicate SameKey(a: ResourceChild, b: ResourceChild)
  {
    if IsNamedResource(a) || IsNamedResource(b) then a.entry.wstrName == b.entry.wstrName
    else a.entry.Name == b.entry.Name
  }

  /**
   * The child order is a strict weak order, as std::sort requires:
   * irreflexive and transitive, and two children are unordered exactly
   * when they have the same key. Every named child precedes every unnamed one.
   */
  lemma ChildOrder(a: ResourceChild, b: ResourceChild, c: ResourceChild)
    ensures !ChildLess(a, a)
    ensures ChildLess(a, b) && ChildLess(b, c) ==> ChildLess(a, c)
    ensures !ChildLess(a, b) && !ChildLess(b, a) <==> SameKey(a, b)
    ensures IsNamedResource(a) && !IsNamedResource(b) ==> ChildLess(a, b) && !ChildLess(b, a)
  {
    LexLessStrictTotal(a.entry.wstrName, b.entry.wstrName, c.entry.wstrName);
  }

  /** Being unordered is transitive too: the order's incomparability is an equivalence. */
  lemma NotLessTransitive(a: ResourceChild, b: ResourceChild, c: ResourceChild)
    requires !ChildLess(a, b) && !ChildLess(b, c)
    ensures !ChildLess(a, c)
  {
    ChildOrder(a, b, c);
    ChildOrder(b, c, a);
    ChildOrder(a, c, b);
    ChildOrder(c, a, b);
    ChildOrder(c, b, a);
    ChildOrder(b, a, c);
  }

  // ---------------------------------------------------------------------
  // std::sort over the children

  /** No child is ordered before one that precedes it. */
  predicate Sorted(s: seq<ResourceChild>)
  {
    forall i, j :: 0 <= i < j < |s| ==> !ChildLess(s[j], s[i])
  }

  /** Inserting a child into a sorted sequence, after every child it does not precede. */
  function InsertChild(x: ResourceChild, s: seq<ResourceChild>): (r: seq<ResourceChild>)
    requires Sorted(s)
    ensures Sorted(r)
    ensures multiset(r) == multiset(s) + multiset{x}
  {
    if s == [] then [x]
    else if !ChildLess(s[0], x) then
      FrontBound(x, s);
      [x] + s
    else
      var t := InsertChild(x, s[1..]);
      assert s == [s[0]] + s[1..];
      TailBound(x, s, t);
      [s[0]] + t
  }

  /** A child the first of a sorted sequence does not precede is preceded by none of it. */
  lemma FrontBound(x: ResourceChild, s: seq<ResourceChild>)
    requires Sorted(s) && s != [] && !ChildLess(s[0], x)
    ensures forall j :: 0 <= j < |s| ==> !ChildLess(s[j], x)
  {
    forall j | 0 <= j < |s| ensures !ChildLess(s[j], x) {
      if j > 0 {
        NotLessTransitive(s[j], s[0], x);
      }
    }
  }

  /** The rest of a sorted sequence with a child added after its first does not precede that first. */
  lemma TailBound(x: ResourceChild, s: seq<ResourceChild>, t: seq<ResourceChild>)
    requires Sorted(s) && s != [] && ChildLess(s[0], x)
    requires multiset(t) == multiset(s[1..]) + multiset{x}
    ensures forall j :: 0 <= j < |t| ==> !ChildLess(t[j], s[0])
  {
    forall j | 0 <= j < |t| ensures !ChildLess(t[j], s[0]) {
      assert t[j] in multiset(t);
      if t[j] == x {
        ChildOrder(s[0], x, x);
        ChildOrder(x, s[0], x);
      } else {
        assert t[j] in multiset(s[1..]);
        var k :| 0 <= k < |s[1..]| && s[1..][k] == t[j];
        assert s[k + 1] == t[j];
      }
    }
  }

  /** The children rearranged into the order: what std::sort leaves behind. */
  function SortChildren(s: seq<ResourceChild>): (r: seq<ResourceChild>)
    ensures Sorted(r)
    ensures multiset(r) == multiset(s)
  {
    if s == [] then []
    else
      assert s == [s[0]] + s[1..];
      InsertChild(s[0], SortChildren(s[1..]))
  }

  /**
   * Children already in order stay where they are. (std::sort may leave
   * children with the same key in any order; this model keeps their
   * original order.)
   */
  lemma {:induction false} SortKeepsSorted(s: seq<ResourceChild>)
    requires Sorted(s)
    ensures SortChildren(s) == s
  {
    if s != [] {
      assert Sorted(s[1..]);
      SortKeepsSorted(s[1..]);
      assert s == [s[0]] + s[1..];
      if |s| > 1 {
        assert !ChildLess(s[1], s[0]);
      }
    }
  }

  // ---------------------------------------------------------------------
  // makeValid

  /** std::count_if over isNamedResource. */
  function CountNamed(s: seq<ResourceChild>): (n: nat)
    ensures n <= |s|
  {
    if s == [] then 0 else (if IsNamedResource(s[0]) then 1 else 0) + CountNamed(s[1..])
  }

  /** Inserting a child adds one to the count exactly when the child is named. */
  lemma {:induction false} CountNamedInsert(x: ResourceChild, s: seq<ResourceChild>)
    requires Sorted(s)
    ensures CountNamed(InsertChild(x, s)) == CountNamed(s) + (if IsNamedResource(x) then 1 else 0)
  {
    if s != [] && ChildLess(s[0], x) {
      CountNamedInsert(x, s[1..]);
      var t := InsertChild(x, s[1..]);
      assert ([s[0]] + t)[1..] == t;
    } else if s != [] {
      assert ([x] + s)[1..] == s;
    }
  }

  /** Sorting does not change how many children are named. */
  lemma {:induction false} CountNamedSort(s: seq<ResourceChild>)
    ensures CountNamed(SortChildren(s)) == CountNamed(s)
  {
    if s != [] {
      CountNamedSort(s[1..]);
      CountNamedInsert(s[0], SortChildren(s[1..]));
    }
  }

  /** In a sorted sequence the named children are exactly the first CountNamed ones. */
  lemma {:induction false} NamedPrefix(s: seq<ResourceChild>)
    requires Sorted(s)
    ensures forall i :: 0 <= i < |s| ==> (IsNamedResource(s[i]) <==> i < CountNamed(s))
  {
    if s != [] {
      assert Sorted(s[1..]);
      NamedPrefix(s[1..]);
      if !IsNamedResource(s[0]) {
        forall i | 1 <= i < |s|
          ensures !IsNamedResource(s[i])
        {
          if IsNamedResource(s[i]) {
            ChildOrder(s[i], s[0], s[0]);
          }
        }
        if |s| > 1 {
          assert s[1..][0] == s[1];
        }
      }
      forall i | 1 <= i < |s|
        ensures IsNamedResource(s[i]) <==> i < CountNamed(s)
      {
        assert s[1..][i - 1] == s[i];
      }
    }
  }

  /** The header fields makeValid recomputes agree with the children. */
  predicate CountsAgree(e: ResourceElement)
  {
    e.Node? &&
    e.header.NumberOfNamedEntries == CountNamed(e.children) &&
    e.header.NumberOfIdEntries == |e.children| - CountNamed(e.children)
  }

  /**
   * ResourceNode::makeValid: the children sorted, NumberOfNamedEntries the
   * count of named children cut to 16 bits, and NumberOfIdEntries the
   * remainder, computed in 32 bits and cut to 16.
   */
  function MakeValidNode(h: NodeHeader, children: seq<ResourceChild>): ResourceElement
  {
    var sorted := SortChildren(children);
    Node(CountedHeader(h, sorted), sorted)
  }

  /** The header with both counts recomputed from the (sorted) children. */
  function CountedHeader(h: NodeHeader, sorted: seq<ResourceChild>): NodeHeader
  {
    var named := Trunc16(CountNamed(sorted));
    h.(NumberOfNamedEntries := named,
       NumberOfIdEntries := Trunc16((Trunc32(|sorted|) - named) % TWO_32))
  }

  /** makeValid of an element: a node as above, a leaf's Size set to its data length. */
  function MakeValid(e: ResourceElement): ResourceElement
  {
    match e
    case Leaf(entry, data) => Leaf(entry.(Size := Trunc32(|data|)), data)
    case Node(h, children) => MakeValidNode(h, children)
  }

  /** Below 2^16 children, the recomputed counts are the exact ones. */
  lemma CountedHeaderAgrees(h: NodeHeader, s: seq<ResourceChild>)
    requires |s| < TWO_16
    ensures CountsAgree(Node(CountedHeader(h, s), s))
  {
    var named := CountNamed(s);
    assert Trunc16(named) == named;
    assert Trunc32(|s|) == |s|;
    assert (|s| - named) % TWO_32 == |s| - named;
  }

  /** Below 2^16 children, the counts makeValid writes are the exact ones. */
  lemma MakeValidNodeCounts(h: NodeHeader, children: seq<ResourceChild>)
    requires |children| < TWO_16
    ensures CountsAgree(MakeValidNode(h, children))
  {
    var sorted := SortChildren(children);
    assert |sorted| == |multiset(sorted)| == |multiset(children)| == |children|;
    CountedHeaderAgrees(h, sorted);
  }

  /**
   * makeValid on a node leaves the same children in order with the named
   * ones first, and, below 2^16 children, a header that counts them; only
   * the two counts change in the header.
   */
  lemma MakeValidNodeIsValid(h: NodeHeader, children: seq<ResourceChild>)
    ensures var r := MakeValidNode(h, children);
      r.Node? && Sorted(r.children) && multiset(r.children) == multiset(children) &&
      (forall i :: 0 <= i < |r.children| ==> (IsNamedResource(r.children[i]) <==> i < CountNamed(children))) &&
      r.header.(NumberOfNamedEntries := 0, NumberOfIdEntries := 0) ==
        h.(NumberOfNamedEntries := 0, NumberOfIdEntries := 0) &&
      (|children| < TWO_16 ==> CountsAgree(r))
  {
    var sorted := SortChildren(children);
    CountNamedSort(children);
    NamedPrefix(sorted);
    if |children| < TWO_16 {
      MakeValidNodeCounts(h, children);
    }
  }

  /** makeValid on a leaf sets Size to the data length, below 2^32, and keeps the rest. */
  lemma MakeValidLeafIsValid(entry: DataEntry, data: seq<u8>)
    ensures MakeValid(Leaf(entry, data)) == Leaf(entry.(Size := MakeValid(Leaf(entry, data)).entry.Size), data)
    ensures |data| < TWO_32 ==> MakeValid(Leaf(entry, data)).entry.Size == |data|
  {
  }

  /** makeValid on a node, applied twice, is makeValid applied once. */
  lemma MakeValidNodeIdempotent(h: NodeHeader, children: seq<ResourceChild>)
    ensures MakeValid(MakeValidNode(h, children)) == MakeValidNode(h, children)
  {
    var sorted := SortChildren(children);
    SortKeepsSorted(sorted);
    assert CountedHeader(CountedHeader(h, sorted), sorted) == CountedHeader(h, sorted);
  }

  /** makeValid twice is makeValid once. */
  lemma MakeValidIdempotent(e: ResourceElement)
    ensures MakeValid(MakeValid(e)) == MakeValid(e)
  {
    if e.Node? {
      MakeValidNodeIdempotent(e.header, e.children);
    }
  }

  // ---------------------------------------------------------------------
  // Resource types: the children of the root

  /** std::find_if with equalId: the position of the first child with that ID, or |s|. */
  function FindId(s: seq<ResourceChild>, id: u32): (k: nat)
    ensures k <= |s|
    ensures k < |s| ==> EqualId(s[k], id)
    ensures forall j :: 0 <= j < k ==> !EqualId(s[j], id)
  {
    if s == [] then 0
    else if EqualId(s[0], id) then 0
    else 1 + FindId(s[1..], id)
  }

  /** std::find_if with equalName: the position of the first child with that name, or |s|. */
  function FindName(s: seq<ResourceChild>, name: seq<u8>): (k: nat)
    ensures k <= |s|
    ensures k < |s| ==> EqualName(s[k], name)
    ensures forall j :: 0 <= j < k ==> !EqualName(s[j], name)
  {
    if s == [] then 0
    else if EqualName(s[0], name) then 0
    else 1 + FindName(s[1..], name)
  }

  /** The child a resource type is created with: the entry given, an empty node below it. */
  function NewType(entry: ResDirEntry): ResourceChild
  {
    ResourceChild(entry, EMPTY_NODE)
  }

  /** Removing one child keeps the named count exactly when the child was unnamed. */
  lemma {:induction false} CountNamedRemove(s: seq<ResourceChild>, k: nat)
    requires k < |s|
    ensures CountNamed(s[..k] + s[k + 1..]) + (if IsNamedResource(s[k]) then 1 else 0) == CountNamed(s)
  {
    if k > 0 {
      CountNamedRemove(s[1..], k - 1);
      assert (s[..k] + s[k + 1..])[1..] == s[1..][..k - 1] + s[1..][k..];
    } else {
      assert s[..k] + s[k + 1..] == s[1..];
    }
  }

  /**
   * removeResourceType and removeResourceTypeByIndex as written: after
   * erasing child `k`, the count of its kind is set to the number of all
   * the children left.
   */
  function RemoveChildAsWritten(h: NodeHeader, children: seq<ResourceChild>, k: nat): ResourceElement
    requires k < |children|
  {
    var rest := children[..k] + children[k + 1..];
    if IsNamedResource(children[k]) then Node(h.(NumberOfNamedEntries := Trunc16(|rest|)), rest)
    else Node(h.(NumberOfIdEntries := Trunc16(|rest|)), rest)
  }

  /**
   * Removing an ID child from a node with one named and two ID children
   * leaves a header that declares three entries for two children.
   */
  lemma RemoveChildAsWrittenMiscounts()
    ensures var named := ResourceChild(ResDirEntry(0, 0, [0x41]), EMPTY_NODE);
            var one := ResourceChild(ResDirEntry(1, 0, []), EMPTY_NODE);
            var two := ResourceChild(ResDirEntry(2, 0, []), EMPTY_NODE);
            var before := Node(EMPTY_HEADER.(NumberOfNamedEntries := 1, NumberOfIdEntries := 2), [named, one, two]);
            var after := RemoveChildAsWritten(before.header, before.children, 1);
            CountsAgree(before) && |after.children| == 2 &&
            after.header.NumberOfNamedEntries + after.header.NumberOfIdEntries == 3 && !CountsAgree(after)
  {
    var named := ResourceChild(ResDirEntry(0, 0, [0x41]), EMPTY_NODE);
    var one := ResourceChild(ResDirEntry(1, 0, []), EMPTY_NODE);
    var two := ResourceChild(ResDirEntry(2, 0, []), EMPTY_NODE);
    var s := [named, one, two];
    assert s[1..] == [one, two] && s[1..][1..] == [two] && s[1..][1..][1..] == [];
    assert CountNamed([two]) == 0 && CountNamed([one, two]) == 0 && CountNamed(s) == 1;
    var rest := s[..1] + s[2..];
    assert rest == [named, two] && rest[1..] == [two] && rest[1..][1..] == [];
    assert CountNamed([two]) == 0 && CountNamed(rest) == 1;
  }

  /** The removal as intended: the count of the erased child's kind is recounted. */
  function RemoveChild(h: NodeHeader, children: seq<ResourceChild>, k: nat): ResourceElement
    requires k < |children|
  {
    var rest := children[..k] + children[k + 1..];
    var named := CountNamed(rest);
    if IsNamedResource(children[k]) then Node(h.(NumberOfNamedEntries := Trunc16(named)), rest)
    else Node(h.(NumberOfIdEntries := Trunc16(|rest| - named)), rest)
  }

  /**
   * The intended removal erases exactly child `k` and keeps a header that
   * agreed with the children in agreement with them.
   */
  lemma RemoveChildKeepsCounts(h: NodeHeader, children: seq<ResourceChild>, k: nat)
    requires k < |children|
    ensures RemoveChild(h, children, k).children == children[..k] + children[k + 1..]
    ensures CountsAgree(Node(h, children)) ==> CountsAgree(RemoveChild(h, children, k))
  {
    CountNamedRemove(children, k);
  }

  // ---------------------------------------------------------------------
  // recalculate: a fresh layout of the tree

  /** An element laid out anew, and the offset just past it. */
  datatype Placed = Placed(element: ResourceElement, next: u32)

  /** The bytes a child's name takes: a length word and two bytes a character, for string names. */
  function NameSize(c: ResourceChild): nat
  {
    if HasTopBit(c.entry.Name) then 2 + 2 * |c.entry.wstrName| else 0
  }

  /**
   * The bytes an element takes in the layout recalculate assigns: a leaf's
   * data entry and its Size bytes; a node's header, its entries, and then
   * each child's name and element in turn.
   */
  function LayoutSize(e: ResourceElement): nat
    decreases e, 1, 0
  {
    match e
    case Leaf(entry, _) => 16 + entry.Size
    case Node(_, children) => 16 + 8 * |children| + ChildrenSize(e, 0)
  }

  /** The bytes children `i` onwards of a node take. */
  function ChildrenSize(e: ResourceElement, i: nat): nat
    requires e.Node? && i <= |e.children|
    decreases e, 0, |e.children| - i
  {
    if i == |e.children| then 0
    else NameSize(e.children[i]) + LayoutSize(e.children[i].child) + ChildrenSize(e, i + 1)
  }

  /** The bytes the children from `i` up to `k` take: where child `k` starts, relative to child `i`. */
  function Span(e: ResourceElement, i: nat, k: nat): nat
    requires e.Node? && k <= |e.children|
    decreases k
  {
    if k <= i then 0
    else Span(e, i, k - 1) + NameSize(e.children[k - 1]) + LayoutSize(e.children[k - 1].child)
  }

  /**
   * One child laid out from `start`: a string name gets its offset there
   * with the flag bit, the element follows the name and the child's data
   * offset points at it, keeping the directory flag.
   */
  function PlaceChild(c: ResourceChild, start: u32, newRva: u32): ResourceChild
    decreases c, 0
  {
    var at := Trunc32(start + NameSize(c));
    var name := if HasTopBit(c.entry.Name) then SetTopBit(start) else c.entry.Name;
    var data := if HasTopBit(c.entry.OffsetToData) then SetTopBit(at) else at;
    ResourceChild(c.entry.(Name := name, OffsetToData := data), Recalculate(c.child, at, newRva).element)
  }

  /**
   * ResourceLeaf::recalculate and ResourceNode::recalculate, with the
   * current offset threaded through as `offset` and returned as `next`.
   * A leaf's data goes right after its 16-byte entry, at RVA newRva plus
   * that offset; a node skips its header and entries, then lays out each
   * child.
   */
  function Recalculate(e: ResourceElement, offset: u32, newRva: u32): Placed
    decreases e, 1, 0
  {
    match e
    case Leaf(entry, data) =>
      var start := Add32(offset, 16);
      Placed(Leaf(entry.(OffsetToData := Add32(start, newRva)), data), Add32(start, entry.Size))
    case Node(h, children) =>
      RecalculateChildren(e, 0, Trunc32(EntriesEnd(e, offset)), newRva, [])
  }

  /** Where a node laid out from `offset` puts its first child: past its header and its entries. */
  function EntriesEnd(e: ResourceElement, offset: u32): nat
    requires e.Node?
  {
    offset + RESOURCE_DIRECTORY_SIZE + RESOURCE_DIRECTORY_ENTRY_SIZE * |e.children|
  }

  /** The loop over the children of ResourceNode::recalculate, from child `i` on. */
  function RecalculateChildren(e: ResourceElement, i: nat, offset: u32, newRva: u32, done: seq<ResourceChild>): Placed
    requires e.Node? && i <= |e.children|
    decreases e, 0, |e.children| - i
  {
    if i == |e.children| then Placed(Node(e.header, done), offset)
    else
      var c := e.children[i];
      var placed := PlaceChild(c, offset, newRva);
      var at := Trunc32(offset + NameSize(c));
      var next := Recalculate(c.child, at, newRva).next;
      RecalculateChildren(e, i + 1, next, newRva, done + [placed])
  }

  /** Child `i`'s own bytes start the bytes from `i` to `k`. */
  lemma {:induction false} SpanFirst(e: ResourceElement, i: nat, k: nat)
    requires e.Node? && i < k <= |e.children|
    ensures Span(e, i, k) == NameSize(e.children[i]) + LayoutSize(e.children[i].child) + Span(e, i + 1, k)
    decreases k
  {
    if k > i + 1 {
      SpanFirst(e, i, k - 1);
    }
  }

  /**
   * recalculate lays the tree out contiguously: the offset advances by the
   * element's layout size (modulo 2^32, as the library's unsigned
   * arithmetic does), a node keeps its header and its children in order,
   * and child `k` is laid out from the offset just past the node's header,
   * its entries and the children before it.
   */
  lemma {:induction false} RecalculateLayout(e: ResourceElement, offset: u32, newRva: u32)
    ensures Recalculate(e, offset, newRva).next == Trunc32(offset + LayoutSize(e))
    ensures e.Node? ==> NodeLaidOut(e, offset, newRva, Recalculate(e, offset, newRva).element)
    ensures e.Leaf? ==>
      Recalculate(e, offset, newRva).element == Leaf(e.entry.(OffsetToData := Trunc32(offset + 16 + newRva)), e.data)
    decreases e, 1, 0
  {
    if e.Leaf? {
      AddMod(offset + 16, newRva, TWO_32);
      AddMod(offset + 16, e.entry.Size, TWO_32);
    } else {
      RecalculateNodeLayout(e, offset, newRva);
    }
  }

  /** Node `r` is node `e` laid out from `offset`: each child from where the ones before it end. */
  predicate NodeLaidOut(e: ResourceElement, offset: u32, newRva: u32, r: ResourceElement)
    requires e.Node?
  {
    r.Node? && r.header == e.header && |r.children| == |e.children| &&
    forall k :: 0 <= k < |e.children| ==> ChildLaidOut(e, offset, newRva, r, k)
  }

  /** Child `k` of node `r` is child `k` of node `e` placed past the header, the entries and the children before it. */
  predicate ChildLaidOut(e: ResourceElement, offset: u32, newRva: u32, r: ResourceElement, k: nat)
  {
    e.Node? && r.Node? && k < |e.children| && k < |r.children| &&
    r.children[k] == PlaceChild(e.children[k], Trunc32(Trunc32(EntriesEnd(e, offset)) + Span(e, 0, k)), newRva)
  }

  /** Cutting to 32 bits before or after adding gives the same 32 bits. */
  lemma TruncShift(base: nat, x: nat)
    ensures Trunc32(Trunc32(base) + x) == Trunc32(base + x)
  {
    AddMod(base, x, TWO_32);
  }

  /** Two 32-bit advances in a row are one advance by the sum. */
  lemma AdvanceTwice(offset: u32, a: nat, b: nat, at: u32, next: u32)
    requires at == Trunc32(offset + a) && next == Trunc32(at + b)
    ensures next == Trunc32(offset + (a + b))
  {
    AddMod(offset + a, b, TWO_32);
  }

  /** The node case of RecalculateLayout. */
  lemma {:induction false} RecalculateNodeLayout(e: ResourceElement, offset: u32, newRva: u32)
    requires e.Node?
    ensures Recalculate(e, offset, newRva).next == Trunc32(offset + LayoutSize(e))
    ensures NodeLaidOut(e, offset, newRva, Recalculate(e, offset, newRva).element)
    decreases e, 0, |e.children| + 3
  {
    TruncShift(EntriesEnd(e, offset), ChildrenSize(e, 0));
    assert Recalculate(e, offset, newRva) == RecalculateChildren(e, 0, Trunc32(EntriesEnd(e, offset)), newRva, []);
    ChildrenNext(e, 0, Trunc32(EntriesEnd(e, offset)), newRva, []);
    NodeChildrenLayout(e, offset, newRva);
  }

  /** The children half of RecalculateNodeLayout. */
  lemma {:induction false} NodeChildrenLayout(e: ResourceElement, offset: u32, newRva: u32)
    requires e.Node?
    ensures NodeLaidOut(e, offset, newRva, Recalculate(e, offset, newRva).element)
    decreases e, 0, |e.children| + 2
  {
    NodeShape(e, offset, newRva);
    forall k | 0 <= k < |e.children|
      ensures ChildLaidOut(e, offset, newRva, Recalculate(e, offset, newRva).element, k)
    {
      NodeChildAt(e, offset, newRva, k);
    }
  }

  /** A node laid out keeps its header and its number of children. */
  lemma NodeShape(e: ResourceElement, offset: u32, newRva: u32)
    requires e.Node?
    ensures var r := Recalculate(e, offset, newRva).element;
      r.Node? && r.header == e.header && |r.children| == |e.children|
  {
    assert Recalculate(e, offset, newRva) == RecalculateChildren(e, 0, Trunc32(EntriesEnd(e, offset)), newRva, []);
    ChildrenShape(e, 0, Trunc32(EntriesEnd(e, offset)), newRva, []);
  }

  /** Child `k` of a node laid out from `offset` is laid out past the header, the entries and children 0 to `k`. */
  lemma NodeChildAt(e: ResourceElement, offset: u32, newRva: u32, k: nat)
    requires e.Node? && k < |e.children|
    ensures ChildLaidOut(e, offset, newRva, Recalculate(e, offset, newRva).element, k)
    decreases e, 0, |e.children| + 1
  {
    assert Recalculate(e, offset, newRva) == RecalculateChildren(e, 0, Trunc32(EntriesEnd(e, offset)), newRva, []);
    ChildAt(e, 0, Trunc32(EntriesEnd(e, offset)), newRva, [], k, k);
  }

  /** The loop of RecalculateLayout advances the offset past children `i` onwards. */
  lemma {:induction false} ChildrenNext(e: ResourceElement, i: nat, offset: u32, newRva: u32, done: seq<ResourceChild>)
    requires e.Node? && i <= |e.children|
    ensures RecalculateChildren(e, i, offset, newRva, done).next == Trunc32(offset + ChildrenSize(e, i))
    decreases e, 0, |e.children| - i
  {
    if i < |e.children| {
      var c := e.children[i];
      var next := Recalculate(c.child, Trunc32(offset + NameSize(c)), newRva).next;
      ChildAdvance(c, offset, newRva);
      var done' := done + [PlaceChild(c, offset, newRva)];
      AdvanceTwice(offset, NameSize(c) + LayoutSize(c.child), ChildrenSize(e, i + 1), next, Trunc32(next + ChildrenSize(e, i + 1)));
      ChildrenNext(e, i + 1, next, newRva, done');
      assert RecalculateChildren(e, i, offset, newRva, done) == RecalculateChildren(e, i + 1, next, newRva, done');
    }
  }

  /**
   * The loop of RecalculateLayout, children `i` onwards after the laid-out
   * children `done`: the node keeps its header, the children already laid
   * out, and gets one entry per remaining child.
   */
  lemma {:induction false} ChildrenShape(e: ResourceElement, i: nat, offset: u32, newRva: u32, done: seq<ResourceChild>)
    requires e.Node? && i <= |e.children|
    ensures var p := RecalculateChildren(e, i, offset, newRva, done);
      p.element.Node? && p.element.header == e.header &&
      |p.element.children| == |done| + |e.children| - i && p.element.children[..|done|] == done
    decreases |e.children| - i
  {
    if i < |e.children| {
      var c := e.children[i];
      var next := Recalculate(c.child, Trunc32(offset + NameSize(c)), newRva).next;
      var done' := done + [PlaceChild(c, offset, newRva)];
      ChildrenShape(e, i + 1, next, newRva, done');
      var p := RecalculateChildren(e, i + 1, next, newRva, done');
      assert RecalculateChildren(e, i, offset, newRva, done) == p;
      assert p.element.children[..|done|] == p.element.children[..|done'|][..|done|];
    }
  }

  /**
   * The loop of RecalculateLayout lays child `k` out from where children
   * `i` to `k` end, as entry `j` of the node, after the `done` children.
   */
  lemma {:induction false} ChildAt(e: ResourceElement, i: nat, offset: u32, newRva: u32, done: seq<ResourceChild>, k: nat, j: nat)
    requires e.Node? && i <= k < |e.children| && j == |done| + k - i
    ensures var p := RecalculateChildren(e, i, offset, newRva, done);
      p.element.Node? && j < |p.element.children| &&
      p.element.children[j] == PlaceChild(e.children[k], Trunc32(offset + Span(e, i, k)), newRva)
    decreases e, 0, |e.children| - i, 1
  {
    if k == i {
      ChildAtFirst(e, i, offset, newRva, done, j);
    } else {
      ChildAtLater(e, i, offset, newRva, done, k, j);
    }
  }

  /** ChildAt for child `i` itself, laid out right at `offset`. */
  lemma ChildAtFirst(e: ResourceElement, i: nat, offset: u32, newRva: u32, done: seq<ResourceChild>, j: nat)
    requires e.Node? && i < |e.children| && j == |done|
    ensures var p := RecalculateChildren(e, i, offset, newRva, done);
      p.element.Node? && j < |p.element.children| &&
      p.element.children[j] == PlaceChild(e.children[i], offset, newRva)
  {
    var c := e.children[i];
    var next := Recalculate(c.child, Trunc32(offset + NameSize(c)), newRva).next;
    var done' := done + [PlaceChild(c, offset, newRva)];
    var p := RecalculateChildren(e, i + 1, next, newRva, done');
    assert RecalculateChildren(e, i, offset, newRva, done) == p;
    ChildrenShape(e, i + 1, next, newRva, done');
    assert p.element.children[j] == p.element.children[..|done'|][j];
  }

  /** ChildAt for a child after child `i`, which the rest of the loop lays out. */
  lemma {:induction false} ChildAtLater(e: ResourceElement, i: nat, offset: u32, newRva: u32, done: seq<ResourceChild>, k: nat, j: nat)
    requires e.Node? && i < k < |e.children| && j == |done| + k - i
    ensures var p := RecalculateChildren(e, i, offset, newRva, done);
      p.element.Node? && j < |p.element.children| &&
      p.element.children[j] == PlaceChild(e.children[k], Trunc32(offset + Span(e, i, k)), newRva)
    decreases e, 0, |e.children| - i, 0
  {
    var c := e.children[i];
    var next := Recalculate(c.child, Trunc32(offset + NameSize(c)), newRva).next;
    var done' := done + [PlaceChild(c, offset, newRva)];
    var p := RecalculateChildren(e, i + 1, next, newRva, done');
    assert RecalculateChildren(e, i, offset, newRva, done) == p;
    ChildAt(e, i + 1, next, newRva, done', k, j);
    ChildStartShift(e, i, offset, newRva, k, next);
  }

  /** Where child `k` starts, seen from child `i + 1` (at `next`, just past child `i`), is where it starts seen from child `i`. */
  lemma ChildStartShift(e: ResourceElement, i: nat, offset: u32, newRva: u32, k: nat, next: u32)
    requires e.Node? && i < k <= |e.children|
    requires next == Recalculate(e.children[i].child, Trunc32(offset + NameSize(e.children[i])), newRva).next
    ensures Trunc32(next + Span(e, i + 1, k)) == Trunc32(offset + Span(e, i, k))
    decreases e, 0, |e.children| - i - 1
  {
    var c := e.children[i];
    ChildAdvance(c, offset, newRva);
    SpanFirst(e, i, k);
    AdvanceTwice(offset, NameSize(c) + LayoutSize(c.child), Span(e, i + 1, k), next, Trunc32(next + Span(e, i + 1, k)));
  }

  /** A child advances the offset past its name and its element. */
  lemma {:induction false} ChildAdvance(c: ResourceChild, offset: u32, newRva: u32)
    ensures Recalculate(c.child, Trunc32(offset + NameSize(c)), newRva).next ==
      Trunc32(offset + (NameSize(c) + LayoutSize(c.child)))
    decreases c.child, 2, 0
  {
    var at := Trunc32(offset + NameSize(c));
    RecalculateLayout(c.child, at, newRva);
    AdvanceTwice(offset, NameSize(c), LayoutSize(c.child), at, Recalculate(c.child, at, newRva).next);
  }

  /**
   * ResourceLeaf::recalculate and ResourceNode::recalculate as the library
   * runs them: the offset counter advances through the tree while each
   * child's name and data offsets are rewritten. The tree is a value here,
   * so the rewritten tree is returned with the final counter.
   */
  method RecalculateElement(e: ResourceElement, offset: u32, newRva: u32) returns (r: Placed)
    ensures r == Recalculate(e, offset, newRva)
    decreases e, 1
  {
    match e
    case Leaf(entry, data) =>
      var cur := Add32(offset, RESOURCE_DATA_ENTRY_SIZE);
      var placed := entry.(OffsetToData := Add32(cur, newRva));
      cur := Add32(cur, entry.Size);
      r := Placed(Leaf(placed, data), cur);
    case Node(_, _) =>
      r := RecalculateNode(e, offset, newRva);
  }

  /** ResourceNode::recalculate: past the header and the entries, then each child in turn. */
  method RecalculateNode(e: ResourceElement, offset: u32, newRva: u32) returns (r: Placed)
    requires e.Node?
    ensures r == Recalculate(e, offset, newRva)
    decreases e, 0
  {
    var children := e.children;
    var cur: u32 := Trunc32(EntriesEnd(e, offset));
    var done: seq<ResourceChild> := [];
    var i := 0;
    while i < |children|
      invariant i <= |children|
      invariant RecalculateChildren(e, i, cur, newRva, done) == Recalculate(e, offset, newRva)
    {
      var placed, next := RecalculateChild(children[i], cur, newRva);
      ChildrenStep(e, i, cur, newRva, done);
      done := done + [placed];
      cur := next;
      i := i + 1;
    }
    r := Placed(Node(e.header, done), cur);
  }

  /**
   * One turn of the loop of ResourceNode::recalculate: the child's name
   * string goes at `start` when it has one, its element right after it.
   */
  method RecalculateChild(c: ResourceChild, start: u32, newRva: u32) returns (placed: ResourceChild, next: u32)
    ensures placed == PlaceChild(c, start, newRva)
    ensures next == Recalculate(c.child, Trunc32(start + NameSize(c)), newRva).next
    decreases c, 0
  {
    var cur := start;
    var name := c.entry.Name;
    if HasTopBit(name) {
      name := SetTopBit(cur);
      cur := Trunc32(cur + 2 + 2 * |c.entry.wstrName|);
    }
    var data := if HasTopBit(c.entry.OffsetToData) then SetTopBit(cur) else cur;
    var child := RecalculateElement(c.child, cur, newRva);
    placed := ResourceChild(c.entry.(Name := name, OffsetToData := data), child.element);
    next := child.next;
  }

  /** The loop of ResourceNode::recalculate advances one child at a time. */
  lemma ChildrenStep(e: ResourceElement, i: nat, offset: u32, newRva: u32, done: seq<ResourceChild>)
    requires e.Node? && i < |e.children|
    ensures var c := e.children[i];
      RecalculateChildren(e, i, offset, newRva, done) ==
      RecalculateChildren(e, i + 1, Recalculate(c.child, Trunc32(offset + NameSize(c)), newRva).next, newRva, done + [PlaceChild(c, offset, newRva)])
  {
  }

  // ---------------------------------------------------------------------
  // read: the tree as the library reads it from the mapped image

  /**
   * What reading records in the ResourceDirectory besides the tree: the
   * offsets of the nodes expanded so far, the occupied address ranges, and
   * the loader error.
   */
  datatype ReadState = ReadState(nodeOffsets: set<u32>, occupied: seq<(u32, u32)>, ldrError: LoaderError)

  /** A read's return code, the element as far as it was read, and the state after it. */
  datatype ReadResult = ReadResult(status: int, element: ResourceElement, st: ReadState)

  /** readImage into a zero-initialised structure of `n` bytes: bytes past the image stay zero. */
  function ReadPadded(img: seq<u8>, rva: u32, n: u32): (r: seq<u8>)
    requires |img| < TWO_32
    ensures |r| == n
    ensures rva + n <= |img| ==> r == img[rva..rva + n]
  {
    var b := ReadImage(img, rva, n);
    b + Zeros(n - |b|)
  }

  /** PELIB_IMAGE_RESOURCE_DIRECTORY from its 16 little-endian bytes. */
  function HeaderOf(b: seq<u8>): NodeHeader
    requires |b| == RESOURCE_DIRECTORY_SIZE
  {
    NodeHeader(U32At(b, 0), U32At(b, 4), U16At(b, 8), U16At(b, 10), U16At(b, 12), U16At(b, 14))
  }

  /** The 16 little-endian bytes of a header, as the structure lies in memory. */
  function HeaderBytes(h: NodeHeader): (r: seq<u8>)
    ensures |r| == RESOURCE_DIRECTORY_SIZE
  {
    Enc32(h.Characteristics) + Enc32(h.TimeDateStamp) + Enc16(h.MajorVersion) + Enc16(h.MinorVersion) +
    Enc16(h.NumberOfNamedEntries) + Enc16(h.NumberOfIdEntries)
  }

  /** Decoding a header's bytes gives the header back. */
  lemma HeaderRoundTrip(h: NodeHeader)
    ensures HeaderOf(HeaderBytes(h)) == h
  {
    var b := HeaderBytes(h);
    var c, t := Enc32(h.Characteristics), Enc32(h.TimeDateStamp);
    var v1, v2, n1, n2 := Enc16(h.MajorVersion), Enc16(h.MinorVersion), Enc16(h.NumberOfNamedEntries), Enc16(h.NumberOfIdEntries);
    assert b == [] + c + (t + v1 + v2 + n1 + n2);
    Dec32Enc32(h.Characteristics, [], t + v1 + v2 + n1 + n2);
    assert b == c + t + (v1 + v2 + n1 + n2);
    Dec32Enc32(h.TimeDateStamp, c, v1 + v2 + n1 + n2);
    assert b == c + t + v1 + (v2 + n1 + n2);
    Dec16Enc16(h.MajorVersion, c + t, v2 + n1 + n2);
    assert b == c + t + v1 + v2 + (n1 + n2);
    Dec16Enc16(h.MinorVersion, c + t + v1, n1 + n2);
    assert b == c + t + v1 + v2 + n1 + n2 + [];
    Dec16Enc16(h.NumberOfNamedEntries, c + t + v1 + v2, n2);
    Dec16Enc16(h.NumberOfIdEntries, c + t + v1 + v2 + n1, []);
  }

  /**
   * readImage into a structure that already holds `before`: the bytes the
   * image has overwrite its start, the rest stay as they were.
   */
  function ReadInto(img: seq<u8>, rva: u32, before: seq<u8>): (r: seq<u8>)
    requires |img| < TWO_32 && |before| < TWO_32
    ensures |r| == |before|
    ensures rva + |before| <= |img| ==> r == img[rva..rva + |before|]
  {
    var b := ReadImage(img, rva, |before|);
    b + before[|b|..]
  }

  /** PELIB_IMAGE_RESOURCE_DATA_ENTRY from its 16 little-endian bytes. */
  function DataEntryOf(b: seq<u8>): DataEntry
    requires |b| == RESOURCE_DATA_ENTRY_SIZE
  {
    DataEntry(U32At(b, 0), U32At(b, 4), U32At(b, 8), U32At(b, 12))
  }

  /**
   * ImageLoader::readStringRc: a 16-bit length at `rva`, then that many
   * UTF-16 units, of which as many whole units as the image holds are read
   * and each is cut to its low byte.
   */
  function ReadStringRc(img: seq<u8>, rva: u32): (r: seq<u8>)
    requires |img| < TWO_32
  {
    var length := U16At(ReadPadded(img, rva, 2), 0);
    var units := ReadImage(img, Add32(rva, 2), 2 * length);
    seq(|units| / 2, i requires 0 <= i < |units| / 2 => units[2 * i])
  }

  /**
   * The name read has at most the declared number of characters, all of
   * them when the units lie inside the image, and each character is the low
   * (first) byte of its unit.
   */
  lemma ReadStringRcChars(img: seq<u8>, rva: u32)
    requires |img| < TWO_32
    ensures var length := U16At(ReadPadded(img, rva, 2), 0);
      var r := ReadStringRc(img, rva);
      |r| <= length &&
      (rva + 2 + 2 * length <= |img| ==>
        (|r| == length && forall i :: 0 <= i < length ==> r[i] == img[rva + 2 + 2 * i]))
  {
  }

  /** An offset below 2^31: anything a masked entry field can point at. */
  predicate IsMasked(x: int)
  {
    0 <= x < 0x8000_0000
  }

  /** Every masked offset. */
  ghost function NodeOffsetSpace(): set<u32>
  {
    set x: u32 | 0 <= x < 0x8000_0000 && IsMasked(x)
  }

  /** The state after reading never loses a node offset or an occupied range, and keeps a recorded loader error. */
  ghost predicate Grows(st: ReadState, st': ReadState)
  {
    st.nodeOffsets <= st'.nodeOffsets &&
    st.occupied <= st'.occupied &&
    (st.ldrError != LDR_ERROR_NONE ==> st'.ldrError == st.ldrError)
  }

  /** The state with a loader error reported through setLoaderError. */
  function Report(st: ReadState, e: LoaderError): (r: ReadState)
    ensures Grows(st, r) && r.nodeOffsets == st.nodeOffsets && r.occupied == st.occupied
  {
    st.(ldrError := KeepFirst(st.ldrError, e))
  }

  /** The state with one more occupied range recorded through addOccupiedAddressRange. */
  function Occupy(st: ReadState, first: u32, last: u32): (r: ReadState)
    ensures Grows(st, r) && r.nodeOffsets == st.nodeOffsets && r.occupied == st.occupied + [(first, last)]
  {
    st.(occupied := st.occupied + [(first, last)])
  }

  /**
   * ResourceLeaf::read: the 16-byte data entry at uiRsrcRva + uiOffset,
   * then the data from its OffsetToData, unless the entry is empty (skipped)
   * or its data range is not inside the image (kept without data). Sums are
   * 32-bit, as in the library.
   */
  function LeafRead(img: seq<u8>, rsrc: u32, offset: u32, soi: u32, st: ReadState): (r: ReadResult)
    requires |img| < TWO_32
    ensures r.element.Leaf? && Grows(st, r.st) && r.st.nodeOffsets == st.nodeOffsets
    ensures r.status == ERROR_INVALID_FILE <==> Add32(rsrc, offset) > soi
    ensures r.status == ERROR_SKIP_RESOURCE <==>
      Add32(rsrc, offset) <= soi && r.element.entry.OffsetToData == 0 && r.element.entry.Size == 0
    ensures r.status in {ERROR_NONE, ERROR_INVALID_FILE, ERROR_SKIP_RESOURCE}
    ensures r.element.data != [] ==>
      r.status == ERROR_NONE && DataInImage(rsrc, soi, r.element.entry) && r.element.data == LeafData(img, r.element.entry)
  {
    var rva := Add32(rsrc, offset);
    if rva > soi then ReadResult(ERROR_INVALID_FILE, EMPTY_LEAF, st)
    else
      LeafEntryRead(img, rsrc, soi, DataEntryAt(img, rva), Occupy(st, rva, Trunc32(rva + RESOURCE_DATA_ENTRY_SIZE - 1)))
  }

  /**
   * The checks ResourceLeaf::read makes on the data range of an entry:
   * offset and size within SizeOfImage, the range from uiRsrcRva plus the
   * offset inside the image, and neither 32-bit sum wrapped below uiRsrcRva.
   */
  predicate DataInImage(rsrc: u32, soi: u32, entry: DataEntry)
  {
    var start := Add32(rsrc, entry.OffsetToData);
    var end := Add32(start, entry.Size);
    entry.OffsetToData <= soi && entry.Size <= soi && start < soi && end <= soi && rsrc <= start && rsrc <= end
  }

  /** ResourceLeaf::read after the data entry: an empty entry is skipped, data in the image is read. */
  function LeafEntryRead(img: seq<u8>, rsrc: u32, soi: u32, entry: DataEntry, st: ReadState): (r: ReadResult)
    requires |img| < TWO_32
    ensures r.element.Leaf? && r.element.entry == entry && Grows(st, r.st) && r.st.nodeOffsets == st.nodeOffsets
    ensures r.status == ERROR_SKIP_RESOURCE <==> entry.OffsetToData == 0 && entry.Size == 0
    ensures r.status in {ERROR_NONE, ERROR_SKIP_RESOURCE}
    ensures r.element.data != [] ==>
      r.status == ERROR_NONE && DataInImage(rsrc, soi, entry) && r.element.data == LeafData(img, entry)
  {
    if entry.OffsetToData == 0 && entry.Size == 0 then ReadResult(ERROR_SKIP_RESOURCE, Leaf(entry, []), st)
    else if !DataInImage(rsrc, soi, entry) then ReadResult(ERROR_NONE, Leaf(entry, []), st)
    else
      var st1 := if entry.Size > 0 then Occupy(st, entry.OffsetToData, Trunc32(entry.OffsetToData + entry.Size - 1)) else st;
      ReadResult(ERROR_NONE, Leaf(entry, LeafData(img, entry)), st1)
  }

  /** The data entry at `rva`, read into a zeroed structure. */
  function DataEntryAt(img: seq<u8>, rva: u32): DataEntry
    requires |img| < TWO_32
  {
    DataEntryOf(ReadPadded(img, rva, 16))
  }

  /** The data a leaf's entry points at, read into a buffer of entry.Size bytes. */
  function LeafData(img: seq<u8>, entry: DataEntry): (r: seq<u8>)
    requires |img| < TWO_32
    ensures |r| == entry.Size
    ensures entry.OffsetToData + entry.Size <= |img| ==> r == img[entry.OffsetToData..entry.OffsetToData + entry.Size]
  {
    ReadPadded(img, entry.OffsetToData, entry.Size)
  }

  /** The entry counts a header may declare before the node is skipped. */
  predicate CountsWithinLimit(h: NodeHeader)
  {
    h.NumberOfNamedEntries <= MAX_RESOURCE_ENTRIES && h.NumberOfIdEntries <= MAX_RESOURCE_ENTRIES &&
    h.NumberOfNamedEntries + h.NumberOfIdEntries <= MAX_RESOURCE_ENTRIES
  }

  /**
   * ResourceNode::read into the node `prior`: the 16-byte header at
   * uiRsrcRva + uiOffset, the entry-count limit, the check that the entries
   * lie inside the image, and then the entries themselves (EntriesRead),
   * whose children follow the ones `prior` already has. The node's offset
   * is recorded before its entries are read, so that no entry leads back
   * to it. A header the image holds only part of keeps the rest of
   * `prior`'s header bytes.
   */
  function NodeRead(img: seq<u8>, rsrc: u32, offset: u32, soi: u32, st: ReadState, prior: ResourceElement): (r: ReadResult)
    requires |img| < TWO_32 && prior.Node?
    ensures r.element.Node? && Grows(st, r.st) && prior.children <= r.element.children
    ensures r.st.nodeOffsets <= st.nodeOffsets + NodeOffsetSpace() + {offset}
    ensures r.status in {ERROR_NONE, ERROR_INVALID_FILE, ERROR_SKIP_RESOURCE}
    ensures |r.element.children| <= |prior.children| + MAX_RESOURCE_ENTRIES
    ensures |r.element.children| > |prior.children| ==> offset in r.st.nodeOffsets
    decreases NodeOffsetSpace() - st.nodeOffsets - {offset}, 1, 2
  {
    var rva := Add32(rsrc, offset);
    if rva > soi then ReadResult(ERROR_INVALID_FILE, prior, st)
    else
      var h := HeaderOf(ReadInto(img, rva, HeaderBytes(prior.header)));
      if |ReadImage(img, rva, 16)| != RESOURCE_DIRECTORY_SIZE then ReadResult(ERROR_INVALID_FILE, Node(h, prior.children), st)
      else if !CountsWithinLimit(h) then ReadResult(ERROR_SKIP_RESOURCE, Node(h, prior.children), st)
      else NodeEntriesRead(img, rsrc, offset, soi, h, rva, st, prior.children)
  }

  /**
   * ResourceNode::read after a header `h` within the limit was read at
   * `rva`: a node whose entries run past the image reports it and keeps
   * no entries; otherwise its offset is recorded and its entries read.
   */
  function NodeEntriesRead(img: seq<u8>, rsrc: u32, offset: u32, soi: u32, h: NodeHeader, rva: u32,
                           st: ReadState, children: seq<ResourceChild>): (r: ReadResult)
    requires |img| < TWO_32 && CountsWithinLimit(h)
    ensures r.element.Node? && r.element.header == h && Grows(st, r.st) && children <= r.element.children
    ensures r.st.nodeOffsets <= st.nodeOffsets + NodeOffsetSpace() + {offset}
    ensures r.status in {ERROR_NONE, ERROR_INVALID_FILE}
    ensures |r.element.children| <= |children| + MAX_RESOURCE_ENTRIES
    ensures |r.element.children| > |children| ==> offset in r.st.nodeOffsets
    decreases NodeOffsetSpace() - st.nodeOffsets - {offset}, 1, 1
  {
    var n := h.NumberOfNamedEntries + h.NumberOfIdEntries;
    var st1 := Occupy(st, rva, Trunc32(rva + RESOURCE_DIRECTORY_SIZE - 1));
    var entries := Add32(rva, 16);
    if entries + RESOURCE_DIRECTORY_ENTRY_SIZE * n > soi then
      ReadResult(ERROR_NONE, Node(h, children), Report(st1, LDR_ERROR_RSRC_OVER_END_OF_IMAGE))
    else NodeExpand(img, rsrc, offset, soi, h, entries, n, st1, children)
  }

  /** The node at `offset` is recorded as expanded, its `n` entries at `entries` occupied and read. */
  function NodeExpand(img: seq<u8>, rsrc: u32, offset: u32, soi: u32, h: NodeHeader, entries: u32, n: nat,
                      st: ReadState, children: seq<ResourceChild>): (r: ReadResult)
    requires |img| < TWO_32 && n <= MAX_RESOURCE_ENTRIES
    ensures r.element.Node? && r.element.header == h && Grows(st, r.st) && children <= r.element.children
    ensures r.st.nodeOffsets <= st.nodeOffsets + NodeOffsetSpace() + {offset}
    ensures r.status in {ERROR_NONE, ERROR_INVALID_FILE}
    ensures |r.element.children| <= |children| + n
    ensures offset in r.st.nodeOffsets
    decreases NodeOffsetSpace() - st.nodeOffsets - {offset}, 1, 0
  {
    var st1 := st.(nodeOffsets := st.nodeOffsets + {offset});
    var st2 := if n > 0 then Occupy(st1, entries, Trunc32(entries + RESOURCE_DIRECTORY_ENTRY_SIZE * n - 1)) else st1;
    EntriesRead(img, rsrc, soi, h, entries, 0, n, st2, children)
  }

  /**
   * The checks ResourceNode::read makes on one entry before reading its
   * child: either the node ends here (with a return code), or the child is
   * read with the entry's name string.
   */
  datatype EntryCheck = Stop(status: int, st: ReadState) | Go(wstrName: seq<u8>, st: ReadState)

  /**
   * The checks on the entry with fields `name` and `target`: a string name
   * or a target beyond the image reports a loader error, a subdirectory
   * beyond the image ends the node without error, a name whose length
   * field lies past the image ends it as invalid, a string name of at
   * most 100 characters is read, and a target among the expanded nodes
   * ends the node (the cycle check).
   */
  function CheckEntry(img: seq<u8>, rsrc: u32, soi: u32, name: u32, target: u32, st: ReadState): (r: EntryCheck)
    requires |img| < TWO_32
    ensures Grows(st, r.st) && r.st.nodeOffsets == st.nodeOffsets && r.st.occupied == st.occupied
    ensures r.Stop? ==> r.status in {ERROR_NONE, ERROR_INVALID_FILE}
    ensures r.Go? ==> RvaBits(target) !in st.nodeOffsets
  {
    var st1 := if HasTopBit(name) && RvaBits(name) > soi then Report(st, LDR_ERROR_RSRC_NAME_OUT_OF_IMAGE) else st;
    if RvaBits(target) > soi && HasTopBit(target) then
      Stop(ERROR_NONE, Report(st1, LDR_ERROR_RSRC_SUBDIR_OUT_OF_IMAGE))
    else
      var st2 := if RvaBits(target) > soi then Report(st1, LDR_ERROR_RSRC_DATA_OUT_OF_IMAGE) else st1;
      var nameRva := Add32(rsrc, RvaBits(name));
      if HasTopBit(name) && RvaBits(name) + 2 < soi && nameRva + 2 > soi then Stop(ERROR_INVALID_FILE, st2)
      else
        var wstrName :=
          if HasTopBit(name) && RvaBits(name) + 2 < soi && U16At(ReadPadded(img, nameRva, 2), 0) <= 100
          then ReadStringRc(img, nameRva) else [];
        if RvaBits(target) in st2.nodeOffsets then Stop(ERROR_NONE, st2)
        else Go(wstrName, st2)
  }

  /** The child an entry points at: a node when the directory flag is set, a leaf otherwise. */
  function ChildRead(img: seq<u8>, rsrc: u32, soi: u32, target: u32, st: ReadState): (r: ReadResult)
    requires |img| < TWO_32
    ensures Grows(st, r.st)
    ensures r.st.nodeOffsets <= st.nodeOffsets + NodeOffsetSpace()
    ensures r.status in {ERROR_NONE, ERROR_INVALID_FILE, ERROR_SKIP_RESOURCE}
    decreases NodeOffsetSpace() - st.nodeOffsets - {RvaBits(target)}, 2, 0
  {
    if HasTopBit(target) then NodeRead(img, rsrc, RvaBits(target), soi, st, EMPTY_NODE)
    else LeafRead(img, rsrc, RvaBits(target), soi, st)
  }

  /**
   * The loop of ResourceNode::read from entry `i` of `n` on, the entry at
   * `rva`, after the children `done`: each entry is checked (CheckEntry)
   * and its child read, which is kept on success, dropped when skipped,
   * and ends the node with its error otherwise.
   */
  function EntriesRead(img: seq<u8>, rsrc: u32, soi: u32, h: NodeHeader, rva: u32, i: nat, n: nat,
                       st: ReadState, done: seq<ResourceChild>): (r: ReadResult)
    requires |img| < TWO_32 && i <= n
    ensures r.element.Node? && r.element.header == h && done <= r.element.children && Grows(st, r.st)
    ensures r.st.nodeOffsets <= st.nodeOffsets + NodeOffsetSpace()
    ensures r.status in {ERROR_NONE, ERROR_INVALID_FILE}
    ensures |r.element.children| <= |done| + n - i
    decreases NodeOffsetSpace() - st.nodeOffsets, 0, n - i
  {
    if i == n then ReadResult(ERROR_NONE, Node(h, done), st)
    else
      var b := ReadPadded(img, rva, 8);
      var name := U32At(b, 0);
      var target := U32At(b, 4);
      match CheckEntry(img, rsrc, soi, name, target, st)
      case Stop(status, st1) => ReadResult(status, Node(h, done), st1)
      case Go(wstrName, st1) =>
        var c := ChildRead(img, rsrc, soi, target, st1);
        var next := Add32(rva, RESOURCE_DIRECTORY_ENTRY_SIZE);
        if c.status == ERROR_NONE then
          EntriesRead(img, rsrc, soi, h, next, i + 1, n, c.st, done + [ResourceChild(ResDirEntry(name, target, wstrName), c.element)])
        else if c.status == ERROR_SKIP_RESOURCE then
          EntriesRead(img, rsrc, soi, h, next, i + 1, n, c.st, done)
        else ReadResult(c.status, Node(h, done), c.st)
  }

  /** An entry whose checks end the node ends the loop with their return code. */
  lemma EntryStops(img: seq<u8>, rsrc: u32, soi: u32, h: NodeHeader, rva: u32, i: nat, n: nat,
                   st: ReadState, done: seq<ResourceChild>, name: u32, target: u32)
    requires |img| < TWO_32 && i < n
    requires name == U32At(ReadPadded(img, rva, 8), 0) && target == U32At(ReadPadded(img, rva, 8), 4)
    requires CheckEntry(img, rsrc, soi, name, target, st).Stop?
    ensures var c := CheckEntry(img, rsrc, soi, name, target, st);
      EntriesRead(img, rsrc, soi, h, rva, i, n, st, done) == ReadResult(c.status, Node(h, done), c.st)
  {
  }

  /** An entry that passes its checks: its child is kept, skipped, or ends the loop with its error. */
  lemma EntryGoes(img: seq<u8>, rsrc: u32, soi: u32, h: NodeHeader, rva: u32, i: nat, n: nat,
                  st: ReadState, done: seq<ResourceChild>, name: u32, target: u32)
    requires |img| < TWO_32 && i < n
    requires name == U32At(ReadPadded(img, rva, 8), 0) && target == U32At(ReadPadded(img, rva, 8), 4)
    requires CheckEntry(img, rsrc, soi, name, target, st).Go?
    ensures var g := CheckEntry(img, rsrc, soi, name, target, st);
      var c := ChildRead(img, rsrc, soi, target, g.st);
      var next := Add32(rva, RESOURCE_DIRECTORY_ENTRY_SIZE);
      EntriesRead(img, rsrc, soi, h, rva, i, n, st, done) ==
        if c.status == ERROR_NONE then
          EntriesRead(img, rsrc, soi, h, next, i + 1, n, c.st, done + [ResourceChild(ResDirEntry(name, target, g.wstrName), c.element)])
        else if c.status == ERROR_SKIP_RESOURCE then EntriesRead(img, rsrc, soi, h, next, i + 1, n, c.st, done)
        else ReadResult(c.status, Node(h, done), c.st)
  {
  }

  /**
   * A node is skipped exactly when its header lies inside the image and
   * declares more entries than the limit allows.
   */
  lemma NodeReadSkips(img: seq<u8>, rsrc: u32, offset: u32, soi: u32, st: ReadState, prior: ResourceElement)
    requires |img| < TWO_32 && prior.Node?
    ensures var rva := Add32(rsrc, offset);
      NodeRead(img, rsrc, offset, soi, st, prior).status == ERROR_SKIP_RESOURCE <==>
      rva <= soi && |ReadImage(img, rva, 16)| == RESOURCE_DIRECTORY_SIZE &&
      !CountsWithinLimit(HeaderOf(ReadImage(img, rva, 16)))
  {
  }

  /**
   * The cycle check: an entry whose target is a node already expanded
   * adds no child and ends the node, whatever the target holds.
   */
  lemma CycleStops(img: seq<u8>, rsrc: u32, soi: u32, h: NodeHeader, rva: u32, i: nat, n: nat,
                   st: ReadState, done: seq<ResourceChild>)
    requires |img| < TWO_32 && i < n
    requires RvaBits(U32At(ReadPadded(img, rva, 8), 4)) in st.nodeOffsets
    ensures var r := EntriesRead(img, rsrc, soi, h, rva, i, n, st, done);
      r.element.children == done && r.st.nodeOffsets == st.nodeOffsets
  {
  }

  // ---------------------------------------------------------------------
  // Resource types: lookups after an addition

  /** A type added by ID after no child had that ID is found at the end. */
  lemma {:induction false} AddedIdIsFound(s: seq<ResourceChild>, id: u32)
    requires FindId(s, id) == |s|
    ensures FindId(s + [NewType(ResDirEntry(id, 0, []))], id) == |s|
  {
    if s != [] {
      assert (s + [NewType(ResDirEntry(id, 0, []))])[1..] == s[1..] + [NewType(ResDirEntry(id, 0, []))];
      AddedIdIsFound(s[1..], id);
    }
  }

  /** A type added by name after no child had that name is found at the end. */
  lemma {:induction false} AddedNameIsFound(s: seq<ResourceChild>, name: seq<u8>)
    requires FindName(s, name) == |s|
    ensures FindName(s + [NewType(ResDirEntry(0, 0, name))], name) == |s|
  {
    if s != [] {
      assert (s + [NewType(ResDirEntry(0, 0, name))])[1..] == s[1..] + [NewType(ResDirEntry(0, 0, name))];
      AddedNameIsFound(s[1..], name);
    }
  }

  /** An index as the library returns it through `int`: a 32-bit value read as signed. */
  function AsInt32(x: u32): (r: int)
    ensures x < 0x8000_0000 ==> r == x
    ensures x >= 0x8000_0000 ==> r < 0
  {
    if x < 0x8000_0000 then x else x - TWO_32
  }

  // ---------------------------------------------------------------------
  // ResourceDirectory

  /**
   * ResourceDirectory: the root node, the loader error, the offsets of the
   * nodes read so far and the address ranges the directory occupies.
   */
  class ResourceDirectory {
    var root: ResourceElement
    var ldrError: LoaderError
    var nodeOffsets: set<u32>
    var occupied: seq<(u32, u32)>

    /** m_rnRoot is a node. */
    ghost predicate Valid()
      reads this
    {
      root.Node?
    }

    /** The fields reading updates besides the root. */
    function State(): ReadState
      reads this
    {
      ReadState(nodeOffsets, occupied, ldrError)
    }

    constructor ()
      ensures Valid() && root == EMPTY_NODE && State() == ReadState({}, [], LDR_ERROR_NONE)
    {
      root := EMPTY_NODE;
      ldrError := LDR_ERROR_NONE;
      nodeOffsets := {};
      occupied := [];
    }

    /** setLoaderError: an error already recorded is not overridden. */
    method SetLoaderError(e: LoaderError)
      modifies this`ldrError
      ensures ldrError == KeepFirst(old(ldrError), e)
    {
      if ldrError == LDR_ERROR_NONE {
        ldrError := e;
      }
    }

    /** insertNodeOffset. */
    method InsertNodeOffset(offset: u32)
      modifies this`nodeOffsets
      ensures nodeOffsets == old(nodeOffsets) + {offset}
    {
      nodeOffsets := nodeOffsets + {offset};
    }

    /** hasNodeOffset. */
    method HasNodeOffset(offset: u32) returns (found: bool)
      ensures found <==> offset in nodeOffsets
    {
      found := offset in nodeOffsets;
    }

    /** addOccupiedAddressRange. */
    method AddOccupiedAddressRange(first: u32, last: u32)
      modifies this`occupied
      ensures occupied == old(occupied) + [(first, last)]
    {
      occupied := occupied + [(first, last)];
    }

    /** ResourceLeaf::read, recording into this directory. */
    method ReadLeaf(img: seq<u8>, rsrc: u32, offset: u32, soi: u32) returns (status: int, element: ResourceElement)
      requires |img| < TWO_32
      modifies this`occupied
      ensures ReadResult(status, element, State()) == LeafRead(img, rsrc, offset, soi, old(State()))
    {
      var rva := Add32(rsrc, offset);
      if rva > soi {
        return ERROR_INVALID_FILE, EMPTY_LEAF;
      }
      var entry := DataEntryAt(img, rva);
      AddOccupiedAddressRange(rva, Trunc32(rva + RESOURCE_DATA_ENTRY_SIZE - 1));
      status, element := ReadLeafData(img, rsrc, soi, entry);
    }

    /** ResourceLeaf::read after the data entry. */
    method ReadLeafData(img: seq<u8>, rsrc: u32, soi: u32, entry: DataEntry) returns (status: int, element: ResourceElement)
      requires |img| < TWO_32
      modifies this`occupied
      ensures ReadResult(status, element, State()) == LeafEntryRead(img, rsrc, soi, entry, old(State()))
    {
      status, element := ERROR_NONE, Leaf(entry, []);
      if entry.OffsetToData == 0 && entry.Size == 0 {
        return ERROR_SKIP_RESOURCE, element;
      }
      if entry.OffsetToData > soi || entry.Size > soi {
        return;
      }
      var start := Add32(rsrc, entry.OffsetToData);
      var end := Add32(start, entry.Size);
      if start >= soi || end > soi {
        return;
      }
      if start < rsrc || end < rsrc {
        return;
      }
      element := Leaf(entry, LeafData(img, entry));
      if entry.Size > 0 {
        AddOccupiedAddressRange(entry.OffsetToData, Trunc32(entry.OffsetToData + entry.Size - 1));
      }
    }

    /** ResourceNode::read into `prior`, recording into this directory. */
    method ReadNode(img: seq<u8>, rsrc: u32, offset: u32, soi: u32, prior: ResourceElement)
      returns (status: int, element: ResourceElement)
      requires |img| < TWO_32 && prior.Node?
      modifies this`nodeOffsets, this`occupied, this`ldrError
      ensures ReadResult(status, element, State()) == NodeRead(img, rsrc, offset, soi, old(State()), prior)
      decreases NodeOffsetSpace() - nodeOffsets - {offset}, 1, 2
    {
      var rva := Add32(rsrc, offset);
      if rva > soi {
        return ERROR_INVALID_FILE, prior;
      }
      var h := HeaderOf(ReadInto(img, rva, HeaderBytes(prior.header)));
      if |ReadImage(img, rva, 16)| != RESOURCE_DIRECTORY_SIZE {
        return ERROR_INVALID_FILE, Node(h, prior.children);
      }
      if !CountsWithinLimit(h) {
        return ERROR_SKIP_RESOURCE, Node(h, prior.children);
      }
      status, element := ReadNodeEntries(img, rsrc, offset, soi, h, rva, prior.children);
    }

    /** ResourceNode::read after the header `h` at `rva`. */
    method ReadNodeEntries(img: seq<u8>, rsrc: u32, offset: u32, soi: u32, h: NodeHeader, rva: u32, children: seq<ResourceChild>)
      returns (status: int, element: ResourceElement)
      requires |img| < TWO_32 && CountsWithinLimit(h)
      modifies this`nodeOffsets, this`occupied, this`ldrError
      ensures ReadResult(status, element, State()) == NodeEntriesRead(img, rsrc, offset, soi, h, rva, old(State()), children)
      decreases NodeOffsetSpace() - nodeOffsets - {offset}, 1, 1
    {
      var n := h.NumberOfNamedEntries + h.NumberOfIdEntries;
      AddOccupiedAddressRange(rva, Trunc32(rva + RESOURCE_DIRECTORY_SIZE - 1));
      var entries := Add32(rva, 16);
      if entries + RESOURCE_DIRECTORY_ENTRY_SIZE * n > soi {
        SetLoaderError(LDR_ERROR_RSRC_OVER_END_OF_IMAGE);
        return ERROR_NONE, Node(h, children);
      }
      status, element := ExpandNode(img, rsrc, offset, soi, h, entries, n, children);
    }

    /** insertNodeOffset, the range of the entries, and the loop over them. */
    method ExpandNode(img: seq<u8>, rsrc: u32, offset: u32, soi: u32, h: NodeHeader, entries: u32, n: nat,
                      children: seq<ResourceChild>)
      returns (status: int, element: ResourceElement)
      requires |img| < TWO_32 && n <= MAX_RESOURCE_ENTRIES
      modifies this`nodeOffsets, this`occupied, this`ldrError
      ensures ReadResult(status, element, State()) == NodeExpand(img, rsrc, offset, soi, h, entries, n, old(State()), children)
      decreases NodeOffsetSpace() - nodeOffsets - {offset}, 1, 0
    {
      InsertNodeOffset(offset);
      if n > 0 {
        AddOccupiedAddressRange(entries, Trunc32(entries + RESOURCE_DIRECTORY_ENTRY_SIZE * n - 1));
      }
      status, element := ReadEntries(img, rsrc, soi, h, entries, n, children);
    }

    /** The loop of ResourceNode::read over the `n` entries at `rva`, after the children `done`. */
    method ReadEntries(img: seq<u8>, rsrc: u32, soi: u32, h: NodeHeader, rva: u32, n: nat, done: seq<ResourceChild>)
      returns (status: int, element: ResourceElement)
      requires |img| < TWO_32
      modifies this`nodeOffsets, this`occupied, this`ldrError
      ensures ReadResult(status, element, State()) == EntriesRead(img, rsrc, soi, h, rva, 0, n, old(State()), done)
      decreases NodeOffsetSpace() - nodeOffsets, 0, n + 1
    {
      var i, cur, children := 0, rva, done;
      while i < n
        invariant i <= n && old(nodeOffsets) <= nodeOffsets
        invariant EntriesRead(img, rsrc, soi, h, cur, i, n, State(), children) ==
                  EntriesRead(img, rsrc, soi, h, rva, 0, n, old(State()), done)
      {
        var stop, stopStatus;
        stop, stopStatus, children := ReadEntry(img, rsrc, soi, h, cur, i, n, children);
        if stop {
          return stopStatus, Node(h, children);
        }
        cur := Add32(cur, RESOURCE_DIRECTORY_ENTRY_SIZE);
        i := i + 1;
      }
      status, element := ERROR_NONE, Node(h, children);
    }

    /**
     * One turn of that loop, on entry `i` at `rva`: `stop` when the node
     * ends here, with its return code, and otherwise the children with
     * this entry's child added unless it was skipped.
     */
    method ReadEntry(img: seq<u8>, rsrc: u32, soi: u32, h: NodeHeader, rva: u32, i: nat, n: nat, done: seq<ResourceChild>)
      returns (stop: bool, status: int, children: seq<ResourceChild>)
      requires |img| < TWO_32 && i < n
      modifies this`nodeOffsets, this`occupied, this`ldrError
      ensures old(nodeOffsets) <= nodeOffsets
      ensures stop ==> EntriesRead(img, rsrc, soi, h, rva, i, n, old(State()), done) == ReadResult(status, Node(h, children), State())
      ensures !stop ==>
        (EntriesRead(img, rsrc, soi, h, rva, i, n, old(State()), done) ==
         EntriesRead(img, rsrc, soi, h, Add32(rva, RESOURCE_DIRECTORY_ENTRY_SIZE), i + 1, n, State(), children))
      decreases NodeOffsetSpace() - nodeOffsets, 0, n - i
    {
      var b := ReadPadded(img, rva, 8);
      var name, target := U32At(b, 0), U32At(b, 4);
      ghost var before := State();
      var wstrName;
      stop, status, wstrName := CheckEntryAt(img, rsrc, soi, name, target);
      children := done;
      if stop {
        EntryStops(img, rsrc, soi, h, rva, i, n, before, done, name, target);
        return;
      }
      EntryGoes(img, rsrc, soi, h, rva, i, n, before, done, name, target);
      assert RvaBits(target) in NodeOffsetSpace() && RvaBits(target) !in nodeOffsets;
      var child;
      status, child := ReadChild(img, rsrc, soi, target);
      if status == ERROR_NONE {
        children := done + [ResourceChild(ResDirEntry(name, target, wstrName), child)];
      } else if status != ERROR_SKIP_RESOURCE {
        stop := true;
      }
    }

    /**
     * The checks on one entry, reporting loader errors into this directory:
     * `stop` when the node ends at this entry, with its return code, and
     * otherwise the entry's name string.
     */
    method CheckEntryAt(img: seq<u8>, rsrc: u32, soi: u32, name: u32, target: u32)
      returns (stop: bool, status: int, wstrName: seq<u8>)
      requires |img| < TWO_32
      modifies this`ldrError
      ensures var c := CheckEntry(img, rsrc, soi, name, target, old(State()));
        State() == c.st && (stop <==> c.Stop?) && (c.Stop? ==> status == c.status) && (c.Go? ==> wstrName == c.wstrName)
    {
      stop, status, wstrName := false, ERROR_NONE, [];
      if HasTopBit(name) && RvaBits(name) > soi {
        SetLoaderError(LDR_ERROR_RSRC_NAME_OUT_OF_IMAGE);
      }
      if RvaBits(target) > soi {
        if HasTopBit(target) {
          SetLoaderError(LDR_ERROR_RSRC_SUBDIR_OUT_OF_IMAGE);
          return true, ERROR_NONE, [];
        }
        SetLoaderError(LDR_ERROR_RSRC_DATA_OUT_OF_IMAGE);
      }
      if HasTopBit(name) && RvaBits(name) + 2 < soi {
        var nameRva := Add32(rsrc, RvaBits(name));
        if nameRva + 2 > soi {
          return true, ERROR_INVALID_FILE, [];
        }
        if U16At(ReadPadded(img, nameRva, 2), 0) <= 100 {
          wstrName := ReadStringRc(img, nameRva);
        }
      }
      var seen := HasNodeOffset(RvaBits(target));
      if seen {
        stop := true;
      }
    }

    /** The child of an entry: a node when the directory flag is set, a leaf otherwise. */
    method ReadChild(img: seq<u8>, rsrc: u32, soi: u32, target: u32) returns (status: int, element: ResourceElement)
      requires |img| < TWO_32
      modifies this`nodeOffsets, this`occupied, this`ldrError
      ensures ReadResult(status, element, State()) == ChildRead(img, rsrc, soi, target, old(State()))
      decreases NodeOffsetSpace() - nodeOffsets - {RvaBits(target)}, 2, 0
    {
      if HasTopBit(target) {
        status, element := ReadNode(img, rsrc, RvaBits(target), soi, EMPTY_NODE);
      } else {
        status, element := ReadLeaf(img, rsrc, RvaBits(target), soi);
      }
    }

    /**
     * ResourceDirectory::read: the root node is read from the resource
     * data directory's RVA, within SizeOfImage.
     */
    method Read(img: seq<u8>, oh: OptionalHeader) returns (r: int)
      requires |img| < TWO_32 && Valid()
      modifies this
      ensures Valid()
      ensures var x := NodeRead(img, DataDirRva(oh, DIR_RESOURCE), 0, oh.SizeOfImage, old(State()), old(root));
        r == x.status && root == x.element && State() == x.st
    {
      var element;
      r, element := ReadNode(img, DataDirRva(oh, DIR_RESOURCE), 0, oh.SizeOfImage, root);
      root := element;
    }

    /**
     * ResourceDirectory::makeValid: the root's children sorted with the
     * named ones first, and, below 2^16 children, counted in the header.
     */
    method MakeValidRoot()
      requires Valid()
      modifies this`root
      ensures Valid() && root == MakeValid(old(root))
      ensures Sorted(root.children) && multiset(root.children) == multiset(old(root).children)
      ensures |old(root).children| < TWO_16 ==> CountsAgree(root)
    {
      MakeValidNodeIsValid(root.header, root.children);
      root := MakeValid(root);
    }

    /**
     * ResourceDirectory::recalculate: the tree laid out from offset 0 at
     * RVA newRva; the new size is the whole layout, cut to 32 bits.
     */
    method RecalculateRoot(newRva: u32) returns (newSize: u32)
      requires Valid()
      modifies this`root
      ensures Valid() && root == Recalculate(old(root), 0, newRva).element
      ensures newSize == Trunc32(LayoutSize(old(root)))
      ensures NodeLaidOut(old(root), 0, newRva, root)
    {
      RecalculateLayout(root, 0, newRva);
      var p := RecalculateElement(root, 0, newRva);
      root := p.element;
      newSize := p.next;
    }

    /** addResourceType(id): ERROR_DUPLICATE_ENTRY, changing nothing, when a type has that ID. */
    method AddResourceTypeId(id: u32) returns (r: int)
      requires Valid()
      modifies this`root
      ensures Valid()
      ensures (exists j :: 0 <= j < |old(root).children| && EqualId(old(root).children[j], id)) ==>
        r == ERROR_DUPLICATE_ENTRY && root == old(root)
      ensures (forall j :: 0 <= j < |old(root).children| ==> !EqualId(old(root).children[j], id)) ==>
        r == ERROR_NONE && root == Node(old(root).header, old(root).children + [NewType(ResDirEntry(id, 0, []))]) &&
        FindId(root.children, id) == |old(root).children|
    {
      var k := FindId(root.children, id);
      if k < |root.children| {
        return ERROR_DUPLICATE_ENTRY;
      }
      AddedIdIsFound(root.children, id);
      root := Node(root.header, root.children + [NewType(ResDirEntry(id, 0, []))]);
      r := ERROR_NONE;
    }

    /** addResourceType(name): ERROR_DUPLICATE_ENTRY, changing nothing, when a type has that name. */
    method AddResourceTypeName(name: seq<u8>) returns (r: int)
      requires Valid()
      modifies this`root
      ensures Valid()
      ensures (exists j :: 0 <= j < |old(root).children| && EqualName(old(root).children[j], name)) ==>
        r == ERROR_DUPLICATE_ENTRY && root == old(root)
      ensures (forall j :: 0 <= j < |old(root).children| ==> !EqualName(old(root).children[j], name)) ==>
        r == ERROR_NONE && root == Node(old(root).header, old(root).children + [NewType(ResDirEntry(0, 0, name))]) &&
        FindName(root.children, name) == |old(root).children|
    {
      var k := FindName(root.children, name);
      if k < |root.children| {
        return ERROR_DUPLICATE_ENTRY;
      }
      AddedNameIsFound(root.children, name);
      root := Node(root.header, root.children + [NewType(ResDirEntry(0, 0, name))]);
      r := ERROR_NONE;
    }

    /**
     * removeResourceType(id): ERROR_ENTRY_NOT_FOUND when no type has that
     * ID; otherwise the first such type is erased and its kind recounted.
     */
    method RemoveResourceTypeId(id: u32) returns (r: int)
      requires Valid()
      modifies this`root
      ensures Valid()
      ensures (forall j :: 0 <= j < |old(root).children| ==> !EqualId(old(root).children[j], id)) ==>
        r == ERROR_ENTRY_NOT_FOUND && root == old(root)
      ensures var k := FindId(old(root).children, id);
        k < |old(root).children| ==>
          r == ERROR_NONE && EqualId(old(root).children[k], id) &&
          root == RemoveChild(old(root).header, old(root).children, k) &&
          root.children == old(root).children[..k] + old(root).children[k + 1..] &&
          (CountsAgree(old(root)) ==> CountsAgree(root))
    {
      var k := FindId(root.children, id);
      if k == |root.children| {
        return ERROR_ENTRY_NOT_FOUND;
      }
      RemoveChildKeepsCounts(root.header, root.children, k);
      root := RemoveChild(root.header, root.children, k);
      r := ERROR_NONE;
    }

    /**
     * removeResourceType(name): ERROR_ENTRY_NOT_FOUND when no type has
     * that name; otherwise the first such type is erased and its kind recounted.
     */
    method RemoveResourceTypeName(name: seq<u8>) returns (r: int)
      requires Valid()
      modifies this`root
      ensures Valid()
      ensures (forall j :: 0 <= j < |old(root).children| ==> !EqualName(old(root).children[j], name)) ==>
        r == ERROR_ENTRY_NOT_FOUND && root == old(root)
      ensures var k := FindName(old(root).children, name);
        k < |old(root).children| ==>
          r == ERROR_NONE && EqualName(old(root).children[k], name) &&
          root == RemoveChild(old(root).header, old(root).children, k) &&
          root.children == old(root).children[..k] + old(root).children[k + 1..] &&
          (CountsAgree(old(root)) ==> CountsAgree(root))
    {
      var k := FindName(root.children, name);
      if k == |root.children| {
        return ERROR_ENTRY_NOT_FOUND;
      }
      RemoveChildKeepsCounts(root.header, root.children, k);
      root := RemoveChild(root.header, root.children, k);
      r := ERROR_NONE;
    }

    /** removeResourceTypeByIndex: the type at `index` is erased and its kind recounted. */
    method RemoveResourceTypeByIndex(index: u32) returns (r: int)
      requires Valid() && index < |root.children|
      modifies this`root
      ensures Valid() && r == ERROR_NONE
      ensures root == RemoveChild(old(root).header, old(root).children, index)
      ensures root.children == old(root).children[..index] + old(root).children[index + 1..]
      ensures CountsAgree(old(root)) ==> CountsAgree(root)
    {
      RemoveChildKeepsCounts(root.header, root.children, index);
      root := RemoveChild(root.header, root.children, index);
      r := ERROR_NONE;
    }

    /**
     * resourceTypeIdToIndex: -1 when no type has that ID, otherwise the
     * position of the first one, returned through a 32-bit `int`.
     */
    method ResourceTypeIdToIndex(id: u32) returns (k: int)
      requires Valid()
      ensures (forall j :: 0 <= j < |root.children| ==> !EqualId(root.children[j], id)) ==> k == -1
      ensures |root.children| <= 0x8000_0000 && k != -1 ==>
        0 <= k < |root.children| && EqualId(root.children[k], id) &&
        forall j :: 0 <= j < k ==> !EqualId(root.children[j], id)
      ensures |root.children| <= 0x8000_0000 && k == -1 ==>
        forall j :: 0 <= j < |root.children| ==> !EqualId(root.children[j], id)
    {
      var f := FindId(root.children, id);
      if f == |root.children| {
        return -1;
      }
      k := AsInt32(Trunc32(f));
    }

    /**
     * resourceTypeNameToIndex: -1 when no type has that name, otherwise
     * the position of the first one, returned through a 32-bit `int`.
     */
    method ResourceTypeNameToIndex(name: seq<u8>) returns (k: int)
      requires Valid()
      ensures (forall j :: 0 <= j < |root.children| ==> !EqualName(root.children[j], name)) ==> k == -1
      ensures |root.children| <= 0x8000_0000 && k != -1 ==>
        0 <= k < |root.children| && EqualName(root.children[k], name) &&
        forall j :: 0 <= j < k ==> !EqualName(root.children[j], name)
      ensures |root.children| <= 0x8000_0000 && k == -1 ==>
        forall j :: 0 <= j < |root.children| ==> !EqualName(root.children[j], name)
    {
      var f := FindName(root.children, name);
      if f == |root.children| {
        return -1;
      }
      k := AsInt32(Trunc32(f));
    }
  }
}
