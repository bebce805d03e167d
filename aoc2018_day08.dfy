/** License tree: a flat list of numbers encodes nodes as a header (child
    count, metadata count), the children, then the metadata entries. */
module Aoc2018Day08 {
  import opened Common

  datatype Node = Node(childrenNbr: int, metadataNbr: int, children: seq<Node>, metadataList: seq<int>)

  // ---------------------------------------------------------------------
  // Encoding (the reference the parser is checked against)

  /** The numbers a node occupies in the flat list. */
  function Encode(n: Node): seq<int>
    decreases n, 1
  {
    [n.childrenNbr, n.metadataNbr] + EncodeAll(n.children) + n.metadataList
  }

  function EncodeAll(ns: seq<Node>): seq<int>
    decreases ns, 0
  {
    if ns == [] then [] else Encode(ns[0]) + EncodeAll(ns[1..])
  }

  /** The header counts match the children and metadata, all the way down. */
  predicate WellFormed(n: Node)
    decreases n, 1
  {
    n.childrenNbr == |n.children| && n.metadataNbr == |n.metadataList| && AllWellFormed(n.children)
  }

  predicate AllWellFormed(ns: seq<Node>)
    decreases ns, 0
  {
    ns == [] || (WellFormed(ns[0]) && AllWellFormed(ns[1..]))
  }

  // ---------------------------------------------------------------------
  // get_next_node

  /** A parsed node and how many numbers it consumed. */
  datatype Parsed = Parsed(node: Node, size: nat)

  /** Parsed children and the index just after them. */
  datatype Kids = Kids(nodes: seq<Node>, end: nat)

  /** `get_next_node` as a function; None where the source raises
      IndexError (a header or a metadata entry past the end). */
  function ParseNode(tree: seq<int>): (r: Option<Parsed>)
    ensures r.Some? ==> 2 <= r.value.size <= |tree|
    decreases |tree|, 1
  {
    if |tree| < 2 then None
    else
      var kids := ParseChildren(tree, 2, tree[0]);
      if kids.None? then None
      else
        var idx := kids.value.end;
        var m := if tree[1] < 0 then 0 else tree[1];
        if idx + m <= |tree| then Some(Parsed(Node(tree[0], tree[1], kids.value.nodes, tree[idx..idx + m]), idx + m))
        else None
  }

  /** The children loop of `get_next_node`: `k` more children from `idx`
      (`range(k)` is empty for k <= 0). */
  function ParseChildren(tree: seq<int>, idx: nat, k: int): (r: Option<Kids>)
    requires 2 <= idx <= |tree|
    ensures r.Some? ==> idx <= r.value.end <= |tree|
    decreases |tree|, 0, if k < 0 then 0 else k
  {
    if k <= 0 then Some(Kids([], idx))
    else
      var child := ParseNode(tree[idx..]);
      if child.None? then None
      else
        var rest := ParseChildren(tree, idx + child.value.size, k - 1);
        if rest.None? then None
        else Some(Kids([child.value.node] + rest.value.nodes, rest.value.end))
  }

  /** Prepends the children already parsed to the rest of the parse. */
  function Prepend(done: seq<Node>, r: Option<Kids>): Option<Kids>
  {
    if r.None? then None else Some(Kids(done + r.value.nodes, r.value.end))
  }

  lemma PrependNil(r: Option<Kids>)
    ensures Prepend([], r) == r
  {
    if r.Some? {
      assert [] + r.value.nodes == r.value.nodes;
    }
  }

  lemma PrependTwice(a: seq<Node>, b: seq<Node>, r: Option<Kids>)
    ensures Prepend(a, Prepend(b, r)) == Prepend(a + b, r)
  {
    if r.Some? {
      assert a + (b + r.value.nodes) == (a + b) + r.value.nodes;
    }
  }

  /** `get_next_node`. */
  method GetNextNode(tree: seq<int>) returns (r: Option<Parsed>)
    ensures r == ParseNode(tree)
    decreases |tree|, 1
  {
    if |tree| < 2 {
      return None;
    }
    var childrenNbr := tree[0];
    var metadataNbr := tree[1];
    var kids := ReadChildren(tree, childrenNbr);
    if kids.None? {
      return None;
    }
    var children := kids.value.nodes;
    var currentIdx := kids.value.end;
    var metadataList: seq<int> := [];
    ghost var start := currentIdx;
    ghost var m := if metadataNbr < 0 then 0 else metadataNbr;
    assert ParseNode(tree) == if start + m <= |tree|
      then Some(Parsed(Node(childrenNbr, metadataNbr, children, tree[start..start + m]), start + m))
      else None;
    var j := 0;
    while j < metadataNbr
      invariant 0 <= j <= m
      invariant currentIdx == start + j <= |tree|
      invariant metadataList == tree[start..currentIdx]
      decreases metadataNbr - j
    {
      if currentIdx >= |tree| {
        return None;
      }
      metadataList := metadataList + [tree[currentIdx]];
      currentIdx := currentIdx + 1;
      j := j + 1;
    }
    r := Some(Parsed(Node(childrenNbr, metadataNbr, children, metadataList), currentIdx));
  }

  /** The children loop of `get_next_node`: each child is parsed from the
      rest of the list and `current_idx` advances by what it consumed. */
  method ReadChildren(tree: seq<int>, childrenNbr: int) returns (r: Option<Kids>)
    requires 2 <= |tree|
    ensures r == ParseChildren(tree, 2, childrenNbr)
    decreases |tree|, 0
  {
    var currentIdx: nat := 2;
    var children: seq<Node> := [];
    var i := 0;
    PrependNil(ParseChildren(tree, 2, childrenNbr));
    while i < childrenNbr
      invariant 0 <= i && (childrenNbr >= 0 ==> i <= childrenNbr)
      invariant 2 <= currentIdx <= |tree|
      invariant ParseChildren(tree, 2, childrenNbr) ==
        Prepend(children, ParseChildren(tree, currentIdx, childrenNbr - i))
      decreases childrenNbr - i
    {
      var next := GetNextNode(tree[currentIdx..]);
      if next.None? {
        return None;
      }
      var newNode, offset := next.value.node, next.value.size;
      PrependTwice(children, [newNode], ParseChildren(tree, currentIdx + offset, childrenNbr - i - 1));
      children := children + [newNode];
      currentIdx := currentIdx + offset;
      i := i + 1;
    }
    assert children + [] == children;
    return Some(Kids(children, currentIdx));
  }

  // ---------------------------------------------------------------------
  // Parsing inverts encoding

  /** Parsing an encoded well-formed node, whatever follows it, gives the
      node back and consumes exactly its encoding. */
  lemma {:induction false} ParseEncode(n: Node, rest: seq<int>)
    requires WellFormed(n)
    ensures ParseNode(Encode(n) + rest) == Some(Parsed(n, |Encode(n)|))
    decreases n, 1
  {
    var tree := Encode(n) + rest;
    var body := EncodeAll(n.children);
    assert tree == [n.childrenNbr, n.metadataNbr] + (body + (n.metadataList + rest));
    ParseEncodeAll(n.children, [n.childrenNbr, n.metadataNbr], n.metadataList + rest);
    var idx := 2 + |body|;
    assert tree[idx..idx + |n.metadataList|] == n.metadataList;
  }

  /** The children loop parses the encodings of well-formed children. */
  lemma {:induction false} ParseEncodeAll(ns: seq<Node>, before: seq<int>, after: seq<int>)
    requires AllWellFormed(ns) && |before| >= 2
    ensures ParseChildren(before + (EncodeAll(ns) + after), |before|, |ns|) ==
      Some(Kids(ns, |before| + |EncodeAll(ns)|))
    decreases ns, 1
  {
    if ns != [] {
      ParseEncodeFirst(ns, before, after);
    } else {
      NoChildren(before + (EncodeAll(ns) + after), |before|);
    }
  }

  /** ParseEncodeAll for a non-empty list: the first child parses from its
      encoding, the others from theirs. */
  lemma {:induction false} ParseEncodeFirst(ns: seq<Node>, before: seq<int>, after: seq<int>)
    requires ns != [] && AllWellFormed(ns) && |before| >= 2
    ensures ParseChildren(before + (EncodeAll(ns) + after), |before|, |ns|) ==
      Some(Kids(ns, |before| + |EncodeAll(ns)|))
    decreases ns, 0
  {
    assert WellFormed(ns[0]) && AllWellFormed(ns[1..]);
    var e, tail := Encode(ns[0]), EncodeAll(ns[1..]);
    EncodeAllCons(ns);
    Assoc(e, tail, after);
    HeadTail(ns);
    ParseEncode(ns[0], tail + after);
    ParseEncodeAll(ns[1..], before + e, after);
    ConsParse(before, e, tail + after, EncodeAll(ns) + after, ns[0], ns[1..], ns,
      |ns[1..]|, |before + e| + |tail|, |before| + |EncodeAll(ns)|);
  }

  /** Zero children parse from anywhere, consuming nothing. */
  lemma NoChildren(tree: seq<int>, idx: nat)
    requires 2 <= idx <= |tree|
    ensures ParseChildren(tree, idx, 0) == Some(Kids([], idx))
  {
  }

  /** A child parsed right after `before`, and `k` more after it: `k + 1`
      children parsed from `before` on. */
  lemma ConsParse(before: seq<int>, e: seq<int>, rest: seq<int>, whole: seq<int>,
                  n: Node, kids: seq<Node>, all: seq<Node>, k: int, end: nat, end': nat)
    requires |before| >= 2 && k >= 0
    requires whole == e + rest && all == [n] + kids && |all| == k + 1 && end' == end
    requires ParseNode(e + rest) == Some(Parsed(n, |e|))
    requires ParseChildren((before + e) + rest, |before + e|, k) == Some(Kids(kids, end))
    ensures ParseChildren(before + whole, |before|, |all|) == Some(Kids(all, end'))
  {
    var tree := before + (e + rest);
    Assoc(before, e, rest);
    DropPrefix(before, e + rest);
    ParseChildrenStep(tree, |before|, k + 1, Parsed(n, |e|), |before + e|, k);
  }

  lemma EncodeAllCons(ns: seq<Node>)
    requires ns != []
    ensures EncodeAll(ns) == Encode(ns[0]) + EncodeAll(ns[1..])
  {
  }

  lemma HeadTail(ns: seq<Node>)
    requires ns != []
    ensures [ns[0]] + ns[1..] == ns
  {
  }

  lemma Assoc(a: seq<int>, b: seq<int>, c: seq<int>)
    ensures (a + b) + c == a + (b + c)
  {
  }

  lemma DropPrefix(a: seq<int>, b: seq<int>)
    ensures (a + b)[|a|..] == b
  {
  }

  /** One iteration of the children loop as a step of ParseChildren. */
  lemma ParseChildrenStep(tree: seq<int>, idx: nat, k: int, p: Parsed, next: nat, k': int)
    requires 2 <= idx <= |tree| && k > 0 && ParseNode(tree[idx..]) == Some(p)
    requires next == idx + p.size && k' == k - 1
    ensures next <= |tree|
    ensures ParseChildren(tree, idx, k) == Prepend([p.node], ParseChildren(tree, next, k'))
  {
  }

  /** tree[i..k] split at j. */
  lemma SliceSplit(tree: seq<int>, i: nat, j: nat, k: nat)
    requires i <= j <= k <= |tree|
    ensures tree[i..k] == tree[i..j] + tree[j..k]
    ensures tree[i..][..j - i] == tree[i..j]
  {
  }

  /** What a successful parse consumed is the encoding of the node it
      returns (the header is kept as read, even a negative count). */
  lemma {:induction false} ParsedIsEncoding(tree: seq<int>)
    requires ParseNode(tree).Some?
    ensures tree[..ParseNode(tree).value.size] == Encode(ParseNode(tree).value.node)
    decreases |tree|, 1
  {
    var p := ParseNode(tree).value;
    var kids := ParseChildren(tree, 2, tree[0]).value;
    ParsedChildrenAreEncodings(tree, 2, tree[0]);
    assert tree[..p.size] == tree[..2] + tree[2..kids.end] + tree[kids.end..p.size];
  }

  lemma {:induction false} ParsedChildrenAreEncodings(tree: seq<int>, idx: nat, k: int)
    requires 2 <= idx <= |tree| && ParseChildren(tree, idx, k).Some?
    ensures tree[idx..ParseChildren(tree, idx, k).value.end] == EncodeAll(ParseChildren(tree, idx, k).value.nodes)
    decreases |tree|, 0, if k < 0 then 0 else k
  {
    if k > 0 {
      var kids := ParseChildren(tree, idx, k).value;
      var sub := tree[idx..];
      var child := ParseNode(sub).value;
      ParsedIsEncoding(sub);
      var next := idx + child.size;
      ParseChildrenStep(tree, idx, k, child, next, k - 1);
      ParsedChildrenAreEncodings(tree, next, k - 1);
      var rest := ParseChildren(tree, next, k - 1).value;
      assert kids.nodes == [child.node] + rest.nodes && kids.end == rest.end;
      assert EncodeAll(kids.nodes) == Encode(child.node) + EncodeAll(rest.nodes);
      SliceSplit(tree, idx, next, kids.end);
    }
  }

  // ---------------------------------------------------------------------
  // get_all_nodes

  /** `get_all_nodes` as a function, from index `idx`. */
  function ParseAll(tree: seq<int>, idx: nat): Option<seq<Node>>
    requires idx <= |tree|
    decreases |tree| - idx
  {
    if idx >= |tree| then Some([])
    else
      var p := ParseNode(tree[idx..]);
      if p.None? then None
      else Lift([p.value.node], ParseAll(tree, idx + p.value.size))
  }

  /** Prepends the trees already parsed to the rest of the parse. */
  function Lift(done: seq<Node>, r: Option<seq<Node>>): Option<seq<Node>>
  {
    match r
    case None => None
    case Some(rest) => Some(done + rest)
  }

  lemma LiftNil(r: Option<seq<Node>>)
    ensures Lift([], r) == r
  {
    if r.Some? {
      assert [] + r.value == r.value;
    }
  }

  lemma LiftTwice(a: seq<Node>, b: seq<Node>, r: Option<seq<Node>>)
    ensures Lift(a, Lift(b, r)) == Lift(a + b, r)
  {
    if r.Some? {
      assert a + (b + r.value) == (a + b) + r.value;
    }
  }

  /** `get_all_nodes`: consecutive trees until the list is exhausted. */
  method GetAllNodes(tree: seq<int>) returns (r: Option<seq<Node>>)
    ensures r == ParseAll(tree, 0)
  {
    var currentIdx := 0;
    var nodes: seq<Node> := [];
    LiftNil(ParseAll(tree, 0));
    while currentIdx < |tree|
      invariant currentIdx <= |tree|
      invariant ParseAll(tree, 0) == Lift(nodes, ParseAll(tree, currentIdx))
      decreases |tree| - currentIdx
    {
      var next := GetNextNode(tree[currentIdx..]);
      if next.None? {
        return None;
      }
      var newNode, offset := next.value.node, next.value.size;
      assert ParseAll(tree, currentIdx) == Lift([newNode], ParseAll(tree, currentIdx + offset));
      LiftTwice(nodes, [newNode], ParseAll(tree, currentIdx + offset));
      nodes := nodes + [newNode];
      currentIdx := currentIdx + offset;
    }
    assert nodes + [] == nodes;
    return Some(nodes);
  }

  /** One iteration of `get_all_nodes` as a step of ParseAll. */
  lemma ParseAllStep(tree: seq<int>, idx: nat, p: Parsed)
    requires idx < |tree| && ParseNode(tree[idx..]) == Some(p)
    ensures ParseAll(tree, idx) == Lift([p.node], ParseAll(tree, idx + p.size))
  {
  }

  /** Regrouping a concatenation of three lists. */
  lemma Regroup(a: seq<int>, b: seq<int>, c: seq<int>)
    ensures a + (b + c) == (a + b) + c
    ensures ((a + b) + c)[|a|..] == b + c
  {
  }

  /** Concatenated encodings of well-formed trees parse back to the trees. */
  lemma {:induction false} ParseAllEncodings(ns: seq<Node>, before: seq<int>)
    requires forall i :: 0 <= i < |ns| ==> WellFormed(ns[i])
    ensures ParseAll(before + EncodeAll(ns), |before|) == Some(ns)
    decreases ns
  {
    if ns != [] {
      var e := Encode(ns[0]);
      var tail := EncodeAll(ns[1..]);
      assert EncodeAll(ns) == e + tail;
      ParseEncode(ns[0], tail);
      Regroup(before, e, tail);
      ParseAllStep((before + e) + tail, |before|, Parsed(ns[0], |e|));
      ParseAllEncodings(ns[1..], before + e);
      assert [ns[0]] + ns[1..] == ns;
    }
  }

  // ---------------------------------------------------------------------
  // Metadata sums

  /** `get_metadata_sum`: own metadata plus the children's sums. */
  function MetadataSum(n: Node): int
    decreases n, 1
  {
    Sum(n.metadataList) + MetadataSumAll(n.children)
  }

  function MetadataSumAll(ns: seq<Node>): int
    decreases ns, 0
  {
    if ns == [] then 0 else MetadataSum(ns[0]) + MetadataSumAll(ns[1..])
  }

  /** Every metadata entry of a subtree, in encoding order. */
  function AllMetadata(n: Node): seq<int>
    decreases n, 1
  {
    AllMetadataOf(n.children) + n.metadataList
  }

  function AllMetadataOf(ns: seq<Node>): seq<int>
    decreases ns, 0
  {
    if ns == [] then [] else AllMetadata(ns[0]) + AllMetadataOf(ns[1..])
  }

  /** The metadata sum covers every entry of the subtree exactly once. */
  lemma {:induction false} MetadataSumCoversSubtree(n: Node)
    ensures MetadataSum(n) == Sum(AllMetadata(n))
    decreases n, 1
  {
    MetadataSumAllCovers(n.children);
    SumAppend(AllMetadataOf(n.children), n.metadataList);
  }

  lemma {:induction false} MetadataSumAllCovers(ns: seq<Node>)
    ensures MetadataSumAll(ns) == Sum(AllMetadataOf(ns))
    decreases ns, 0
  {
    if ns != [] {
      MetadataSumCoversSubtree(ns[0]);
      MetadataSumAllCovers(ns[1..]);
      SumAppend(AllMetadata(ns[0]), AllMetadataOf(ns[1..]));
    }
  }

  /** `part_one`; None where parsing raises IndexError. */
  function PartOne(tree: seq<int>): (r: Option<int>)
    ensures r.Some? <==> ParseAll(tree, 0).Some?
    ensures r.Some? ==> r.value == MetadataSumAll(ParseAll(tree, 0).value)
  {
    match ParseAll(tree, 0)
    case None => None
    case Some(nodes) => Some(MetadataSumAll(nodes))
  }

  // ---------------------------------------------------------------------
  // Node values

  /** `get_metadata_sum_part_2`: a node without children is worth its
      metadata sum; otherwise each entry m adds the value of child m,
      where Python's `children[m - 1]` lets 0 and negative entries count
      from the end and skips entries out of range. */
  function Value(n: Node): int
    decreases n, 1
  {
    if n.childrenNbr == 0 then Sum(n.metadataList)
    else ValueOfRefs(n.children, n.metadataList)
  }

  function ValueOfRefs(children: seq<Node>, refs: seq<int>): int
    decreases children, |refs|
  {
    if refs == [] then 0
    else
      var ref := refs[|refs| - 1];
      var add := match PyIndex(|children|, ref - 1)
        case Some(i) => Value(children[i])
        case None => 0;
      ValueOfRefs(children, refs[..|refs| - 1]) + add
  }

  /** Entries that name no child add nothing. */
  lemma {:induction false} RefsOutOfRange(children: seq<Node>, refs: seq<int>)
    requires forall i :: 0 <= i < |refs| ==> refs[i] > |children| || refs[i] < 1 - |children|
    ensures ValueOfRefs(children, refs) == 0
    decreases |refs|
  {
    if refs != [] {
      RefsOutOfRange(children, refs[..|refs| - 1]);
    }
  }

  /** Entries 1..count name the children in order. */
  lemma {:induction false} RefsInRange(children: seq<Node>, refs: seq<int>)
    requires forall i :: 0 <= i < |refs| ==> 1 <= refs[i] <= |children|
    ensures ValueOfRefs(children, refs) == Sum(seq(|refs|, i requires 0 <= i < |refs| => Value(children[refs[i] - 1])))
    decreases |refs|
  {
    if refs != [] {
      var init := refs[..|refs| - 1];
      RefsInRange(children, init);
      var f := seq(|refs|, i requires 0 <= i < |refs| => Value(children[refs[i] - 1]));
      assert f[..|f| - 1] == seq(|init|, i requires 0 <= i < |init| => Value(children[init[i] - 1]));
    }
  }

  /** A reference 0 reads Python's `children[-1]`: the last child. */
  lemma ZeroRefIsLastChild(children: seq<Node>)
    requires |children| > 0
    ensures ValueOfRefs(children, [0]) == Value(children[|children| - 1])
  {
    assert [0][..0] == [];
  }

  function ValueSumAll(ns: seq<Node>): int
  {
    if ns == [] then 0 else Value(ns[0]) + ValueSumAll(ns[1..])
  }

  /** `part_two`; None where parsing raises IndexError. */
  function PartTwo(tree: seq<int>): (r: Option<int>)
    ensures r.Some? <==> ParseAll(tree, 0).Some?
    ensures r.Some? ==> r.value == ValueSumAll(ParseAll(tree, 0).value)
  {
    match ParseAll(tree, 0)
    case None => None
    case Some(nodes) => Some(ValueSumAll(nodes))
  }
}
