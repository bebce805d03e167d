/** Disk fragmenter (2024, day 9): a dense disk map expands into blocks
    that hold a file id or are free.  Part one moves single blocks from
    the end into the leftmost gap until no free block precedes a file
    block; part two moves whole files, highest id first, into the leftmost
    free span before them that is large enough.  Both answers are the
    checksum: the sum of position times file id over file blocks. */
module Aoc2024Day09 {
  import opened Common

  /** `Block(Option<usize>)`. */
  datatype Block = File(id: nat) | Free

  /** n copies of a block. */
  function Repeat(b: Block, n: nat): (r: seq<Block>)
    ensures |r| == n && forall k :: 0 <= k < n ==> r[k] == b
  {
    seq(n, _ => b)
  }

  /** The block a digit at position i of the disk map describes: even
      positions are files numbered i / 2, odd positions are free space. */
  function BlockFor(i: nat): Block
  {
    if i % 2 == 0 then File(i / 2) else Free
  }

  /** `get_input` on the digits of the disk map. */
  function Expand(digits: seq<nat>): (r: seq<Block>)
    decreases |digits|
  {
    if digits == [] then []
    else Expand(digits[..|digits| - 1]) + Repeat(BlockFor(|digits| - 1), digits[|digits| - 1])
  }

  /** The expansion has one block per unit of every digit, and every block
      comes from some digit: files with id i / 2 from even i, free blocks
      from odd i. */
  lemma {:induction false} ExpandShape(digits: seq<nat>, k: nat)
    requires k < |Expand(digits)|
    ensures exists i :: 0 <= i < |digits| && Expand(digits)[k] == BlockFor(i)
    decreases |digits|
  {
    var n := |digits| - 1;
    var front := Expand(digits[..n]);
    if k < |front| {
      ExpandShape(digits[..n], k);
      var i :| 0 <= i < n && front[k] == BlockFor(i);
      assert Expand(digits)[k] == front[k];
    } else {
      assert Expand(digits)[k] == BlockFor(n);
    }
  }

  /** `get_input`: the loop over the digits pushing blocks one at a time. */
  method GetInput(digits: seq<nat>) returns (parts: seq<Block>)
    ensures parts == Expand(digits)
  {
    parts := [];
    var currentIdx := 0;
    for idx := 0 to |digits|
      invariant parts == Expand(digits[..idx])
      invariant currentIdx == (idx + 1) / 2
    {
      assert digits[..idx + 1][..idx] == digits[..idx];
      ghost var before := parts;
      if idx % 2 == 0 {
        assert BlockFor(idx) == File(currentIdx);
        for j := 0 to digits[idx]
          invariant parts == before + Repeat(File(currentIdx), j)
        {
          parts := parts + [File(currentIdx)];
        }
        currentIdx := currentIdx + 1;
      } else {
        assert BlockFor(idx) == Free;
        for j := 0 to digits[idx]
          invariant parts == before + Repeat(Free, j)
        {
          parts := parts + [Free];
        }
      }
    }
    assert digits[..|digits|] == digits;
  }

  /** Some file block comes after some free block. */
  ghost predicate HasGaps(s: seq<Block>)
  {
    exists i, j :: 0 <= i < j < |s| && s[i].Free? && s[j].File?
  }

  /** `has_gaps_between_file_blocks`: the flag remembers a free block seen
      so far; a file block after it answers true. */
  method HasGapsBetweenFileBlocks(blocks: array<Block>) returns (r: bool)
    ensures r == HasGaps(blocks[..])
  {
    var hasGaps := false;
    var seen := 0;
    for k := 0 to blocks.Length
      invariant hasGaps ==> seen < k && blocks[seen].Free?
      invariant !hasGaps ==> forall i :: 0 <= i < k ==> blocks[i].File?
      invariant forall i, j :: 0 <= i < j < k ==> !(blocks[i].Free? && blocks[j].File?)
    {
      if blocks[k].Free? {
        if !hasGaps {
          seen := k;
        }
        hasGaps := true;
      } else if hasGaps {
        assert blocks[..][seen].Free? && blocks[..][k].File?;
        return true;
      }
    }
    return false;
  }

  /** The index of the last file block, if any. */
  function LastFile(s: seq<Block>): (r: Option<nat>)
    ensures r.Some? ==> r.value < |s| && s[r.value].File? && forall k :: r.value < k < |s| ==> s[k].Free?
    ensures r.None? ==> forall k :: 0 <= k < |s| ==> s[k].Free?
  {
    if s == [] then None
    else if s[|s| - 1].File? then Some(|s| - 1)
    else LastFile(s[..|s| - 1])
  }

  /** The index of the first free block, if any. */
  function FirstFree(s: seq<Block>): (r: Option<nat>)
    ensures r.Some? ==> r.value < |s| && s[r.value].Free? && forall k :: 0 <= k < r.value ==> s[k].File?
    ensures r.None? ==> forall k :: 0 <= k < |s| ==> s[k].File?
  {
    if s == [] then None
    else if s[0].Free? then Some(0)
    else match FirstFree(s[1..])
      case None => None
      case Some(i) => Some(i + 1)
  }

  /** A gap exists exactly when the first free block comes before the last
      file block. */
  lemma GapsAtEnds(s: seq<Block>)
    ensures HasGaps(s) <==>
      LastFile(s).Some? && FirstFree(s).Some? && FirstFree(s).value < LastFile(s).value
  {
    if HasGaps(s) {
      var i, j :| 0 <= i < j < |s| && s[i].Free? && s[j].File?;
      assert FirstFree(s).value <= i;
      assert LastFile(s).value >= j;
    }
  }

  /** `get_blocks_to_swap`: the last file block and the first free block.
      The source unwraps both searches; part one only asks while a gap
      exists, when both are found. */
  method GetBlocksToSwap(blocks: array<Block>) returns (fileIdx: nat, spaceIdx: nat)
    requires HasGaps(blocks[..])
    ensures Some(fileIdx) == LastFile(blocks[..]) && Some(spaceIdx) == FirstFree(blocks[..])
    ensures spaceIdx < fileIdx < blocks.Length
  {
    GapsAtEnds(blocks[..]);
    fileIdx := blocks.Length - 1;
    while blocks[fileIdx].Free?
      invariant fileIdx < blocks.Length
      invariant LastFile(blocks[..]).value <= fileIdx
      decreases fileIdx
    {
      fileIdx := fileIdx - 1;
    }
    spaceIdx := 0;
    while blocks[spaceIdx].File?
      invariant spaceIdx <= FirstFree(blocks[..]).value
      decreases blocks.Length - spaceIdx
    {
      spaceIdx := spaceIdx + 1;
    }
  }

  /** One more than the last file position: the swaps make it shrink. */
  function Extent(s: seq<Block>): nat
  {
    match LastFile(s)
    case None => 0
    case Some(f) => f + 1
  }

  /** Swapping the last file block into an earlier free block moves the
      end of the files strictly left. */
  lemma SwapShrinks(s: seq<Block>, f: nat, e: nat)
    requires LastFile(s) == Some(f) && e < f && s[e].Free?
    ensures Extent(s[f := s[e]][e := s[f]]) < Extent(s)
  {
    var t := s[f := s[e]][e := s[f]];
    assert t[e].File?;
    forall k | f <= k < |t| ensures t[k].Free? {
    }
  }

  /** What part one's loop leaves: swap until no gap remains. */
  ghost function Compact(s: seq<Block>): seq<Block>
    decreases Extent(s)
  {
    if !HasGaps(s) then s
    else
      GapsAtEnds(s);
      var f, e := LastFile(s).value, FirstFree(s).value;
      SwapShrinks(s, f, e);
      Compact(s[f := s[e]][e := s[f]])
  }

  /** After compaction every file block precedes every free block, and the
      blocks are a permutation of the input. */
  lemma {:induction false} CompactIsCompact(s: seq<Block>)
    ensures !HasGaps(Compact(s))
    ensures multiset(Compact(s)) == multiset(s)
    decreases Extent(s)
  {
    if HasGaps(s) {
      GapsAtEnds(s);
      var f, e := LastFile(s).value, FirstFree(s).value;
      SwapShrinks(s, f, e);
      var t := s[f := s[e]][e := s[f]];
      CompactIsCompact(t);
      assert multiset(t) == multiset(s) by {
        assert t == s[e := s[f]][f := s[e]];
      }
    }
  }

  /** `idx * id` summed over the file blocks. */
  function Checksum(s: seq<Block>): nat
  {
    if s == [] then 0
    else Checksum(s[..|s| - 1]) + (match s[|s| - 1] case Free => 0 case File(id) => (|s| - 1) * id)
  }

  /** `part_one`: the swap loop on a copy of the blocks, then the checksum. */
  method PartOne(input: seq<Block>) returns (total: nat)
    ensures total == Checksum(Compact(input))
  {
    var blocks := new Block[|input|](i requires 0 <= i < |input| => input[i]);
    assert blocks[..] == input;
    SwapUntilCompact(blocks);
    total := DiskChecksum(blocks);
  }

  /** The swap loop of `part_one`: blocks exchanged in place while a gap
      lies between file blocks, which does not change what they compact
      to. */
  method SwapUntilCompact(blocks: array<Block>)
    modifies blocks
    ensures Compact(blocks[..]) == Compact(old(blocks[..]))
    ensures !HasGaps(blocks[..])
  {
    ghost var input := blocks[..];
    var gaps := HasGapsBetweenFileBlocks(blocks);
    while gaps
      invariant Compact(blocks[..]) == Compact(input)
      invariant gaps == HasGaps(blocks[..])
      decreases Extent(blocks[..])
    {
      var f, e := GetBlocksToSwap(blocks);
      ghost var before := blocks[..];
      SwapShrinks(before, f, e);
      blocks[f], blocks[e] := blocks[e], blocks[f];
      assert blocks[..] == before[f := before[e]][e := before[f]];
      gaps := HasGapsBetweenFileBlocks(blocks);
    }
  }

  /** The checksum loop of `part_one`: position times file id, summed. */
  method DiskChecksum(blocks: array<Block>) returns (total: nat)
    ensures total == Checksum(blocks[..])
  {
    total := 0;
    for idx := 0 to blocks.Length
      invariant total == Checksum(blocks[..idx])
    {
      assert blocks[..idx + 1][..idx] == blocks[..idx];
      match blocks[idx]
      case File(id) => total := total + idx * id;
      case Free =>
    }
    assert blocks[..blocks.Length] == blocks[..];
  }

  /** `AtomicBlock`: a whole file or a whole free span. */
  datatype AtomicBlock = AtomicBlock(file: Option<nat>, length: nat)

  /** The single blocks an atomic block stands for. */
  function Unit(b: AtomicBlock): Block
  {
    match b.file
    case None => Free
    case Some(id) => File(id)
  }

  /** The block-by-block picture of a list of atomic blocks. */
  function Layout(bs: seq<AtomicBlock>): (r: seq<Block>)
    ensures |r| == TotalLength(bs)
  {
    if bs == [] then [] else Layout(bs[..|bs| - 1]) + Repeat(Unit(bs[|bs| - 1]), bs[|bs| - 1].length)
  }

  function TotalLength(bs: seq<AtomicBlock>): nat
  {
    if bs == [] then 0 else TotalLength(bs[..|bs| - 1]) + bs[|bs| - 1].length
  }

  /** `get_input_part_2`: one atomic block per digit. */
  function AtomicInput(digits: seq<nat>): (r: seq<AtomicBlock>)
    ensures |r| == |digits|
    ensures forall i :: 0 <= i < |digits| ==>
      r[i].length == digits[i] && r[i].file == (if i % 2 == 0 then Some(i / 2) else None)
  {
    seq(|digits|, i requires 0 <= i < |digits| =>
      AtomicBlock(if i % 2 == 0 then Some(i / 2) else None, digits[i]))
  }

  /** Both readings of a disk map describe the same blocks. */
  lemma {:induction false} AtomicInputLayout(digits: seq<nat>)
    ensures Layout(AtomicInput(digits)) == Expand(digits)
    decreases |digits|
  {
    if digits != [] {
      var n := |digits| - 1;
      AtomicInputLayout(digits[..n]);
      assert AtomicInput(digits)[..n] == AtomicInput(digits[..n]);
      assert Unit(AtomicInput(digits)[n]) == BlockFor(n);
    }
  }

  /** The last index holding file `id`, if any. */
  function LastWithId(bs: seq<AtomicBlock>, id: nat): (r: Option<nat>)
    ensures r.Some? ==>
      r.value < |bs| && bs[r.value].file == Some(id) && forall k :: r.value < k < |bs| ==> bs[k].file != Some(id)
    ensures r.None? ==> forall k :: 0 <= k < |bs| ==> bs[k].file != Some(id)
  {
    if bs == [] then None
    else if bs[|bs| - 1].file == Some(id) then Some(|bs| - 1)
    else LastWithId(bs[..|bs| - 1], id)
  }

  predicate Fits(b: AtomicBlock, len: nat)
  {
    b.file.None? && b.length >= len
  }

  /** The first free span of at least `len` blocks before index `bound`. */
  function FirstFit(bs: seq<AtomicBlock>, len: nat, bound: nat): (r: Option<nat>)
    requires bound <= |bs|
    ensures r.Some? ==>
      r.value < bound && Fits(bs[r.value], len) && forall k :: 0 <= k < r.value ==> !Fits(bs[k], len)
    ensures r.None? ==> forall k :: 0 <= k < bound ==> !Fits(bs[k], len)
    decreases bound
  {
    if bound == 0 then None
    else match FirstFit(bs, len, bound - 1)
      case Some(i) => Some(i)
      case None => if Fits(bs[bound - 1], len) then Some(bound - 1) else None
  }

  /** What `find_swappable_blocks` returns: the file's position and the
      leftmost free span before it that can hold it. */
  function Swappable(bs: seq<AtomicBlock>, id: nat): (r: Option<(nat, nat)>)
    ensures r.Some? ==>
      r.value.1 < r.value.0 < |bs| && bs[r.value.0].file == Some(id) && Fits(bs[r.value.1], bs[r.value.0].length)
  {
    match LastWithId(bs, id)
    case None => None
    case Some(from) =>
      match FirstFit(bs, bs[from].length, from)
      case None => None
      case Some(to) => Some((from, to))
  }

  /** `find_swappable_blocks`: a backward search for the file, then a
      forward search for a free span before it. */
  method FindSwappableBlocks(blocks: seq<AtomicBlock>, blockIdx: nat) returns (r: Option<(nat, nat)>)
    ensures r == Swappable(blocks, blockIdx)
  {
    var fileIdx: Option<nat> := None;
    var idx := |blocks|;
    while idx > 0
      invariant 0 <= idx <= |blocks|
      invariant forall k :: idx <= k < |blocks| ==> blocks[k].file != Some(blockIdx)
      invariant LastWithId(blocks, blockIdx).Some? ==> LastWithId(blocks, blockIdx).value < idx
    {
      idx := idx - 1;
      if blocks[idx].file == Some(blockIdx) {
        fileIdx := Some(idx);
        break;
      }
    }
    if fileIdx.None? {
      return None;
    }
    var from := fileIdx.value;
    assert LastWithId(blocks, blockIdx) == Some(from);
    var spaceIdx: Option<nat> := None;
    for k := 0 to |blocks|
      invariant forall j :: 0 <= j < k && j < from ==> !Fits(blocks[j], blocks[from].length)
    {
      if blocks[k].file.None? && blocks[k].length >= blocks[from].length && k < from {
        spaceIdx := Some(k);
        break;
      }
    }
    if spaceIdx.None? {
      assert FirstFit(blocks, blocks[from].length, from).None?;
      return None;
    }
    assert FirstFit(blocks, blocks[from].length, from) == spaceIdx;
    return Some((from, spaceIdx.value));
  }

  /** `move_atomic_block`: the file's slot becomes free space, the free
      span takes the file, and what remains of the span follows it. */
  function MoveAtomicBlock(bs: seq<AtomicBlock>, from: nat, to: nat): (r: seq<AtomicBlock>)
    requires to < from < |bs| && bs[to].length >= bs[from].length
    ensures |r| == if bs[to].length > bs[from].length then |bs| + 1 else |bs|
    ensures r[to] == bs[from] && r[..to] == bs[..to]
    ensures var rem := bs[to].length - bs[from].length;
      r == bs[..to] + [bs[from]] + (if rem > 0 then [AtomicBlock(None, rem)] else [])
        + bs[to + 1..from] + [AtomicBlock(None, bs[from].length)] + bs[from + 1..]
  {
    var block := bs[from];
    var moved := bs[from := AtomicBlock(None, block.length)][to := block];
    var remaining := bs[to].length - block.length;
    if remaining > 0 then moved[..to + 1] + [AtomicBlock(None, remaining)] + moved[to + 1..]
    else moved
  }

  lemma {:induction false} TotalLengthAppend(a: seq<AtomicBlock>, b: seq<AtomicBlock>)
    ensures TotalLength(a + b) == TotalLength(a) + TotalLength(b)
    decreases |b|
  {
    if b == [] {
      assert a + b == a;
    } else {
      TotalLengthAppend(a, b[..|b| - 1]);
      assert (a + b)[..|a + b| - 1] == a + b[..|b| - 1];
    }
  }

  lemma TotalLengthSingle(b: AtomicBlock)
    ensures TotalLength([b]) == b.length
  {
    assert [b][..0] == [];
  }

  lemma TotalLengthParts(p0: seq<AtomicBlock>, p1: seq<AtomicBlock>, p2: seq<AtomicBlock>,
                         p3: seq<AtomicBlock>, p4: seq<AtomicBlock>)
    ensures TotalLength(p0 + p1 + p2 + p3 + p4)
      == TotalLength(p0) + TotalLength(p1) + TotalLength(p2) + TotalLength(p3) + TotalLength(p4)
  {
    TotalLengthAppend(p0 + p1 + p2 + p3, p4);
    TotalLengthAppend(p0 + p1 + p2, p3);
    TotalLengthAppend(p0 + p1, p2);
    TotalLengthAppend(p0, p1);
  }

  lemma SplitAround<T>(s: seq<T>, i: nat, j: nat)
    requires i < j < |s|
    ensures s == s[..i] + [s[i]] + s[i + 1..j] + [s[j]] + s[j + 1..]
  {
  }

  /** Moving a file keeps the disk the same size. */
  lemma MoveKeepsLength(bs: seq<AtomicBlock>, from: nat, to: nat)
    requires to < from < |bs| && bs[to].length >= bs[from].length
    ensures TotalLength(MoveAtomicBlock(bs, from, to)) == TotalLength(bs)
  {
    var rem := bs[to].length - bs[from].length;
    var gap: seq<AtomicBlock> := if rem > 0 then [AtomicBlock(None, rem)] else [];
    var head, mid, tail := bs[..to], bs[to + 1..from], bs[from + 1..];
    var free := AtomicBlock(None, bs[from].length);
    SplitAround(bs, to, from);
    TotalLengthParts(head, [bs[to]], mid, [bs[from]], tail);
    TotalLengthParts(head + [bs[from]], gap, mid, [free], tail);
    TotalLengthAppend(head, [bs[from]]);
    TotalLengthSingle(bs[to]);
    TotalLengthSingle(bs[from]);
    TotalLengthSingle(free);
    if rem > 0 {
      TotalLengthSingle(AtomicBlock(None, rem));
    }
  }

  /** `for idx in (0..=max).rev()`: try to move every file once, highest
      id first; `next` is the id still to try. */
  function Defrag(bs: seq<AtomicBlock>, next: int): (r: seq<AtomicBlock>)
    ensures TotalLength(r) == TotalLength(bs)
    decreases next + 1
  {
    if next < 0 then bs
    else match Swappable(bs, next)
      case None => Defrag(bs, next - 1)
      case Some((from, to)) =>
        MoveKeepsLength(bs, from, to);
        Defrag(MoveAtomicBlock(bs, from, to), next - 1)
  }

  /** `get_highest_idx_file`; None where the source panics on `expect`. */
  function HighestFileId(bs: seq<AtomicBlock>): (r: Option<nat>)
    ensures r.Some? ==>
      (exists k :: 0 <= k < |bs| && bs[k].file == r) &&
      (forall k :: 0 <= k < |bs| && bs[k].file.Some? ==> bs[k].file.value <= r.value)
    ensures r.None? ==> forall k :: 0 <= k < |bs| ==> bs[k].file.None?
  {
    if bs == [] then None
    else
      var rest := HighestFileId(bs[..|bs| - 1]);
      var last := bs[|bs| - 1].file;
      if last.None? then rest
      else if rest.None? || rest.value < last.value then last
      else rest
  }

  /** `part_two`: defragment, then walk the blocks keeping the position of
      each unit; the total is the part-one checksum of the final layout. */
  method PartTwo(input: seq<AtomicBlock>) returns (r: Option<nat>)
    ensures r.None? <==> HighestFileId(input).None?
    ensures r.Some? ==> r.value == Checksum(Layout(Defrag(input, HighestFileId(input).value)))
  {
    var maxFileIdx := HighestFileId(input);
    if maxFileIdx.None? {
      return None;
    }
    var blocks := input;
    var idx: int := maxFileIdx.value;
    while idx >= 0
      invariant idx >= -1
      invariant Defrag(blocks, idx) == Defrag(input, maxFileIdx.value)
      decreases idx + 1
    {
      var swap := FindSwappableBlocks(blocks, idx);
      if swap.Some? {
        blocks := MoveAtomicBlock(blocks, swap.value.0, swap.value.1);
      }
      idx := idx - 1;
    }
    var total := ChecksumOfBlocks(blocks);
    return Some(total);
  }

  /** The final loop of `part_two`: walk the atomic blocks keeping the
      position of each unit. */
  method ChecksumOfBlocks(blocks: seq<AtomicBlock>) returns (total: nat)
    ensures total == Checksum(Layout(blocks))
  {
    var currentIdx := 0;
    total := 0;
    for i := 0 to |blocks|
      invariant currentIdx == |Layout(blocks[..i])|
      invariant total == Checksum(Layout(blocks[..i]))
    {
      LayoutStep(blocks, i);
      ghost var before := Layout(blocks[..i]);
      var block := blocks[i];
      if block.file.Some? {
        var id := block.file.value;
        assert before + Repeat(File(id), 0) == before;
        for j := 0 to block.length
          invariant currentIdx == |before| + j
          invariant total == Checksum(before + Repeat(File(id), j))
        {
          ChecksumFileStep(before, id, j);
          total := total + currentIdx * id;
          currentIdx := currentIdx + 1;
        }
      } else {
        currentIdx := currentIdx + block.length;
        ChecksumFree(before, block.length);
      }
    }
    assert blocks[..|blocks|] == blocks;
  }

  lemma LayoutStep(blocks: seq<AtomicBlock>, i: nat)
    requires i < |blocks|
    ensures Layout(blocks[..i + 1]) == Layout(blocks[..i]) + Repeat(Unit(blocks[i]), blocks[i].length)
  {
    assert blocks[..i + 1][..i] == blocks[..i];
  }

  /** One more unit of file `id` adds its position times the id. */
  lemma ChecksumFileStep(s: seq<Block>, id: nat, j: nat)
    ensures Checksum(s + Repeat(File(id), j + 1)) == Checksum(s + Repeat(File(id), j)) + (|s| + j) * id
  {
    var t := s + Repeat(File(id), j + 1);
    assert |t| == |s| + j + 1 && t[|t| - 1] == File(id);
    assert t[..|t| - 1] == s + Repeat(File(id), j);
    assert Checksum(t) == Checksum(t[..|t| - 1]) + (|t| - 1) * id;
  }

  /** Free blocks add nothing to the checksum. */
  lemma {:induction false} ChecksumFree(s: seq<Block>, n: nat)
    ensures Checksum(s + Repeat(Free, n)) == Checksum(s)
    decreases n
  {
    if n > 0 {
      assert (s + Repeat(Free, n))[..|s| + n - 1] == s + Repeat(Free, n - 1);
      ChecksumFree(s, n - 1);
    } else {
      assert s + Repeat(Free, n) == s;
    }
  }
}
