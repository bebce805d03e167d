/** Firewall rules (2016, day 20): a blacklist of inclusive IP ranges is
    merged into separate chunks; part one reports the first IP after the
    first chunk and part two counts the IPs between the chunks up to the
    largest 32-bit address. */
module Aoc2016Day20 {
  import opened Common

  const MaxIp: int := 4294967295

  /** An inclusive range `start-end` of blocked addresses. */
  datatype Range = Range(start: int, end: int)

  predicate Contains(r: Range, x: int)
  {
    r.start <= x <= r.end
  }

  /** Some range of the list blocks x. */
  ghost predicate Covered(rs: seq<Range>, x: int)
  {
    exists i :: 0 <= i < |rs| && Contains(rs[i], x)
  }

  /** No range ends before it starts (true of the puzzle's input). */
  predicate WellFormed(rs: seq<Range>)
  {
    forall i :: 0 <= i < |rs| ==> rs[i].start <= rs[i].end
  }

  /** Chunks in ascending order with at least one allowed address between
      consecutive ones. */
  predicate Separated(rs: seq<Range>)
  {
    forall i :: 0 <= i < |rs| - 1 ==> rs[i].end + 1 < rs[i + 1].start
  }

  /** `min(blacklist, key=lambda r: r.start)`: the first range with the
      least start. */
  function MinStartIndex(rs: seq<Range>): (m: nat)
    requires |rs| > 0
    ensures m < |rs| && forall i :: 0 <= i < |rs| ==> rs[m].start <= rs[i].start
    ensures forall i :: 0 <= i < m ==> rs[i].start > rs[m].start
  {
    if |rs| == 1 then 0
    else
      var m := MinStartIndex(rs[..|rs| - 1]);
      if rs[|rs| - 1].start < rs[m].start then |rs| - 1 else m
  }

  /** `[n for n in blacklist if n != min_start]`. */
  function RemoveAll(rs: seq<Range>, v: Range): (r: seq<Range>)
    ensures |r| <= |rs| && v !in r
    ensures v in rs ==> |r| < |rs|
    ensures forall i :: 0 <= i < |r| ==> r[i] in rs
  {
    if rs == [] then []
    else
      var rest := RemoveAll(rs[1..], v);
      if rs[0] == v then rest else [rs[0]] + rest
  }

  lemma {:induction false} RemoveAllCovered(rs: seq<Range>, v: Range, x: int)
    requires v in rs
    ensures Covered(rs, x) <==> Contains(v, x) || Covered(RemoveAll(rs, v), x)
  {
    if rs[0] == v {
      if v in rs[1..] {
        RemoveAllCovered(rs[1..], v, x);
      } else {
        RemoveNone(rs[1..], v);
      }
      CoveredCons(rs, x);
    } else {
      RemoveAllCovered(rs[1..], v, x);
      CoveredCons(rs, x);
      CoveredCons([rs[0]] + RemoveAll(rs[1..], v), x);
      assert ([rs[0]] + RemoveAll(rs[1..], v))[1..] == RemoveAll(rs[1..], v);
    }
  }

  lemma {:induction false} RemoveNone(rs: seq<Range>, v: Range)
    requires v !in rs
    ensures RemoveAll(rs, v) == rs
  {
    if rs != [] {
      RemoveNone(rs[1..], v);
    }
  }

  lemma CoveredCons(rs: seq<Range>, x: int)
    requires rs != []
    ensures Covered(rs, x) <==> Contains(rs[0], x) || Covered(rs[1..], x)
  {
    if Covered(rs, x) && !Contains(rs[0], x) {
      var i :| 0 <= i < |rs| && Contains(rs[i], x);
      assert rs[1..][i - 1] == rs[i];
    }
    if Covered(rs[1..], x) {
      var i :| 0 <= i < |rs| - 1 && Contains(rs[1..][i], x);
      assert rs[i + 1] == rs[1..][i];
    }
  }

  /** Dropping the element at idx leaves what it did not cover. */
  lemma CoveredRemoveAt(rs: seq<Range>, idx: nat, x: int)
    requires idx < |rs|
    ensures Covered(rs, x) <==> Contains(rs[idx], x) || Covered(rs[..idx] + rs[idx + 1..], x)
  {
    var rest := rs[..idx] + rs[idx + 1..];
    if Covered(rs, x) && !Contains(rs[idx], x) {
      var i :| 0 <= i < |rs| && Contains(rs[i], x);
      if i < idx {
        assert rest[i] == rs[i];
      } else {
        assert rest[i - 1] == rs[i];
      }
    }
    if Covered(rest, x) {
      var i :| 0 <= i < |rest| && Contains(rest[i], x);
      if i < idx {
        assert rest[i] == rs[i];
      } else {
        assert rest[i] == rs[i + 1];
      }
    }
  }

  /** `get_next_chunk`: start from the range with the least start and keep
      absorbing the first remaining range that starts at most one past the
      chunk's end, until none does. */
  method GetNextChunk(blacklist: seq<Range>) returns (chunk: Range, rest: seq<Range>)
    requires |blacklist| > 0
    ensures |rest| < |blacklist|
    ensures chunk.start == blacklist[MinStartIndex(blacklist)].start
    ensures chunk.end >= blacklist[MinStartIndex(blacklist)].end
    ensures forall i :: 0 <= i < |rest| ==> rest[i] in blacklist && rest[i].start > chunk.end + 1
    ensures forall x :: Covered(blacklist, x) <==> Contains(chunk, x) || Covered(rest, x)
  {
    var minStart := blacklist[MinStartIndex(blacklist)];
    var cleared := RemoveAll(blacklist, minStart);
    var maxEnd := minStart.end;
    var checkForChange := true;
    forall x {
      RemoveAllCovered(blacklist, minStart, x);
    }
    while checkForChange
      invariant |cleared| < |blacklist| && maxEnd >= minStart.end
      invariant forall i :: 0 <= i < |cleared| ==> cleared[i] in blacklist && cleared[i].start >= minStart.start
      invariant forall x :: Covered(blacklist, x) <==> minStart.start <= x <= maxEnd || Covered(cleared, x)
      invariant !checkForChange ==> forall i :: 0 <= i < |cleared| ==> cleared[i].start > maxEnd + 1
      decreases |cleared|, checkForChange
    {
      checkForChange := false;
      var linked: Option<nat> := None;
      for idx := 0 to |cleared|
        invariant forall i :: 0 <= i < idx ==> cleared[i].start > maxEnd + 1
      {
        if cleared[idx].start <= maxEnd + 1 {
          linked := Some(idx);
          break;
        }
      }
      if linked.Some? {
        var idx := linked.value;
        var node := cleared[idx];
        var newEnd := Max(maxEnd, node.end);
        forall x ensures Covered(blacklist, x) <==> minStart.start <= x <= newEnd || Covered(cleared[..idx] + cleared[idx + 1..], x) {
          CoveredRemoveAt(cleared, idx, x);
        }
        maxEnd := newEnd;
        cleared := cleared[..idx] + cleared[idx + 1..];
        checkForChange := true;
      }
    }
    chunk, rest := Range(minStart.start, maxEnd), cleared;
  }

  /** `get_merged_blacklist`: chunks in the order they are produced. */
  method GetMergedBlacklist(blacklist: seq<Range>) returns (cleanList: seq<Range>)
    ensures |cleanList| > 0 <==> |blacklist| > 0
    ensures |cleanList| > 0 ==> cleanList[0].start == blacklist[MinStartIndex(blacklist)].start
    ensures |cleanList| > 0 ==> cleanList[0].end >= blacklist[MinStartIndex(blacklist)].end
    ensures Separated(cleanList)
    ensures WellFormed(blacklist) ==> WellFormed(cleanList)
    ensures forall x :: Covered(blacklist, x) <==> Covered(cleanList, x)
  {
    cleanList := [];
    var remaining := blacklist;
    while |remaining| > 0
      invariant |cleanList| > 0 || remaining == blacklist
      invariant |cleanList| > 0 ==> |blacklist| > 0
      invariant |cleanList| > 0 ==> cleanList[0].start == blacklist[MinStartIndex(blacklist)].start
      invariant |cleanList| > 0 ==> cleanList[0].end >= blacklist[MinStartIndex(blacklist)].end
      invariant Separated(cleanList)
      invariant forall i :: 0 <= i < |remaining| ==> remaining[i] in blacklist
      invariant WellFormed(blacklist) ==> WellFormed(cleanList)
      invariant |cleanList| > 0 ==> forall i :: 0 <= i < |remaining| ==> remaining[i].start > cleanList[|cleanList| - 1].end + 1
      invariant forall x :: Covered(blacklist, x) <==> Covered(cleanList, x) || Covered(remaining, x)
      decreases |remaining|
    {
      var chunk, rest := GetNextChunk(remaining);
      forall x ensures Covered(cleanList + [chunk], x) <==> Covered(cleanList, x) || Contains(chunk, x) {
        CoveredAppend(cleanList, chunk, x);
      }
      cleanList := cleanList + [chunk];
      remaining := rest;
    }
  }

  lemma CoveredAppend(rs: seq<Range>, r: Range, x: int)
    ensures Covered(rs + [r], x) <==> Covered(rs, x) || Contains(r, x)
  {
    if Covered(rs, x) {
      var i :| 0 <= i < |rs| && Contains(rs[i], x);
      assert (rs + [r])[i] == rs[i];
    }
    if Contains(r, x) {
      assert (rs + [r])[|rs|] == r;
    }
  }

  /** In separated well-formed chunks, every chunk after the first starts
      more than one past the end of the first. */
  lemma {:induction false} SeparatedAfter(rs: seq<Range>, i: nat)
    requires Separated(rs) && WellFormed(rs) && 0 < i < |rs|
    ensures rs[i].start > rs[0].end + 1
  {
    if i > 1 {
      SeparatedAfter(rs, i - 1);
    }
  }

  /** `part_one`: one past the end of the first merged chunk; None where
      the source raises IndexError on an empty blacklist.  That address is
      blocked by nothing, and every address from the least start up to it
      is blocked. */
  method PartOne(blacklist: seq<Range>) returns (r: Option<int>)
    ensures r.Some? <==> |blacklist| > 0
    ensures r.Some? ==> r.value > blacklist[MinStartIndex(blacklist)].end
    ensures r.Some? && WellFormed(blacklist) ==> IsPartOneAnswer(blacklist, r.value)
  {
    var merged := GetMergedBlacklist(blacklist);
    if |merged| == 0 {
      return None;
    }
    var answer := merged[0].end + 1;
    if WellFormed(blacklist) {
      forall i | 0 <= i < |merged| ensures !Contains(merged[i], answer) {
        if i > 0 {
          SeparatedAfter(merged, i);
        }
      }
    }
    return Some(answer);
  }

  /** What part one's answer satisfies: blocked by nothing, above the least
      start, and every address from the least start up to it blocked. */
  ghost predicate IsPartOneAnswer(blacklist: seq<Range>, a: int)
    requires |blacklist| > 0
  {
    var lo := blacklist[MinStartIndex(blacklist)].start;
    lo < a && !Covered(blacklist, a) && forall x :: lo <= x < a ==> Covered(blacklist, x)
  }

  /** With the blacklist 5-8 the answer is 9, although 0 is the lowest
      address nothing blocks: part one takes address 0 to be blacklisted. */
  lemma PartOneMissesLowAddresses(a: int)
    requires IsPartOneAnswer([Range(5, 8)], a)
    ensures a == 9 && IsLowestAllowed([Range(5, 8)], 0) && a != 0
  {
    var bl := [Range(5, 8)];
    assert MinStartIndex(bl) == 0;
    assert !Contains(bl[0], a);
    assert !Covered(bl, 9);
    assert 5 <= 9 < a ==> Covered(bl, 9);
  }

  /** The address part one is meant to find: the lowest non-negative
      address that no range blocks. */
  ghost predicate IsLowestAllowed(blacklist: seq<Range>, a: int)
  {
    0 <= a && !Covered(blacklist, a) && forall x :: 0 <= x < a ==> Covered(blacklist, x)
  }

  /** Addresses are non-negative (the parser splits on '-'). */
  predicate NonNegative(rs: seq<Range>)
  {
    forall i :: 0 <= i < |rs| ==> 0 <= rs[i].start
  }

  /** Part one as intended: 0 when the first chunk starts above 0,
      otherwise one past the first chunk. */
  method LowestAllowed(blacklist: seq<Range>) returns (a: int)
    requires WellFormed(blacklist) && NonNegative(blacklist)
    ensures IsLowestAllowed(blacklist, a)
  {
    var merged := GetMergedBlacklist(blacklist);
    if |merged| == 0 || merged[0].start > 0 {
      forall i | 0 <= i < |merged| ensures merged[0].start <= merged[i].start {
        if i > 0 {
          SeparatedAfter(merged, i);
        }
      }
      if |merged| > 0 {
        assert merged[0].start == blacklist[MinStartIndex(blacklist)].start;
      }
      return 0;
    }
    a := merged[0].end + 1;
    forall i | 0 <= i < |merged| ensures !Contains(merged[i], a) {
      if i > 0 {
        SeparatedAfter(merged, i);
      }
    }
    assert merged[0].start == blacklist[MinStartIndex(blacklist)].start;
    forall x | 0 <= x < a ensures Covered(merged, x) {
      assert Contains(merged[0], x);
    }
  }

  /** Number of addresses the chunks block, counting each chunk's length. */
  function Blocked(rs: seq<Range>): int
  {
    if rs == [] then 0 else Blocked(rs[..|rs| - 1]) + (rs[|rs| - 1].end - rs[|rs| - 1].start + 1)
  }

  /** The counting loop of `part_two`: the gaps between consecutive chunks
      plus the addresses after the last chunk up to MaxIp.  The gaps add up
      to the span from the first chunk's start to MaxIp minus what the
      chunks block. */
  method CountWhitelist(merged: seq<Range>) returns (whitelistNbr: int)
    requires |merged| > 0
    ensures whitelistNbr == MaxIp + 1 - merged[0].start - Blocked(merged)
  {
    whitelistNbr := 0;
    var prevChunk := merged[0];
    assert merged[..1] == [merged[0]];
    assert Blocked(merged[..1]) == merged[0].end - merged[0].start + 1 by {
      assert merged[..1][..0] == [];
    }
    for i := 1 to |merged|
      invariant prevChunk == merged[i - 1]
      invariant whitelistNbr == prevChunk.end + 1 - merged[0].start - Blocked(merged[..i])
    {
      assert merged[..i + 1][..i] == merged[..i];
      var chunk := merged[i];
      whitelistNbr := whitelistNbr + chunk.start - prevChunk.end - 1;
      prevChunk := chunk;
    }
    whitelistNbr := whitelistNbr + MaxIp - prevChunk.end;
    assert merged[..|merged|] == merged;
  }

  /** The merged chunks of a blacklist: separated, and blocking exactly
      what the blacklist blocks. */
  ghost predicate IsMerge(blacklist: seq<Range>, merged: seq<Range>)
  {
    (|merged| > 0 <==> |blacklist| > 0) && Separated(merged) &&
    (forall x :: Covered(blacklist, x) <==> Covered(merged, x))
  }

  /** The addresses lo, lo + 1, ..., lo + n - 1 that some range blocks. */
  ghost function BlockedIn(rs: seq<Range>, lo: int, n: nat): nat
  {
    if n == 0 then 0 else BlockedIn(rs, lo, n - 1) + (if Covered(rs, lo + n - 1) then 1 else 0)
  }

  /** The addresses lo, lo + 1, ..., lo + n - 1 that no range blocks. */
  ghost function AllowedIn(rs: seq<Range>, lo: int, n: nat): nat
  {
    if n == 0 then 0 else AllowedIn(rs, lo, n - 1) + (if Covered(rs, lo + n - 1) then 0 else 1)
  }

  /** Every address of the window is either allowed or blocked. */
  lemma {:induction false} AllowedPlusBlocked(rs: seq<Range>, lo: int, n: nat)
    ensures AllowedIn(rs, lo, n) + BlockedIn(rs, lo, n) == n
  {
    if n > 0 {
      AllowedPlusBlocked(rs, lo, n - 1);
    }
  }

  /** Two lists blocking the same addresses block as many in any window. */
  lemma {:induction false} BlockedInSame(a: seq<Range>, b: seq<Range>, lo: int, n: nat)
    requires forall x :: Covered(a, x) <==> Covered(b, x)
    ensures BlockedIn(a, lo, n) == BlockedIn(b, lo, n)
  {
    if n > 0 {
      BlockedInSame(a, b, lo, n - 1);
    }
  }

  lemma {:induction false} BlockedInEmpty(lo: int, n: nat)
    ensures BlockedIn([], lo, n) == 0
  {
    if n > 0 {
      BlockedInEmpty(lo, n - 1);
    }
  }

  /** The addresses lo, ..., lo + n - 1 that one range blocks. */
  function ChunkIn(c: Range, lo: int, n: nat): nat
  {
    if n == 0 then 0 else ChunkIn(c, lo, n - 1) + (if Contains(c, lo + n - 1) then 1 else 0)
  }

  /** A range blocks the part of it that overlaps the window. */
  lemma {:induction false} ChunkInOverlap(c: Range, lo: int, n: nat)
    ensures ChunkIn(c, lo, n) == Max(0, Min(c.end, lo + n - 1) - Max(c.start, lo) + 1)
  {
    if n > 0 {
      ChunkInOverlap(c, lo, n - 1);
    }
  }

  /** A range lying above every range of a list adds its own addresses. */
  lemma {:induction false} BlockedInAppend(rs: seq<Range>, c: Range, lo: int, n: nat)
    requires forall i :: 0 <= i < |rs| ==> rs[i].end < c.start
    ensures BlockedIn(rs + [c], lo, n) == BlockedIn(rs, lo, n) + ChunkIn(c, lo, n)
  {
    if n > 0 {
      BlockedInAppend(rs, c, lo, n - 1);
      var x := lo + n - 1;
      CoveredAppend(rs, c, x);
      assert !(Covered(rs, x) && Contains(c, x));
    }
  }

  /** Separated chunks are in ascending order with gaps between them. */
  lemma {:induction false} SeparatedOrder(rs: seq<Range>, i: nat, j: nat)
    requires Separated(rs) && WellFormed(rs) && i < j < |rs|
    ensures rs[i].end + 1 < rs[j].start
  {
    if i + 1 < j {
      SeparatedOrder(rs, i, j - 1);
    }
  }

  /** Separated chunks inside a window block, in it, the sum of their
      lengths. */
  lemma {:induction false} BlockedChunks(rs: seq<Range>, lo: int, n: nat)
    requires Separated(rs) && WellFormed(rs)
    requires forall i :: 0 <= i < |rs| ==> lo <= rs[i].start && rs[i].end < lo + n
    ensures BlockedIn(rs, lo, n) == Blocked(rs)
  {
    if rs == [] {
      BlockedInEmpty(lo, n);
    } else {
      var init, c := rs[..|rs| - 1], rs[|rs| - 1];
      BlockedChunks(init, lo, n);
      forall i | 0 <= i < |init|
        ensures init[i].end < c.start
      {
        SeparatedOrder(rs, i, |rs| - 1);
      }
      assert init + [c] == rs;
      BlockedInAppend(init, c, lo, n);
      ChunkInOverlap(c, lo, n);
    }
  }

  /** Addresses are 32-bit: no range reaches past MaxIp. */
  predicate WithinIpSpace(rs: seq<Range>)
  {
    forall i :: 0 <= i < |rs| ==> rs[i].end <= MaxIp
  }

  /** What `part_two` sums over the merged chunks is the number of
      addresses from the least start up to MaxIp that no range blocks. */
  lemma PartTwoCounts(blacklist: seq<Range>, merged: seq<Range>)
    requires IsMerge(blacklist, merged) && |blacklist| > 0
    requires WellFormed(blacklist) && WellFormed(merged) && WithinIpSpace(blacklist)
    requires merged[0].start == blacklist[MinStartIndex(blacklist)].start
    ensures var lo := merged[0].start;
      lo <= MaxIp && MaxIp + 1 - lo - Blocked(merged) == AllowedIn(blacklist, lo, MaxIp + 1 - lo)
  {
    var m := MinStartIndex(blacklist);
    var lo := merged[0].start;
    var n: nat := MaxIp + 1 - lo;
    forall i | 0 <= i < |merged|
      ensures lo <= merged[i].start && merged[i].end < lo + n
    {
      assert Contains(merged[i], merged[i].start) && Contains(merged[i], merged[i].end);
      assert Covered(blacklist, merged[i].start);
      assert Covered(blacklist, merged[i].end);
    }
    BlockedChunks(merged, lo, n);
    BlockedInSame(merged, blacklist, lo, n);
    AllowedPlusBlocked(blacklist, lo, n);
  }

  /** `part_two`; None where the source raises IndexError on an empty
      blacklist. On well-formed 32-bit ranges the answer is the number of
      addresses from the least start up to MaxIp that no range blocks. */
  method PartTwo(blacklist: seq<Range>) returns (r: Option<int>)
    ensures r.Some? <==> |blacklist| > 0
    ensures r.Some? ==>
      (exists merged: seq<Range> :: IsMerge(blacklist, merged) &&
         r.value == MaxIp + 1 - merged[0].start - Blocked(merged))
    ensures r.Some? && WellFormed(blacklist) && WithinIpSpace(blacklist) ==>
      var lo := blacklist[MinStartIndex(blacklist)].start;
      lo <= MaxIp && r.value == AllowedIn(blacklist, lo, MaxIp + 1 - lo)
  {
    var merged := GetMergedBlacklist(blacklist);
    if |merged| == 0 {
      return None;
    }
    var n := CountWhitelist(merged);
    assert IsMerge(blacklist, merged);
    if WellFormed(blacklist) && WithinIpSpace(blacklist) {
      PartTwoCounts(blacklist, merged);
    }
    return Some(n);
  }
}
