/** Password scrambler (2016, day 21): six operations on a deque of
    letters, each with a reverse, applied in order to scramble and in
    reverse order with the reverses to unscramble. */
module Aoc2016Day21 {
  import opened Common

  datatype Direction = Left | Right

  /** Positions come from `\d+` in the input, so they are never negative. */
  datatype Operation =
    | SwapPosition(x: nat, y: nat)
    | SwapLetter(a: char, b: char)
    | RotateDirection(direction: Direction, steps: nat)
    | RotateBasedOn(letter: char)
    | Reverse(x: nat, y: nat)
    | Move(x: nat, y: nat)

  /** No letter occurs twice (true of the puzzle's starting passwords). */
  ghost predicate Distinct(p: seq<char>)
  {
    forall i, j :: 0 <= i < j < |p| ==> p[i] != p[j]
  }

  /** `deque.index(c)`: the first position holding c; None for ValueError. */
  function IndexOf(p: seq<char>, c: char): (r: Option<nat>)
    ensures r.Some? <==> c in p
    ensures r.Some? ==> r.value < |p| && p[r.value] == c && c !in p[..r.value]
  {
    if |p| == 0 then None
    else if p[0] == c then Some(0)
    else match IndexOf(p[1..], c)
      case None => None
      case Some(i) => (assert p[..i + 1] == [p[0]] + p[1..][..i]; Some(i + 1))
  }

  lemma IndexOfDistinct(p: seq<char>, i: nat)
    requires Distinct(p) && i < |p|
    ensures IndexOf(p, p[i]) == Some(i)
  {
  }

  lemma {:induction false} DistinctCount(p: seq<char>, c: char)
    requires Distinct(p) && c in p
    ensures multiset(p)[c] == 1
  {
    assert p == [p[0]] + p[1..];
    if p[0] == c {
      assert c !in p[1..];
    } else {
      DistinctCount(p[1..], c);
    }
  }

  /** Distinctness depends only on the multiset of letters. */
  lemma DistinctPermutation(p: seq<char>, q: seq<char>)
    requires Distinct(p) && multiset(p) == multiset(q)
    ensures Distinct(q)
  {
    forall u, v | 0 <= u < v < |q| ensures q[u] != q[v] {
      var c := q[u];
      assert q == q[..v] + q[v..];
      assert q[u] in multiset(q[..v]);
      assert q[v] in multiset(q[v..]);
      assert c in multiset(p);
      DistinctCount(p, c);
    }
  }

  /** A letter swap at two positions. */
  function Swap(p: seq<char>, i: nat, j: nat): (r: seq<char>)
    requires i < |p| && j < |p|
    ensures |r| == |p| && multiset(r) == multiset(p)
    ensures r[i] == p[j] && r[j] == p[i]
    ensures forall k :: 0 <= k < |p| && k != i && k != j ==> r[k] == p[k]
  {
    p[i := p[j]][j := p[i]]
  }

  lemma SwapDistinct(p: seq<char>, i: nat, j: nat)
    requires i < |p| && j < |p| && Distinct(p)
    ensures Distinct(Swap(p, i, j))
  {
    DistinctPermutation(p, Swap(p, i, j));
  }

  /** `SwapPosition.process`: both positions must be in range. */
  function SwapPositions(p: seq<char>, x: nat, y: nat): (r: Option<seq<char>>)
    ensures r.Some? <==> x < |p| && y < |p|
    ensures r.Some? ==> r.value == Swap(p, x, y)
  {
    if x < |p| && y < |p| then Some(Swap(p, x, y)) else None
  }

  /** `SwapLetter.process`: swaps the first a with the first b. */
  function SwapLetters(p: seq<char>, a: char, b: char): (r: Option<seq<char>>)
    ensures r.Some? <==> a in p && b in p
    ensures r.Some? ==> r.value == Swap(p, IndexOf(p, a).value, IndexOf(p, b).value)
  {
    match (IndexOf(p, a), IndexOf(p, b))
    case (Some(i), Some(j)) => Some(Swap(p, i, j))
    case _ => None
  }

  /** The rotation `RotateBasedOn.process` applies for a letter at index i. */
  function BasedOnSteps(i: nat): (k: nat)
    ensures i < 4 ==> k == i + 1
    ensures i >= 4 ==> k == i + 2
  {
    if i >= 4 then i + 2 else i + 1
  }

  /** `RotateBasedOn.process`. */
  function RotateBasedOnLetter(p: seq<char>, c: char): (r: Option<seq<char>>)
    ensures r.Some? <==> c in p
    ensures r.Some? ==> r.value == RotateRight(p, BasedOnSteps(IndexOf(p, c).value))
    ensures r.Some? ==> multiset(r.value) == multiset(p)
  {
    match IndexOf(p, c)
    case None => None
    case Some(i) =>
      RotateRightPermutes(p, BasedOnSteps(i));
      Some(RotateRight(p, BasedOnSteps(i)))
  }

  /** `reversed` on a sequence. */
  function Reversed(s: seq<char>): (r: seq<char>)
    ensures |r| == |s| && multiset(r) == multiset(s)
    ensures forall i :: 0 <= i < |s| ==> r[i] == s[|s| - 1 - i]
  {
    if s == [] then [] else
      assert s == s[..|s| - 1] + [s[|s| - 1]];
      [s[|s| - 1]] + Reversed(s[..|s| - 1])
  }

  /** `Reverse.process`: positions x..y inclusive in reverse order; no
      change when x > y; IndexError when y is past the end. */
  function ReverseRange(p: seq<char>, x: nat, y: nat): (r: Option<seq<char>>)
    ensures r.Some? <==> x > y || y < |p|
    ensures r.Some? ==> |r.value| == |p| && multiset(r.value) == multiset(p)
    ensures r.Some? ==> forall k :: 0 <= k < |p| ==>
      r.value[k] == if x <= k <= y then p[x + y - k] else p[k]
  {
    if x > y then Some(p)
    else if y < |p| then
      var q := seq(|p|, k requires 0 <= k < |p| => if x <= k <= y then p[x + y - k] else p[k]);
      ReverseRangeSplit(p, x, y, q);
      Some(q)
    else None
  }

  /** The reversed range is the middle slice reversed, so the letters are kept. */
  lemma ReverseRangeSplit(p: seq<char>, x: nat, y: nat, q: seq<char>)
    requires x <= y < |p| && |q| == |p|
    requires forall k :: 0 <= k < |p| ==> q[k] == if x <= k <= y then p[x + y - k] else p[k]
    ensures multiset(q) == multiset(p)
  {
    var mid := Reversed(p[x..y + 1]);
    var joined := p[..x] + mid + p[y + 1..];
    assert |mid| == y + 1 - x;
    assert |joined| == |p|;
    forall k | 0 <= k < |p| ensures q[k] == joined[k] {
      assert q[k] == if x <= k <= y then p[x + y - k] else p[k];
      if k < x {
        assert joined[k] == p[..x][k];
      } else if k <= y {
        assert joined[k] == (p[..x] + mid)[k] == mid[k - x];
        assert mid[k - x] == p[x..y + 1][y - k] == p[x + y - k];
      } else {
        assert joined[k] == p[y + 1..][k - y - 1];
      }
    }
    assert q == joined;
    assert p == p[..x] + p[x..y + 1] + p[y + 1..];
  }

  /** `remove(v)` followed by `insert(at, v)`: the first v is taken out and
      put back at `at`, clamped to the end as insert does. */
  function RemoveInsert(p: seq<char>, v: char, at: nat): (r: seq<char>)
    requires v in p
    ensures |r| == |p| && multiset(r) == multiset(p)
  {
    var i := IndexOf(p, v).value;
    var rest := p[..i] + p[i + 1..];
    var j := if at <= |rest| then at else |rest|;
    assert p == p[..i] + [p[i]] + p[i + 1..];
    assert multiset(p) == multiset(rest) + multiset{v};
    assert rest == rest[..j] + rest[j..];
    assert multiset(rest[..j] + [v] + rest[j..]) == multiset(rest) + multiset{v};
    rest[..j] + [v] + rest[j..]
  }

  /** On distinct letters, moving from i to j < |p|: the letter lands at j
      and taking it out again gives back the rest. */
  lemma RemoveInsertDistinct(p: seq<char>, i: nat, j: nat)
    requires Distinct(p) && i < |p| && j < |p|
    ensures var q := RemoveInsert(p, p[i], j);
      q[j] == p[i] && q[..j] + q[j + 1..] == p[..i] + p[i + 1..] && Distinct(q)
  {
    IndexOfDistinct(p, i);
    var q := RemoveInsert(p, p[i], j);
    var rest := p[..i] + p[i + 1..];
    assert q == rest[..j] + [p[i]] + rest[j..];
    InsertedThenRemoved(rest, p[i], j);
    DistinctPermutation(p, q);
  }

  /** A letter inserted at j sits at j, and removing it restores the list. */
  lemma InsertedThenRemoved(rest: seq<char>, c: char, j: nat)
    requires j <= |rest|
    ensures var q := rest[..j] + [c] + rest[j..];
      q[j] == c && q[..j] + q[j + 1..] == rest
  {
    var q := rest[..j] + [c] + rest[j..];
    assert q[..j] == rest[..j];
    assert q[j + 1..] == rest[j..];
  }

  /** `Move.process`: read position x, then remove and insert at y. */
  function MovePosition(p: seq<char>, x: nat, y: nat): (r: Option<seq<char>>)
    ensures r.Some? <==> x < |p|
    ensures r.Some? ==> r.value == RemoveInsert(p, p[x], y)
  {
    if x < |p| then Some(RemoveInsert(p, p[x], y)) else None
  }

  function Opposite(d: Direction): (r: Direction)
    ensures r != d
  {
    if d == Left then Right else Left
  }

  /** `RotateDirection.process`: `deque.rotate` by -steps for left and by
      steps for right. */
  function Rotate(p: seq<char>, d: Direction, k: nat): (r: seq<char>)
    ensures |r| == |p| && multiset(r) == multiset(p)
  {
    var steps := if d == Left then -(k as int) else k;
    RotateRightPermutes(p, steps);
    RotateRight(p, steps)
  }

  /** Rotating one way and then the other by the same steps restores p. */
  lemma RotateOpposite(p: seq<char>, d: Direction, k: nat)
    ensures Rotate(Rotate(p, d, k), Opposite(d), k) == p
  {
    if d == Left {
      RotateLeftInverse(p, k);
    } else {
      RotateRightInverse(p, k);
    }
  }

  /** `Move.process_reverse`: take the letter at y and put it back at x. */
  function MoveBack(p: seq<char>, x: nat, y: nat): (r: Option<seq<char>>)
    ensures r.Some? <==> y < |p|
    ensures r.Some? ==> r.value == RemoveInsert(p, p[y], x)
  {
    if y < |p| then Some(RemoveInsert(p, p[y], x)) else None
  }

  /** `RotateBasedOn.process_reverse`. */
  function RotateBasedOnBack(p: seq<char>, c: char): (r: Option<seq<char>>)
    ensures r.Some? ==> RotateBasedOnLetter(r.value, c) == Some(p) && multiset(r.value) == multiset(p)
  {
    if c !in p then None else FindBasedOnInverse(c, p, 0)
  }

  /** `process`: None where the source raises IndexError or ValueError. */
  function Apply(op: Operation, p: seq<char>): (r: Option<seq<char>>)
    ensures r.Some? ==> |r.value| == |p| && multiset(r.value) == multiset(p)
  {
    match op
    case SwapPosition(x, y) => SwapPositions(p, x, y)
    case SwapLetter(a, b) => SwapLetters(p, a, b)
    case RotateDirection(d, k) => Some(Rotate(p, d, k))
    case RotateBasedOn(c) => RotateBasedOnLetter(p, c)
    case Reverse(x, y) => ReverseRange(p, x, y)
    case Move(x, y) => MovePosition(p, x, y)
  }

  /** The search of `RotateBasedOn.process_reverse`: the first i from
      `from` on, below |p| + 5, whose left rotation `process` maps to p. */
  function FindBasedOnInverse(c: char, p: seq<char>, from: nat): (r: Option<seq<char>>)
    ensures r.Some? ==> RotateBasedOnLetter(r.value, c) == Some(p) && multiset(r.value) == multiset(p)
    decreases |p| + 5 - from
  {
    if from >= |p| + 5 then None
    else if RotateBasedOnLetter(RotateRight(p, -(from as int)), c) == Some(p) then Some(RotateRight(p, -(from as int)))
    else FindBasedOnInverse(c, p, from + 1)
  }

  /** `process_reverse`; RotateBasedOn's `process` on the first candidate
      raises ValueError when the letter is absent. */
  function ApplyReverse(op: Operation, p: seq<char>): (r: Option<seq<char>>)
    ensures r.Some? ==> |r.value| == |p| && multiset(r.value) == multiset(p)
  {
    match op
    case SwapPosition(x, y) => SwapPositions(p, x, y)
    case SwapLetter(a, b) => SwapLetters(p, a, b)
    case RotateDirection(d, k) => Some(Rotate(p, Opposite(d), k))
    case RotateBasedOn(c) => RotateBasedOnBack(p, c)
    case Reverse(x, y) => ReverseRange(p, x, y)
    case Move(x, y) => MoveBack(p, x, y)
  }

  lemma SwapPositionsSelfInverse(p: seq<char>, x: nat, y: nat)
    requires SwapPositions(p, x, y).Some?
    ensures SwapPositions(SwapPositions(p, x, y).value, x, y) == Some(p)
  {
    assert Swap(Swap(p, x, y), x, y) == p;
  }

  lemma SwapLettersSelfInverse(p: seq<char>, a: char, b: char)
    requires Distinct(p) && SwapLetters(p, a, b).Some?
    ensures SwapLetters(SwapLetters(p, a, b).value, a, b) == Some(p)
  {
    var i, j := IndexOf(p, a).value, IndexOf(p, b).value;
    var q := Swap(p, i, j);
    SwapDistinct(p, i, j);
    IndexOfDistinct(q, i);
    IndexOfDistinct(q, j);
    assert Swap(q, j, i) == p;
  }

  lemma ReverseRangeTwiceAt(p: seq<char>, x: nat, y: nat, k: nat)
    requires x <= y < |p| && k < |p|
    ensures ReverseRange(ReverseRange(p, x, y).value, x, y).value[k] == p[k]
  {
    var q := ReverseRange(p, x, y).value;
    if x <= k <= y {
      assert q[x + y - k] == p[k];
    }
  }

  lemma ReverseRangeSelfInverse(p: seq<char>, x: nat, y: nat)
    requires ReverseRange(p, x, y).Some?
    ensures ReverseRange(ReverseRange(p, x, y).value, x, y) == Some(p)
  {
    if x <= y {
      var back := ReverseRange(ReverseRange(p, x, y).value, x, y).value;
      forall k | 0 <= k < |p| ensures back[k] == p[k] {
        ReverseRangeTwiceAt(p, x, y, k);
      }
      assert back == p;
    }
  }

  /** SwapPosition, SwapLetter and Reverse undo themselves (their
      `process_reverse` is `process`); SwapLetter needs distinct letters so
      that `index` finds the swapped cells again. */
  lemma SelfInverse(op: Operation, p: seq<char>)
    requires op.SwapPosition? || op.SwapLetter? || op.Reverse?
    requires op.SwapLetter? ==> Distinct(p)
    requires Apply(op, p).Some?
    ensures ApplyReverse(op, p) == Apply(op, p)
    ensures Apply(op, Apply(op, p).value) == Some(p)
  {
    match op
    case SwapPosition(x, y) => SwapPositionsSelfInverse(p, x, y);
    case SwapLetter(a, b) => SwapLettersSelfInverse(p, a, b);
    case Reverse(x, y) => ReverseRangeSelfInverse(p, x, y);
  }

  /** `Move.process_reverse` undoes `process` when the letters are distinct
      and both positions are in range. */
  lemma MoveUndone(p: seq<char>, x: nat, y: nat)
    requires x < |p| && y < |p| && Distinct(p)
    ensures MovePosition(p, x, y).Some? && MoveBack(MovePosition(p, x, y).value, x, y) == Some(p)
  {
    var q := RemoveInsert(p, p[x], y);
    RemoveInsertDistinct(p, x, y);
    RemoveInsertDistinct(q, y, x);
    var back := RemoveInsert(q, q[y], x);
    SameAroundIsSame(back, p, x);
  }

  /** Two lists that agree at x and agree once x is removed are equal. */
  lemma SameAroundIsSame(a: seq<char>, b: seq<char>, x: nat)
    requires x < |a| && x < |b| && a[x] == b[x] && a[..x] + a[x + 1..] == b[..x] + b[x + 1..]
    ensures a == b
  {
    var ra, rb := a[..x] + a[x + 1..], b[..x] + b[x + 1..];
    assert |a| == |b|;
    forall i | 0 <= i < |a| ensures a[i] == b[i] {
      if i < x {
        assert a[i] == ra[i] && b[i] == rb[i];
      } else if i > x {
        assert a[i] == ra[i - 1] && b[i] == rb[i - 1];
      }
    }
  }

  /** Every reverse operation returns a preimage of its input under
      `process`, given distinct letters and, for Move, a first position in
      range (otherwise `process` raises on the result). */
  lemma ReverseIsPreimage(op: Operation, p: seq<char>)
    requires Distinct(p) && ApplyReverse(op, p).Some?
    requires op.Move? ==> op.x < |p|
    ensures Apply(op, ApplyReverse(op, p).value) == Some(p)
  {
    match op
    case SwapPosition(x, y) => SwapPositionsSelfInverse(p, x, y);
    case SwapLetter(a, b) => SwapLettersSelfInverse(p, a, b);
    case Reverse(x, y) => ReverseRangeSelfInverse(p, x, y);
    case RotateDirection(d, k) =>
      RotateOpposite(p, Opposite(d), k);
      assert Opposite(Opposite(d)) == d;
    case RotateBasedOn(_) =>
    case Move(x, y) =>
      MoveUndone(p, y, x);
  }

  /** `part_one`'s loop: every operation in order; None if one raises. */
  function Scramble(ops: seq<Operation>, p: seq<char>): (r: Option<seq<char>>)
    ensures r.Some? ==> |r.value| == |p| && multiset(r.value) == multiset(p)
    decreases |ops|
  {
    if ops == [] then Some(p)
    else match Apply(ops[0], p)
      case None => None
      case Some(q) => Scramble(ops[1..], q)
  }

  /** `part_two`'s loop: the reverses, last operation first. */
  function Unscramble(ops: seq<Operation>, p: seq<char>): (r: Option<seq<char>>)
    ensures r.Some? ==> |r.value| == |p| && multiset(r.value) == multiset(p)
    decreases |ops|
  {
    if ops == [] then Some(p)
    else match ApplyReverse(ops[|ops| - 1], p)
      case None => None
      case Some(q) => Unscramble(ops[..|ops| - 1], q)
  }

  /** Move's first position stays inside a password of length n. */
  predicate MovesInRange(ops: seq<Operation>, n: nat)
  {
    forall i :: 0 <= i < |ops| && ops[i].Move? ==> ops[i].x < n
  }

  lemma MovesInRangePrefix(ops: seq<Operation>, n: nat)
    requires ops != [] && MovesInRange(ops, n)
    ensures MovesInRange(ops[..|ops| - 1], n)
  {
    var init := ops[..|ops| - 1];
    forall i | 0 <= i < |init| && init[i].Move? ensures init[i].x < n {
      assert init[i] == ops[i];
    }
  }

  lemma {:induction false} ScrambleAppend(ops: seq<Operation>, op: Operation, p: seq<char>, q: seq<char>)
    requires Scramble(ops, p) == Some(q)
    ensures Scramble(ops + [op], p) == Apply(op, q)
    decreases |ops|
  {
    if ops == [] {
      assert ops + [op] == [op];
    } else {
      assert (ops + [op])[1..] == ops[1..] + [op];
      ScrambleAppend(ops[1..], op, Apply(ops[0], p).value, q);
    }
  }

  lemma SplitLast(ops: seq<Operation>)
    requires ops != []
    ensures ops[..|ops| - 1] + [ops[|ops| - 1]] == ops
  {
  }

  /** The last reverse operation of an unscramble, with what the rest of
      the unscramble needs to know about its result. */
  lemma UnscrambleLast(ops: seq<Operation>, target: seq<char>) returns (q: seq<char>)
    requires ops != [] && Distinct(target) && MovesInRange(ops, |target|)
    requires Unscramble(ops, target).Some?
    ensures ApplyReverse(ops[|ops| - 1], target) == Some(q)
    ensures Apply(ops[|ops| - 1], q) == Some(target)
    ensures Distinct(q) && MovesInRange(ops[..|ops| - 1], |q|)
    ensures Unscramble(ops, target) == Unscramble(ops[..|ops| - 1], q)
  {
    var last := ops[|ops| - 1];
    q := ApplyReverse(last, target).value;
    ReverseIsPreimage(last, target);
    DistinctPermutation(target, q);
    MovesInRangePrefix(ops, |target|);
  }

  /** Unscrambling gives a password that scrambles back to the target. */
  lemma {:induction false} UnscrambleIsPreimage(ops: seq<Operation>, target: seq<char>)
    requires Distinct(target) && MovesInRange(ops, |target|)
    requires Unscramble(ops, target).Some?
    ensures Scramble(ops, Unscramble(ops, target).value) == Some(target)
    decreases |ops|
  {
    if ops != [] {
      var q := UnscrambleLast(ops, target);
      var init, last := ops[..|ops| - 1], ops[|ops| - 1];
      UnscrambleIsPreimage(init, q);
      var start := Unscramble(init, q).value;
      assert Unscramble(ops, target).value == start;
      ScrambleAppend(init, last, start, q);
      SplitLast(ops);
      assert Scramble(ops, start) == Some(target);
    }
  }

  /** `part_one`: scramble "abcdefgh" operation by operation; None when an
      operation raises. */
  method PartOne(ops: seq<Operation>) returns (r: Option<seq<char>>)
    ensures r == Scramble(ops, "abcdefgh")
  {
    var password := "abcdefgh";
    var i := 0;
    while i < |ops|
      invariant 0 <= i <= |ops|
      invariant Scramble(ops[i..], password) == Scramble(ops, "abcdefgh")
    {
      assert ops[i..][1..] == ops[i + 1..];
      match Apply(ops[i], password)
      case None => return None;
      case Some(q) => password := q;
      i := i + 1;
    }
    return Some(password);
  }

  lemma UnscramblePrefix(ops: seq<Operation>, i: nat, p: seq<char>)
    requires 0 < i <= |ops|
    ensures Unscramble(ops[..i], p) ==
      match ApplyReverse(ops[i - 1], p)
      case None => None
      case Some(q) => Unscramble(ops[..i - 1], q)
  {
    assert ops[..i][..i - 1] == ops[..i - 1];
  }

  /** `part_two`: undo the operations on "fbgdceah", last one first. */
  method PartTwo(ops: seq<Operation>) returns (r: Option<seq<char>>)
    ensures r == Unscramble(ops, "fbgdceah")
  {
    var password := "fbgdceah";
    var i := |ops|;
    assert ops[..i] == ops;
    while i > 0
      invariant 0 <= i <= |ops|
      invariant Unscramble(ops[..i], password) == Unscramble(ops, "fbgdceah")
    {
      var next := ApplyReverse(ops[i - 1], password);
      UnscramblePrefix(ops, i, password);
      if next.None? {
        return None;
      }
      password := next.value;
      i := i - 1;
    }
    return Some(password);
  }
}
