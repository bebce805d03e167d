/** Chocolate charts (2018, day 14): two elves extend a scoreboard of
    recipe scores.  Each round the sum of their two current scores is
    written down digit by digit, and each elf moves forward one plus its
    current score, around the board.  Part one reads the ten scores after
    a given count; part two finds where a given digit string first
    appears. */
module Aoc2018Day14 {
  import opened Common

  /** The scoreboard and the two elves' positions on it. */
  datatype Board = Board(recipes: seq<nat>, elf1: nat, elf2: nat)

  /** Every score is a single digit and both elves stand on the board. */
  predicate Valid(b: Board)
  {
    |b.recipes| >= 2
    && (forall i :: 0 <= i < |b.recipes| ==> b.recipes[i] <= 9)
    && b.elf1 < |b.recipes| && b.elf2 < |b.recipes|
  }

  /** The board both parts start from. */
  function Initial(): (b: Board)
    ensures Valid(b)
  {
    Board([3, 7], 0, 1)
  }

  /** The digits a sum of two scores is written with: two above 9, one
      otherwise, in that order. */
  function NewRecipes(sum: nat): (r: seq<nat>)
    requires sum <= 18
    ensures |r| == (if sum > 9 then 2 else 1)
    ensures forall i :: 0 <= i < |r| ==> r[i] <= 9
    ensures (if sum > 9 then 10 * r[0] + r[1] else r[0]) == sum
  {
    if sum > 9 then [sum / 10, sum % 10] else [sum]
  }

  /** One round: append the digits of the two current scores' sum, then
      move each elf forward one plus its score, wrapping around the new
      board. */
  function Round(b: Board): (r: Board)
    requires Valid(b)
    ensures Valid(r)
    ensures |b.recipes| < |r.recipes| <= |b.recipes| + 2
    ensures r.recipes[..|b.recipes|] == b.recipes
  {
    var sum := b.recipes[b.elf1] + b.recipes[b.elf2];
    var recipes := b.recipes + NewRecipes(sum);
    Board(recipes, (b.elf1 + 1 + recipes[b.elf1]) % |recipes|,
      (b.elf2 + 1 + recipes[b.elf2]) % |recipes|)
  }

  /** The end of a round: each elf moves forward one plus its score,
      around the board that now holds the round's new scores. */
  method MoveElves(recipes: seq<nat>, elf1: nat, elf2: nat, ghost b: Board)
      returns (next1: nat, next2: nat)
    requires Valid(b) && elf1 == b.elf1 && elf2 == b.elf2
    requires recipes == b.recipes + NewRecipes(b.recipes[b.elf1] + b.recipes[b.elf2])
    ensures Board(recipes, next1, next2) == Round(b)
  {
    next1 := (elf1 + 1 + recipes[elf1]) % |recipes|;
    next2 := (elf2 + 1 + recipes[elf2]) % |recipes|;
  }

  /** The board after as many rounds as it takes to hold at least `m`
      scores. */
  function Grow(b: Board, m: nat): (r: Board)
    requires Valid(b)
    ensures Valid(r)
    decreases m - |b.recipes|
  {
    if |b.recipes| >= m then b else Grow(Round(b), m)
  }

  /** Growing only appends: the board grown from keeps its scores, and it
      is reached with at least `m` scores, one more at most. */
  lemma {:induction false} GrowExtends(b: Board, m: nat)
    requires Valid(b)
    ensures |Grow(b, m).recipes| >= m && |Grow(b, m).recipes| >= |b.recipes|
    ensures |b.recipes| < m ==> |Grow(b, m).recipes| <= m + 1
    ensures Grow(b, m).recipes[..|b.recipes|] == b.recipes
    decreases m - |b.recipes|
  {
    if |b.recipes| < m {
      var n := Round(b);
      GrowExtends(n, m);
      assert Grow(b, m).recipes[..|n.recipes|][..|b.recipes|] == b.recipes;
    }
  }

  /** Growing to a shorter length first changes nothing. */
  lemma {:induction false} GrowSplit(b: Board, m1: nat, m2: nat)
    requires Valid(b) && m1 <= m2
    ensures Grow(Grow(b, m1), m2) == Grow(b, m2)
    decreases m1 - |b.recipes|
  {
    if |b.recipes| < m1 {
      GrowSplit(Round(b), m1, m2);
    }
  }

  /** The first `m` scores of the board, or a few more: what the elves
      have written once it holds at least `m`. */
  function Scores(m: nat): (r: seq<nat>)
    ensures |r| >= m
  {
    GrowExtends(Initial(), m);
    Grow(Initial(), m).recipes
  }

  /** The board grown to `m` scores holds the scoreboard's first ones. */
  lemma ScoresOf(b: Board, m: nat)
    requires Valid(b) && b == Grow(Initial(), m)
    ensures Scores(m) == b.recipes
  {
  }

  /** The scores never change once written: a shorter scoreboard is a
      prefix of a longer one. */
  lemma ScoresPrefix(m1: nat, m2: nat)
    requires m1 <= m2
    ensures |Scores(m1)| <= |Scores(m2)|
    ensures Scores(m1) == Scores(m2)[..|Scores(m1)|]
  {
    GrowSplit(Initial(), m1, m2);
    GrowExtends(Grow(Initial(), m1), m2);
  }

  /** A board the rounds reach from the start: the board grown to its
      own length. */
  predicate Reached(b: Board)
  {
    Valid(b) && b == Grow(Initial(), |b.recipes|)
  }

  /** A board reached from the start is the board grown to its own
      length, and the next round is the board grown to any length it
      newly covers. */
  lemma NextRound(b: Board, m: nat)
    requires Reached(b)
    requires |b.recipes| < m <= |Round(b).recipes|
    ensures Grow(Initial(), m) == Round(b)
  {
    GrowSplit(Initial(), |b.recipes|, m);
  }

  /** The body of the `part_one` loop: one round, and how many scores it
      added. */
  method PlayRound(recipes: seq<nat>, elf1: nat, elf2: nat)
      returns (next: seq<nat>, next1: nat, next2: nat, added: nat)
    requires Valid(Board(recipes, elf1, elf2))
    ensures Board(next, next1, next2) == Round(Board(recipes, elf1, elf2))
    ensures added == |next| - |recipes|
  {
    ghost var b := Board(recipes, elf1, elf2);
    var newRecipe := recipes[elf1] + recipes[elf2];
    next := recipes;
    if newRecipe > 9 {
      next := next + [newRecipe / 10];
      next := next + [newRecipe % 10];
      added := 2;
    } else {
      next := next + [newRecipe];
      added := 1;
    }
    assert next == recipes + NewRecipes(newRecipe);
    next1, next2 := MoveElves(next, elf1, elf2, b);
  }

  /** The loop of `part_one`: rounds until the board holds `m` scores,
      counted as they are added. */
  method PlayUntil(m: nat) returns (recipes: seq<nat>, elf1: nat, elf2: nat)
    ensures Valid(Board(recipes, elf1, elf2))
    ensures Board(recipes, elf1, elf2) == Grow(Initial(), m)
  {
    elf1, elf2 := 0, 1;
    var current := 2;
    recipes := [3, 7];
    while current < m
      invariant Reached(Board(recipes, elf1, elf2)) && current == |recipes|
      invariant current >= m ==> Board(recipes, elf1, elf2) == Grow(Initial(), m)
      decreases m - current
    {
      ghost var b := Board(recipes, elf1, elf2);
      var added;
      recipes, elf1, elf2, added := PlayRound(recipes, elf1, elf2);
      current := current + added;
      NextRound(b, |recipes|);
      if current >= m {
        NextRound(b, m);
      }
    }
  }

  /** `part_one`: play rounds until the board holds `recipes_nbr + 10`
      scores, then read the ten after the first `recipes_nbr`. */
  method PartOne(recipesNbr: nat) returns (ten: seq<nat>)
    ensures ten == Scores(recipesNbr + 10)[recipesNbr..recipesNbr + 10]
  {
    var recipes, elf1, elf2 := PlayUntil(recipesNbr + 10);
    ScoresOf(Board(recipes, elf1, elf2), recipesNbr + 10);
    ten := recipes[recipesNbr..recipesNbr + 10];
  }

  /** The decimal digits of a number, most significant first, as `str`
      writes them. */
  function DecimalDigits(n: nat): (r: seq<nat>)
    ensures |r| >= 1 && forall i :: 0 <= i < |r| ==> r[i] <= 9
  {
    if n < 10 then [n] else DecimalDigits(n / 10) + [n % 10]
  }

  /** The number a digit sequence stands for. */
  function Value(digits: seq<nat>): nat
  {
    if digits == [] then 0 else 10 * Value(digits[..|digits| - 1]) + digits[|digits| - 1]
  }

  /** Reading back the decimal digits gives the number. */
  lemma {:induction false} DecimalDigitsValue(n: nat)
    ensures Value(DecimalDigits(n)) == n
  {
    if n >= 10 {
      DecimalDigitsValue(n / 10);
      var d := DecimalDigits(n / 10) + [n % 10];
      assert d[..|d| - 1] == DecimalDigits(n / 10);
    }
  }

  /** The digits `target` are written starting at score `i`. */
  predicate Occurs(scores: seq<nat>, target: seq<nat>, i: nat)
  {
    i + |target| <= |scores| && scores[i..i + |target|] == target
  }

  /** A slice of `target`'s length taken at `i`, cut short at the end as
      a Python slice is, equals `target` exactly when `target` occurs at
      `i`. */
  lemma SliceMatches(recipes: seq<nat>, target: seq<nat>, i: nat)
    requires i < |recipes|
    ensures Slice(recipes, i, i + |target|) == target <==> Occurs(recipes, target, i)
  {
    if i + |target| > |recipes| {
      assert |Slice(recipes, i, i + |target|)| == |recipes| - i;
    }
  }

  /** `contains_recipe`: does `target` start at some score of `recipes`?
      Only starting positions inside the board are tried, so an empty
      target is found on any board but the empty one. */
  method ContainsRecipe(recipes: seq<nat>, target: seq<nat>) returns (found: bool)
    ensures found <==> exists i: nat :: i < |recipes| && Occurs(recipes, target, i)
  {
    for idx := 0 to |recipes|
      invariant forall i: nat :: i < idx ==> !Occurs(recipes, target, i)
    {
      SliceMatches(recipes, target, idx);
      if Slice(recipes, idx, idx + |target|) == target {
        return true;
      }
    }
    return false;
  }

  /** `target` starts at score `i` of the scoreboard: judged on a board
      just long enough, which the prefix lemma makes the same as any
      longer one. */
  predicate AppearsAt(target: seq<nat>, i: nat)
  {
    Occurs(Scores(i + |target|), target, i)
  }

  /** The rounds part two plays before giving up. */
  const Iterations := 1_000_000_000

  /** A board of scores as the elves wrote them: the start of the
      scoreboard. */
  predicate Written(recipes: seq<nat>)
  {
    recipes == Scores(|recipes|)[..|recipes|]
  }

  /** Every board part of the way through a round played from a board
      reached from the start is written as the scoreboard has it. */
  lemma WrittenMidRound(recipes: seq<nat>, b: Board)
    requires Reached(b)
    requires |b.recipes| <= |recipes| <= |Round(b).recipes|
    requires recipes == Round(b).recipes[..|recipes|]
    ensures Written(recipes)
  {
    if |recipes| == |b.recipes| {
      assert recipes == b.recipes;
    } else {
      NextRound(b, |recipes|);
    }
  }

  /** On a written board, an appearance that ends within it is one in
      its scores. */
  lemma WrittenAppears(recipes: seq<nat>, target: seq<nat>, j: nat)
    requires Written(recipes) && j + |target| <= |recipes|
    ensures AppearsAt(target, j) <==> Occurs(recipes, target, j)
  {
    var m1, m2 := j + |target|, |recipes|;
    ScoresPrefix(m1, m2);
    var a, b := Scores(m1), Scores(m2);
    SliceOfPrefix(b, |a|, j, m1);
    SliceOfPrefix(b, m2, j, m1);
    assert a[j..m1] == recipes[j..m1];
  }

  /** A slice of a prefix is the slice of the whole. */
  lemma SliceOfPrefix(s: seq<nat>, n: nat, i: nat, k: nat)
    requires i <= k <= n <= |s|
    ensures s[..n][i..k] == s[i..k]
  {
  }

  /** The target does not appear in `recipes` anywhere it would end at
      `from` scores or later. */
  predicate NoneIn(recipes: seq<nat>, target: seq<nat>, from: nat)
  {
    forall j: nat :: from <= j + |target| <= |recipes| ==> !Occurs(recipes, target, j)
  }

  /** No appearance starts anywhere it could end within the first `len`
      scores, counting only endings at `from` or later. */
  predicate NoneEndingWithin(target: seq<nat>, from: nat, len: int)
  {
    forall j: nat :: from <= j + |target| <= len ==> !AppearsAt(target, j)
  }

  /** `target` appears at `i`, ending at `from` scores or later, and at
      no earlier index whose appearance would end there or later. */
  predicate FirstFrom(target: seq<nat>, from: nat, i: nat)
  {
    AppearsAt(target, i) && i + |target| >= from
      && NoneEndingWithin(target, from, i + |target| - 1)
  }

  /** The tail test made after each appended score. */
  predicate TailIs(recipes: seq<nat>, target: seq<nat>)
  {
    |recipes| >= |target| && recipes[|recipes| - |target|..] == target
  }

  /** A written board without the target is one without it on the
      scoreboard. */
  lemma NoneInMeaning(recipes: seq<nat>, target: seq<nat>, from: nat)
    requires Written(recipes) && NoneIn(recipes, target, from)
    ensures NoneEndingWithin(target, from, |recipes|)
  {
    forall j: nat | from <= j + |target| <= |recipes|
      ensures !AppearsAt(target, j)
    {
      WrittenAppears(recipes, target, j);
    }
  }

  /** The tail of a written board matched, and nothing before it did:
      the first appearance ending at `from` scores or later. */
  lemma TailFound(recipes: seq<nat>, target: seq<nat>, from: nat)
    requires Written(recipes) && |recipes| >= from && |recipes| >= 1
    requires TailIs(recipes, target) && NoneIn(recipes[..|recipes| - 1], target, from)
    ensures FirstFrom(target, from, |recipes| - |target|)
  {
    var i := |recipes| - |target|;
    WrittenAppears(recipes, target, i);
    forall j: nat | from <= j + |target| <= |recipes| - 1
      ensures !AppearsAt(target, j)
    {
      NotInPrefix(recipes, target, from, j);
    }
  }

  /** An appearance ending before the last score of a written board would
      be one on the board without that score. */
  lemma NotInPrefix(recipes: seq<nat>, target: seq<nat>, from: nat, j: nat)
    requires Written(recipes) && |recipes| >= 1
    requires NoneIn(recipes[..|recipes| - 1], target, from)
    requires from <= j + |target| <= |recipes| - 1
    ensures !AppearsAt(target, j)
  {
    WrittenAppears(recipes, target, j);
    var prefix := recipes[..|recipes| - 1];
    assert !Occurs(prefix, target, j);
    assert prefix[j..j + |target|] == recipes[j..j + |target|];
  }

  /** One score written down, and the tail of the board compared with the
      target: a board without the target before still lacks it unless
      the tail matches. */
  method WriteScore(recipes: seq<nat>, score: nat, target: seq<nat>, from: nat)
      returns (next: seq<nat>, found: bool)
    requires NoneIn(recipes, target, from)
    ensures next == recipes + [score]
    ensures found == TailIs(next, target)
    ensures !found ==> NoneIn(next, target, from)
  {
    next := recipes + [score];
    found := TailIs(next, target);
    if !found {
      forall j: nat | from <= j + |target| <= |next|
        ensures !Occurs(next, target, j)
      {
        if j + |target| < |next| {
          assert !Occurs(recipes, target, j);
          assert next[j..j + |target|] == recipes[j..j + |target|];
        } else {
          assert next[j..j + |target|] == next[|next| - |target|..];
        }
      }
    }
  }

  /** One round of `part_two` as written: each new score written down
      and the tail compared after it; the index of the match, or the next
      board when there was none. */
  method SearchRound(recipes: seq<nat>, elf1: nat, elf2: nat, target: seq<nat>)
      returns (next: seq<nat>, next1: nat, next2: nat, index: Option<nat>)
    requires Reached(Board(recipes, elf1, elf2)) && NoneIn(recipes, target, 3)
    ensures index.Some? ==> FirstFrom(target, 3, index.value)
    ensures index.None? ==> (Board(next, next1, next2) == Round(Board(recipes, elf1, elf2))
      && NoneIn(next, target, 3))
  {
    ghost var b := Board(recipes, elf1, elf2);
    var newRecipe := recipes[elf1] + recipes[elf2];
    var found: bool;
    var before := recipes;
    ghost var written := Round(b).recipes;
    assert written == recipes + NewRecipes(newRecipe);
    next, next1, next2, index := recipes, elf1, elf2, None;
    if newRecipe > 9 {
      assert written == recipes + [newRecipe / 10] + [newRecipe % 10];
      next, found := WriteScore(before, newRecipe / 10, target, 3);
      if found {
        index := Found(before, newRecipe / 10, b, target);
        return;
      }
      before := next;
      assert before == written[..|before|] && written[|before|] == newRecipe % 10;
      next, found := WriteScore(before, newRecipe % 10, target, 3);
      if found {
        index := Found(before, newRecipe % 10, b, target);
        return;
      }
    } else {
      next, found := WriteScore(before, newRecipe, target, 3);
      if found {
        index := Found(before, newRecipe, b, target);
        return;
      }
    }
    assert next == recipes + NewRecipes(newRecipe);
    next1, next2 := MoveElves(next, elf1, elf2, b);
  }

  /** The index `part_two` returns when the tail of the board written so
      far in the round played from `b` matched. */
  method Found(before: seq<nat>, score: nat, ghost b: Board, target: seq<nat>)
      returns (index: Option<nat>)
    requires Reached(b)
    requires |b.recipes| <= |before| < |Round(b).recipes|
    requires before == Round(b).recipes[..|before|] && score == Round(b).recipes[|before|]
    requires TailIs(before + [score], target) && NoneIn(before, target, 3)
    ensures index.Some? && FirstFrom(target, 3, index.value)
  {
    var recipes := before + [score];
    assert recipes == Round(b).recipes[..|recipes|];
    assert recipes[..|recipes| - 1] == before;
    WrittenMidRound(recipes, b);
    TailFound(recipes, target, 3);
    index := Some(|recipes| - |target|);
  }

  /** `part_two` as written: the tail is compared only after a score is
      appended, so the board of the two starting scores is never looked
      at and the search begins with boards of three scores. */
  method PartTwoAsWritten(recipesNbr: nat) returns (index: Option<nat>)
    ensures index.Some? ==> FirstFrom(DecimalDigits(recipesNbr), 3, index.value)
    ensures index.None? ==> NoneEndingWithin(DecimalDigits(recipesNbr), 3, Iterations + 2)
  {
    var elf1: nat, elf2: nat := 0, 1;
    var recipes: seq<nat> := [3, 7];
    var target := DecimalDigits(recipesNbr);
    for iteration := 0 to Iterations
      invariant Reached(Board(recipes, elf1, elf2)) && |recipes| >= iteration + 2
      invariant NoneIn(recipes, target, 3)
    {
      ghost var b := Board(recipes, elf1, elf2);
      recipes, elf1, elf2, index := SearchRound(recipes, elf1, elf2, target);
      if index.Some? {
        return;
      }
      NextRound(b, |recipes|);
    }
    WrittenMidRound(recipes, Board(recipes, elf1, elf2));
    NoneInMeaning(recipes, target, 3);
    index := None;
  }

  /** The scores 3 and 7 the board starts with are the first appearance
      of 37, which the search as written cannot return: every index it
      returns leaves at least three scores up to the end of the match. */
  lemma StartingScoresMissed()
    ensures DecimalDigits(37) == [3, 7]
    ensures AppearsAt([3, 7], 0)
    ensures 0 + |DecimalDigits(37)| < 3
  {
    GrowExtends(Initial(), 2);
    assert Scores(2) == [3, 7];
  }

  /** The two starting scores are written as the scoreboard has them. */
  lemma StartWritten()
    ensures Written([3]) && Written([3, 7])
  {
    GrowExtends(Initial(), 2);
    assert Scores(1) == [3, 7] && Scores(2) == [3, 7];
  }

  /** The first appearance of `target` on the scoreboard is at `i`. */
  predicate FirstAppearance(target: seq<nat>, i: nat)
  {
    AppearsAt(target, i) && forall j: nat :: j < i ==> !AppearsAt(target, j)
  }

  /** The tail compared after each of the two starting scores: the first
      appearance when it ends within them. */
  method SearchStart(target: seq<nat>) returns (index: Option<nat>)
    requires |target| >= 1
    ensures index.Some? ==> FirstAppearance(target, index.value)
    ensures index.None? ==> NoneEndingWithin(target, 0, 2)
  {
    StartWritten();
    var recipes;
    recipes, index := TryScore([], 3, target);
    if index.Some? {
      return;
    }
    recipes, index := TryScore(recipes, 7, target);
    if index.Some? {
      return;
    }
    NoneInMeaning(recipes, target, 0);
  }

  /** One of the two starting scores written and the tail compared: a
      match is the first appearance. */
  method TryScore(recipes: seq<nat>, score: nat, target: seq<nat>)
      returns (next: seq<nat>, index: Option<nat>)
    requires Written(recipes + [score]) && NoneIn(recipes, target, 0)
    ensures next == recipes + [score]
    ensures index.Some? ==> FirstAppearance(target, index.value)
    ensures index.None? ==> NoneIn(next, target, 0)
  {
    var found;
    next, found := WriteScore(recipes, score, target, 0);
    index := None;
    if found {
      assert next[..|next| - 1] == recipes;
      TailFound(next, target, 0);
      FirstFromStart(target, |next| - |target|);
      index := Some(|next| - |target|);
    }
  }

  /** First among all appearances ending anywhere: the first appearance. */
  lemma FirstFromStart(target: seq<nat>, i: nat)
    requires FirstFrom(target, 0, i)
    ensures FirstAppearance(target, i)
  {
    forall j: nat | j < i
      ensures !AppearsAt(target, j)
    {
      assert 0 <= j + |target| <= i + |target| - 1;
    }
  }

  /** No appearance within the starting scores, and a first one among
      those ending later: the first appearance of all. */
  lemma JoinSearches(target: seq<nat>, i: nat)
    requires NoneEndingWithin(target, 0, 2) && FirstFrom(target, 3, i)
    ensures FirstAppearance(target, i)
  {
  }

  /** `part_two` comparing the tail after each of the two starting scores
      as well: the index of the first appearance of the digits of
      `recipes_nbr`, or None when none ends within the scores of the first
      billion rounds. */
  method PartTwo(recipesNbr: nat) returns (index: Option<nat>)
    ensures index.Some? ==> FirstAppearance(DecimalDigits(recipesNbr), index.value)
    ensures index.None? ==> NoneEndingWithin(DecimalDigits(recipesNbr), 0, Iterations + 2)
  {
    var target := DecimalDigits(recipesNbr);
    index := SearchStart(target);
    if index.Some? {
      return;
    }
    index := PartTwoAsWritten(recipesNbr);
    if index.Some? {
      JoinSearches(target, index.value);
    }
  }
}
