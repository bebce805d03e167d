/** Marble game: marbles are placed in a circle (a deque whose last element
    is the current marble); a marble that is a multiple of 23 is kept and
    the marble seven places counter-clockwise is removed and scored too. */
module Aoc2018Day09 {
  import opened Common

  /** The circle, the scores by player, and the player about to play. */
  datatype Game = Game(marbles: seq<int>, scores: map<int, int>, currentPlayer: int)

  function Initial(): Game
  {
    Game([0], map[], 1)
  }

  /** One iteration of the loop of `compute_game`: the circle grows by the
      new marble, except at a multiple of 23, where it loses one. */
  function Play(g: Game, marble: int, players: nat): (r: Game)
    requires players > 0 && |g.marbles| > 0
    ensures 0 <= r.currentPlayer < players
    ensures |r.marbles| == |g.marbles| + (if marble % 23 == 0 then -1 else 1)
  {
    var next := (g.currentPlayer + 1) % players;
    if marble % 23 == 0 then
      var turned := RotateRight(g.marbles, 7);
      var removed := turned[|turned| - 1];
      var rest := turned[..|turned| - 1];
      var before := if g.currentPlayer in g.scores then g.scores[g.currentPlayer] else 0;
      Game(RotateRight(rest, -1), g.scores[g.currentPlayer := before + marble + removed], next)
    else
      Game(RotateRight(g.marbles, -1) + [marble], g.scores, next)
  }

  /** Circle size after the first `m` marbles. */
  function CircleSize(m: nat): int
  {
    1 + m - 2 * (m / 23)
  }

  lemma CircleSizeStep(m: nat)
    requires m > 0
    ensures CircleSize(m) == CircleSize(m - 1) + (if m % 23 == 0 then -1 else 1)
    ensures CircleSize(m) >= 1
  {
    var q, r := (m - 1) / 23, (m - 1) % 23;
    if r == 22 {
      ModUnique(m, 23, q + 1, 0);
    } else {
      ModUnique(m, 23, q, r + 1);
    }
  }

  /** No marble occurs twice. */
  predicate Distinct(s: seq<int>)
  {
    forall i, j :: 0 <= i < j < |s| ==> s[i] != s[j]
  }

  /** Two different positions of a distinct circle hold different
      marbles. */
  lemma DistinctAt(s: seq<int>, a: int, b: int)
    requires Distinct(s) && 0 <= a < |s| && 0 <= b < |s| && a != b
    ensures s[a] != s[b]
  {
    if b < a {
      assert s[b] != s[a];
    }
  }

  /** Every marble of the circle lies in [0, m]. */
  predicate Below(s: seq<int>, m: int)
  {
    forall i :: 0 <= i < |s| ==> 0 <= s[i] <= m
  }

  /** The game after marbles 1..m: the circle has 1 + m - 2 (m / 23)
      marbles. */
  function PlayAll(players: nat, m: nat): (g: Game)
    requires players > 0
    ensures |g.marbles| == CircleSize(m) >= 1
  {
    if m == 0 then Initial()
    else
      CircleSizeStep(m);
      Play(PlayAll(players, m - 1), m, players)
  }

  /** The circle holds distinct marbles, each at most `m`, and every
      recorded score is positive. */
  predicate Sound(g: Game, m: int)
  {
    Distinct(g.marbles) && Below(g.marbles, m) && forall k :: k in g.scores ==> g.scores[k] > 0
  }

  /** Every game reached is sound. */
  lemma {:induction false} PlayAllInvariant(players: nat, m: nat)
    requires players > 0
    ensures Sound(PlayAll(players, m), m)
  {
    if m > 0 {
      PlayAllInvariant(players, m - 1);
      PlayKeepsSound(PlayAll(players, m - 1), m, players);
    }
  }

  /** One turn keeps the game sound. */
  lemma PlayKeepsSound(g: Game, marble: int, players: nat)
    requires players > 0 && |g.marbles| > 0 && marble > 0 && Sound(g, marble - 1)
    ensures Sound(Play(g, marble, players), marble)
  {
    if marble % 23 == 0 {
      TurnKeepsDistinct(g, marble, players);
    } else {
      PlaceKeepsDistinct(g, marble, players);
    }
  }

  /** A value of the rotated circle was in the circle. */
  lemma RotatedIn(s: seq<int>, k: int, i: int)
    requires 0 <= i < |s|
    ensures 0 <= (i - k) % |s| < |s| && RotateRight(s, k)[i] == s[(i - k) % |s|]
  {
    RotateRightAt(s, k, i);
  }

  /** A marble that is not a multiple of 23 keeps the circle distinct. */
  lemma PlaceKeepsDistinct(g: Game, marble: int, players: nat)
    requires players > 0 && |g.marbles| > 0 && marble > 0 && marble % 23 != 0
    requires Sound(g, marble - 1)
    ensures Sound(Play(g, marble, players), marble)
  {
    var s := g.marbles;
    var t := RotateRight(s, -1);
    var u := t + [marble];
    assert u == Play(g, marble, players).marbles;
    forall i | 0 <= i < |t| ensures 0 <= t[i] < marble {
      RotatedIn(s, -1, i);
    }
    forall i, j | 0 <= i < j < |t| ensures t[i] != t[j] {
      RotatedIn(s, -1, i);
      RotatedIn(s, -1, j);
      DistinctMod(|s|, i, j);
    }
  }

  /** Where the i-th marble after a multiple of 23 was before it. */
  function TurnIndex(n: int, i: int): int
    requires n > 1
  {
    ((i + 1) % (n - 1) - 7) % n
  }

  /** After a multiple of 23 the circle keeps every marble except the one
      seven places counter-clockwise of the current one. */
  lemma TurnAt(s: seq<int>, i: int)
    requires |s| > 1 && 0 <= i < |s| - 1
    ensures var n := |s|;
      var u := RotateRight(RotateRight(s, 7)[..n - 1], -1);
      |u| == n - 1 && 0 <= TurnIndex(n, i) < n && u[i] == s[TurnIndex(n, i)] &&
      TurnIndex(n, i) != (n - 1 - 7) % n
  {
    var n := |s|;
    var rest := RotateRight(s, 7)[..n - 1];
    RotatedIn(rest, -1, i);
    var k := (i + 1) % (n - 1);
    RotatedIn(s, 7, k);
    DistinctMod7(n, k, n - 1);
  }

  /** A multiple of 23 keeps the circle distinct. */
  lemma TurnKeepsDistinct(g: Game, marble: int, players: nat)
    requires players > 0 && |g.marbles| > 0 && marble > 0 && marble % 23 == 0
    requires Sound(g, marble - 1)
    ensures Sound(Play(g, marble, players), marble)
  {
    var s := g.marbles;
    assert RotateRight(RotateRight(s, 7)[..|s| - 1], -1) == Play(g, marble, players).marbles;
    TurnDistinct(s, marble);
  }

  /** The circle after a multiple of 23, as a sequence. */
  lemma TurnDistinct(s: seq<int>, marble: int)
    requires |s| > 0 && Distinct(s) && Below(s, marble - 1)
    ensures var u := RotateRight(RotateRight(s, 7)[..|s| - 1], -1);
      Distinct(u) && Below(u, marble)
  {
    var n := |s|;
    var u := RotateRight(RotateRight(s, 7)[..n - 1], -1);
    forall i | 0 <= i < |u| ensures 0 <= u[i] <= marble {
      TurnAt(s, i);
    }
    forall i, j | 0 <= i < j < |u| ensures u[i] != u[j] {
      TurnAt(s, i);
      TurnAt(s, j);
      DistinctMod(n - 1, i, j);
      DistinctMod7(n, (i + 1) % (n - 1), (j + 1) % (n - 1));
      DistinctAt(s, TurnIndex(n, i), TurnIndex(n, j));
    }
  }

  /** Shifting two different indices by one, mod n, keeps them different. */
  lemma DistinctMod(n: int, i: int, j: int)
    requires 0 <= i < j < n
    ensures (i + 1) % n != (j + 1) % n
  {
    if j + 1 == n {
      ModUnique(j + 1, n, 1, 0);
      ModUnique(i + 1, n, 0, i + 1);
    } else {
      ModUnique(j + 1, n, 0, j + 1);
      ModUnique(i + 1, n, 0, i + 1);
    }
  }

  /** Two different positions of the circle, moved back by 7, stay
      different. */
  lemma DistinctMod7(n: int, i: int, j: int)
    requires n > 0 && 0 <= i < n && 0 <= j < n && i != j
    ensures (i - 7) % n != (j - 7) % n
  {
    var a, b := (i - 7) % n, (j - 7) % n;
    ModUnique(i - 7, n, (i - 7) / n, a);
    ModUnique(j - 7, n, (j - 7) / n, b);
    if a == b {
      assert (i - j) == n * ((i - 7) / n - (j - 7) / n);
      var d := (i - 7) / n - (j - 7) / n;
      if d > 0 { MulAtLeast(n, d); } else if d < 0 { MulAtLeast(n, -d); }
    }
  }

  /** Adding one commutes with taking the remainder. */
  lemma ModSucc(a: int, n: int)
    requires n > 0
    ensures ((a % n) + 1) % n == (a + 1) % n
  {
    var q, r := a / n, a % n;
    if r + 1 < n {
      ModUnique(r + 1, n, 0, r + 1);
      ModUnique(a + 1, n, q, r + 1);
    } else {
      ModUnique(r + 1, n, 1, 0);
      ModUnique(a + 1, n, q + 1, 0);
    }
  }

  /** Each turn passes to the next player, wrapping around. */
  lemma PlayNext(g: Game, marble: int, players: nat)
    requires players > 0 && |g.marbles| > 0
    ensures Play(g, marble, players).currentPlayer == (g.currentPlayer + 1) % players
  {
  }

  lemma PlayAllNext(players: nat, m: nat)
    requires players > 0 && m > 0
    ensures PlayAll(players, m).currentPlayer == (PlayAll(players, m - 1).currentPlayer + 1) % players
  {
    var g := PlayAll(players, m - 1);
    PlayAllStep(players, m, g);
    PlayNext(g, m, players);
  }

  /** After marble m, the player about to play is (1 + m) mod players. */
  lemma {:induction false} PlayerCycles(players: nat, m: nat)
    requires players > 0 && m > 0
    ensures PlayAll(players, m).currentPlayer == (1 + m) % players
  {
    PlayAllNext(players, m);
    if m > 1 {
      PlayerCycles(players, m - 1);
      ModSucc(m, players);
    }
  }

  /** A multiple of 23 scores itself plus the marble seven places
      counter-clockwise of the current one, which leaves the circle; the
      other players' scores do not change. */
  lemma TwentyThreeScores(g: Game, marble: int, players: nat)
    requires players > 0 && |g.marbles| > 0 && marble % 23 == 0
    requires Distinct(g.marbles)
    ensures var n := |g.marbles|;
      var taken := g.marbles[(n - 1 - 7) % n];
      var r := Play(g, marble, players);
      var before := if g.currentPlayer in g.scores then g.scores[g.currentPlayer] else 0;
      r.scores[g.currentPlayer] == before + marble + taken &&
      taken !in r.marbles &&
      forall k :: k != g.currentPlayer ==> (k in r.scores <==> k in g.scores) && (k in g.scores ==> r.scores[k] == g.scores[k])
  {
    var s := g.marbles;
    var n := |s|;
    var u := RotateRight(RotateRight(s, 7)[..n - 1], -1);
    RotatedIn(s, 7, n - 1);
    var taken := s[(n - 1 - 7) % n];
    forall i | 0 <= i < |u| ensures u[i] != taken {
      TurnAt(s, i);
    }
  }

  /** The game after marble m is the game after marble m - 1, played
      once more. */
  lemma PlayAllStep(players: nat, m: nat, g: Game)
    requires players > 0 && m > 0 && g == PlayAll(players, m - 1)
    ensures Play(g, m, players) == PlayAll(players, m)
  {
  }

  /** The body of the loop of `compute_game`, on the deque, the score
      dictionary and the current player. */
  method PlaceMarble(marbles: seq<int>, scores: map<int, int>, currentPlayer: int, marble: int, players: nat)
    returns (marbles': seq<int>, scores': map<int, int>, currentPlayer': int)
    requires players > 0 && |marbles| > 0
    ensures var r := Play(Game(marbles, scores, currentPlayer), marble, players);
      marbles' == r.marbles && scores' == r.scores && currentPlayer' == r.currentPlayer
  {
    marbles', scores' := marbles, scores;
    if marble % 23 == 0 {
      marbles' := RotateRight(marbles', 7);
      var removed := marbles'[|marbles'| - 1];
      marbles' := marbles'[..|marbles'| - 1];
      var before := if currentPlayer in scores' then scores'[currentPlayer] else 0;
      scores' := scores'[currentPlayer := before + marble + removed];
      marbles' := RotateRight(marbles', -1);
    } else {
      marbles' := RotateRight(marbles', -1);
      marbles' := marbles' + [marble];
    }
    currentPlayer' := (currentPlayer + 1) % players;
  }

  /** `compute_game`: None where the source raises (ZeroDivisionError for
      no players, ValueError for `max` of no scores). */
  method ComputeGame(players: nat, lastMarble: int) returns (r: Option<int>)
    ensures players == 0 ==> r.None?
    ensures players > 0 && lastMarble < 0 ==> r.None?
    ensures players > 0 && lastMarble >= 0 ==>
      var scores := PlayAll(players, lastMarble).scores;
      (r.None? <==> scores == map[]) &&
      (r.Some? ==> r.value in scores.Values && forall k :: k in scores ==> scores[k] <= r.value)
  {
    if players == 0 || lastMarble < 0 {
      return None;
    }
    var scores := PlayMarbles(players, lastMarble);
    r := MaxScore(scores);
  }

  /** The loop of `compute_game`: marbles 1..lastMarble in turn, from the
      initial circle; yields the score dictionary. */
  method PlayMarbles(players: nat, lastMarble: nat) returns (scores: map<int, int>)
    requires players > 0
    ensures scores == PlayAll(players, lastMarble).scores
  {
    var currentPlayer := 1;
    scores := map[];
    var marbles: seq<int> := [0];
    var marble := 1;
    while marble <= lastMarble
      invariant 1 <= marble <= lastMarble + 1
      invariant marbles == PlayAll(players, marble - 1).marbles
      invariant scores == PlayAll(players, marble - 1).scores
      invariant currentPlayer == PlayAll(players, marble - 1).currentPlayer
    {
      ghost var g := PlayAll(players, marble - 1);
      marbles, scores, currentPlayer := PlaceMarble(marbles, scores, currentPlayer, marble, players);
      PlayAllStep(players, marble, g);
      marble := marble + 1;
    }
  }

  /** `max(scores.values())`; None for an empty dictionary. */
  method MaxScore(scores: map<int, int>) returns (r: Option<int>)
    ensures r.None? <==> scores == map[]
    ensures r.Some? ==> r.value in scores.Values && forall k :: k in scores ==> scores[k] <= r.value
  {
    var keys := scores.Keys;
    r := None;
    while keys != {}
      invariant keys <= scores.Keys
      invariant r.None? <==> keys == scores.Keys
      invariant r.Some? ==> r.value in scores.Values
      invariant forall k :: k in scores && k !in keys ==> r.Some? && scores[k] <= r.value
      decreases |keys|
    {
      HasElement(keys);
      var k :| k in keys;
      if r.None? || scores[k] > r.value {
        r := Some(scores[k]);
      }
      keys := keys - {k};
    }
    if r.None? {
      assert scores.Keys == {};
    }
  }

  /** `part_two`: the same game with a hundred times as many marbles. */
  method PartTwo(players: nat, lastMarble: int) returns (r: Option<int>)
    ensures players == 0 ==> r.None?
    ensures players > 0 && lastMarble < 0 ==> r.None?
    ensures players > 0 && lastMarble >= 0 ==>
      var scores := PlayAll(players, lastMarble * 100).scores;
      (r.None? <==> scores == map[]) &&
      (r.Some? ==> r.value in scores.Values && forall k :: k in scores ==> scores[k] <= r.value)
  {
    r := ComputeGame(players, lastMarble * 100);
  }
}
