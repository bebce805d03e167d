/** Plutonian pebbles (2024, day 11): on every blink each stone changes at
    once: 0 becomes 1, a stone with an even number of digits splits into
    its left and right halves, any other stone is multiplied by 2024.  The
    stones are kept as counts by value (a `HashMap<u64, u64>`), which is
    what a multiset is. */
module Aoc2024Day11 {
  import opened Common

  /** Decimal digits of a positive value: `checked_ilog10() + 1`. */
  function Digits(v: nat): (r: nat)
    ensures r >= 1
  {
    if v < 10 then 1 else 1 + Digits(v / 10)
  }

  /** A positive value with d digits lies in [10^(d-1), 10^d). */
  lemma {:induction false} DigitsBounds(v: nat)
    requires v > 0
    ensures Pow10(Digits(v) - 1) <= v < Pow10(Digits(v))
  {
    if v >= 10 {
      DigitsBounds(v / 10);
    }
  }

  predicate EvenDigits(v: nat)
  {
    Digits(v) % 2 == 0
  }

  /** The divisor `10u64.pow(num_digits / 2)` that separates the halves. */
  function Divisor(v: nat): (r: nat)
    ensures r >= 1
  {
    Pow10(Digits(v) / 2)
  }

  /** `stone_value / divisor`, the left half. */
  function Left(v: nat): nat
  {
    var d := Divisor(v);
    DivNonNegative(v, d);
    v / d
  }

  /** `stone_value % divisor`, the right half. */
  function Right(v: nat): nat
  {
    v % Divisor(v)
  }

  lemma DivNonNegative(v: nat, d: nat)
    requires d >= 1
    ensures v / d >= 0
  {
  }

  /** The stones one stone becomes on a blink, in order. */
  function Children(v: nat): seq<nat>
  {
    if v == 0 then [1]
    else if EvenDigits(v) then [Left(v), Right(v)]
    else [v * 2024]
  }

  lemma Pow10Add(a: nat, b: nat)
    ensures Pow10(a + b) == Pow10(a) * Pow10(b)
    decreases a
  {
    if a > 0 {
      Pow10Add(a - 1, b);
    }
  }

  /** An even-digit stone splits into a left half with exactly half the
      digits and a right half below the divisor, which put back together
      give the stone. */
  lemma MulMonotone(c: nat, a: int, b: int)
    requires a <= b
    ensures c * a <= c * b
  {
    assert c * b - c * a == c * (b - a);
  }

  lemma SplitHalves(v: nat)
    requires v > 0 && EvenDigits(v)
    ensures var h := Digits(v) / 2;
      v == Pow10(h) * Left(v) + Right(v) && Right(v) < Pow10(h)
      && Pow10(h - 1) <= Left(v) < Pow10(h)
  {
    var h := Digits(v) / 2;
    var p, l := Pow10(h), Pow10(h - 1);
    DigitsBounds(v);
    assert Digits(v) == h + h && Digits(v) - 1 == h + (h - 1);
    Pow10Add(h, h);
    Pow10Add(h, h - 1);
    assert Left(v) == v / p && Right(v) == v % p;
    DivModParts(v, p);
    HalvesBounds(v, p, l, Left(v), Right(v));
  }

  lemma DivModParts(v: int, d: int)
    requires d > 0
    ensures v == d * (v / d) + v % d && 0 <= v % d < d
  {
  }

  /** The quotient of a value in [l*p, p*p) by p lies in [l, p). */
  lemma HalvesBounds(v: int, p: int, l: int, q: int, r: int)
    requires p >= 1 && p * l <= v < p * p && v == p * q + r && 0 <= r < p
    ensures l <= q < p
  {
    if q >= p {
      MulMonotone(p, p, q);
    }
    if q < l {
      MulMonotone(p, q, l - 1);
    }
  }

  /** Each stone becomes one or two stones. */
  lemma ChildrenCount(v: nat)
    ensures 1 <= |Children(v)| <= 2
    ensures |Children(v)| == 2 <==> v != 0 && EvenDigits(v)
  {
  }

  /** The whole line after one blink: every stone replaced by its
      children, in place. */
  function BlinkLine(stones: seq<nat>): seq<nat>
  {
    if stones == [] then []
    else BlinkLine(stones[..|stones| - 1]) + Children(stones[|stones| - 1])
  }

  function BlinkLineTimes(n: nat, stones: seq<nat>): seq<nat>
  {
    if n == 0 then stones else BlinkLineTimes(n - 1, BlinkLine(stones))
  }

  /** A blink never lowers the number of stones. */
  lemma {:induction false} BlinkLineGrows(stones: seq<nat>)
    ensures |BlinkLine(stones)| >= |stones|
  {
    if stones != [] {
      BlinkLineGrows(stones[..|stones| - 1]);
      ChildrenCount(stones[|stones| - 1]);
    }
  }

  lemma {:induction false} BlinkLineTimesGrows(n: nat, stones: seq<nat>)
    ensures |BlinkLineTimes(n, stones)| >= |stones|
  {
    if n > 0 {
      BlinkLineGrows(stones);
      BlinkLineTimesGrows(n - 1, BlinkLine(stones));
    }
  }

  lemma {:induction false} BlinkLineAppend(a: seq<nat>, b: seq<nat>)
    ensures BlinkLine(a + b) == BlinkLine(a) + BlinkLine(b)
    decreases |b|
  {
    if b != [] {
      var init := b[..|b| - 1];
      assert (a + b)[..|a + b| - 1] == a + init;
      BlinkLineAppend(a, init);
    } else {
      assert a + b == a;
    }
  }

  /** Stones blink independently: the line after n blinks splits where
      the line does. */
  lemma {:induction false} BlinkLineTimesAppend(n: nat, a: seq<nat>, b: seq<nat>)
    ensures BlinkLineTimes(n, a + b) == BlinkLineTimes(n, a) + BlinkLineTimes(n, b)
  {
    if n > 0 {
      BlinkLineAppend(a, b);
      BlinkLineTimesAppend(n - 1, BlinkLine(a), BlinkLine(b));
    }
  }

  /** A collection of stones after one blink, counted by value. */
  ghost function Spawned(ms: multiset<nat>): multiset<nat>
    decreases |ms|
  {
    if ms == multiset{} then multiset{}
    else
      var v :| v in ms;
      multiset(Children(v)) + Spawned(ms - multiset{v})
  }

  /** Any stone may be blinked first. */
  lemma {:induction false} SpawnedRemove(ms: multiset<nat>, y: nat)
    requires y in ms
    ensures Spawned(ms) == multiset(Children(y)) + Spawned(ms - multiset{y})
    decreases |ms|
  {
    var v :| v in ms && Spawned(ms) == multiset(Children(v)) + Spawned(ms - multiset{v});
    if v != y {
      SpawnedRemove(ms - multiset{v}, y);
      SpawnedRemove(ms - multiset{y}, v);
      assert ms - multiset{v} - multiset{y} == ms - multiset{y} - multiset{v};
    }
  }

  /** Counting by value adds up over disjoint groups of stones. */
  lemma {:induction false} SpawnedAdd(a: multiset<nat>, b: multiset<nat>)
    ensures Spawned(a + b) == Spawned(a) + Spawned(b)
    decreases |a|
  {
    if a != multiset{} {
      var v :| v in a;
      var rest := a - multiset{v};
      var kids := multiset(Children(v));
      assert a + b - multiset{v} == rest + b;
      SpawnedRemove(a + b, v);
      SpawnedAdd(rest, b);
      assert Spawned(a + b) == kids + Spawned(rest) + Spawned(b);
      SpawnedRemove(a, v);
    } else {
      assert a + b == b;
    }
  }

  /** Counting by value agrees with blinking the line stone by stone. */
  lemma {:induction false} SpawnedIsLine(stones: seq<nat>)
    ensures Spawned(multiset(stones)) == multiset(BlinkLine(stones))
  {
    if stones != [] {
      var init, last := stones[..|stones| - 1], stones[|stones| - 1];
      assert stones == init + [last];
      SpawnedIsLine(init);
      SpawnedAdd(multiset(init), multiset{last});
      SpawnedRemove(multiset{last}, last);
      assert multiset{last} - multiset{last} == multiset{};
    }
  }

  /** `n` stones of value v, as a count map holding only that entry. */
  function Copies(v: nat, n: nat): multiset<nat>
  {
    multiset{}[v := n]
  }

  lemma CopiesStep(v: nat, n: nat)
    ensures Copies(v, n + 1) == Copies(v, n) + multiset{v}
  {
    var a, b := Copies(v, n + 1), Copies(v, n) + multiset{v};
    forall x ensures a[x] == b[x] {
    }
  }

  /** One more stone of value v adds its children once more. */
  lemma GrownStep(v: nat, n: nat)
    ensures Grown(v, n + 1) == Grown(v, n) + multiset(Children(v))
  {
    if v == 0 {
      CopiesStep(1, n);
    } else if EvenDigits(v) {
      CopiesStep(Left(v), n);
      CopiesStep(Right(v), n);
      assert multiset(Children(v)) == multiset{Left(v)} + multiset{Right(v)};
    } else {
      CopiesStep(v * 2024, n);
    }
  }

  /** `n` stones of the same value blink into n copies of its children. */
  lemma {:induction false} SpawnedCopies(v: nat, n: nat)
    ensures Spawned(Copies(v, n)) == Grown(v, n)
  {
    if n > 0 {
      CopiesStep(v, n - 1);
      SpawnedCopies(v, n - 1);
      SpawnedAdd(Copies(v, n - 1), multiset{v});
      SpawnedRemove(multiset{v}, v);
      assert multiset{v} - multiset{v} == multiset{};
      GrownStep(v, n - 1);
    } else {
      assert Copies(v, 0) == multiset{};
      assert Grown(v, 0) == multiset{};
    }
  }

  /** What `n` stones of value v add to `next_stones`. */
  function Grown(v: nat, n: nat): multiset<nat>
  {
    if v == 0 then Copies(1, n)
    else if EvenDigits(v) then Copies(Left(v), n) + Copies(Right(v), n)
    else Copies(v * 2024, n)
  }

  /** `*next_stones.entry(k).or_insert(0) += n`. */
  function AddCount(next: multiset<nat>, k: nat, n: nat): (r: multiset<nat>)
    ensures r == next + Copies(k, n)
  {
    next[k := next[k] + n]
  }

  /** `blink`: every stone value adds its count to the values it becomes.
      `next_stones` is cleared before each call, so it starts empty. */
  method Blink(stones: multiset<nat>) returns (next: multiset<nat>)
    ensures next == Spawned(stones)
  {
    next := multiset{};
    var remaining := stones;
    while remaining != multiset{}
      invariant Spawned(stones) == next + Spawned(remaining)
      decreases |remaining|
    {
      var v :| v in remaining;
      var n := remaining[v];
      SpawnedSplit(remaining, v);
      next := AddChildren(next, v, n);
      remaining := remaining[v := 0];
    }
    assert Spawned(remaining) == multiset{};
  }

  /** The stones of one value may be blinked first, all together. */
  lemma SpawnedSplit(ms: multiset<nat>, v: nat)
    ensures Spawned(ms) == Grown(v, ms[v]) + Spawned(ms[v := 0])
  {
    var rest := ms[v := 0];
    assert ms == rest + Copies(v, ms[v]);
    SpawnedAdd(rest, Copies(v, ms[v]));
    SpawnedCopies(v, ms[v]);
  }

  /** The body of the `blink` loop for `n` stones of value v. */
  method AddChildren(next: multiset<nat>, v: nat, n: nat) returns (r: multiset<nat>)
    ensures r == next + Grown(v, n)
  {
    if v == 0 {
      r := AddCount(next, 1, n);
    } else if Digits(v) % 2 == 0 {
      var divisor := Pow10(Digits(v) / 2);
      r := AddCount(next, v / divisor, n);
      r := AddCount(r, v % divisor, n);
    } else {
      r := AddCount(next, v * 2024, n);
    }
  }

  ghost function SpawnedTimes(n: nat, ms: multiset<nat>): multiset<nat>
  {
    if n == 0 then ms else SpawnedTimes(n - 1, Spawned(ms))
  }

  /** After n blinks the counts by value are those of the line blinked n
      times. */
  lemma {:induction false} SpawnedTimesIsLine(n: nat, stones: seq<nat>)
    ensures SpawnedTimes(n, multiset(stones)) == multiset(BlinkLineTimes(n, stones))
  {
    if n > 0 {
      SpawnedIsLine(stones);
      SpawnedTimesIsLine(n - 1, BlinkLine(stones));
    }
  }

  /** The stone count after `times` blinks from the given counts: the
      `for _ in 0..times` loop with the swap of the two maps. */
  method CountAfter(start: multiset<nat>, times: nat) returns (total: nat)
    ensures total == |SpawnedTimes(times, start)|
  {
    var stones := start;
    for i := 0 to times
      invariant SpawnedTimes(times, start) == SpawnedTimes(times - i, stones)
    {
      stones := Blink(stones);
    }
    total := |stones|;
  }

  /** `stones.iter().map(|v| (*v, 1u64)).collect()`: every distinct value
      with count 1. */
  function Distinct(stones: seq<nat>): multiset<nat>
  {
    multiset(Values(stones))
  }

  function Values(stones: seq<nat>): set<nat>
  {
    set v | v in stones
  }

  /** `part_one` as written: 25 blinks from the collected map. */
  method PartOne(stones: seq<nat>) returns (total: nat)
    ensures total == |SpawnedTimes(25, Distinct(stones))|
  {
    total := CountAfter(Distinct(stones), 25);
  }

  /** `part_two` as written: 75 blinks from the collected map. */
  method PartTwo(stones: seq<nat>) returns (total: nat)
    ensures total == |SpawnedTimes(75, Distinct(stones))|
  {
    total := CountAfter(Distinct(stones), 75);
  }

  /** As written, a stone value repeated in the line is counted once: the
      count of the line with a repeat equals that of the line without it. */
  lemma RepeatedStoneIgnored(n: nat, stones: seq<nat>, i: nat)
    requires i < |stones|
    ensures |SpawnedTimes(n, Distinct(stones + [stones[i]]))| == |SpawnedTimes(n, Distinct(stones))|
  {
    var a, b := Values(stones + [stones[i]]), Values(stones);
    forall x ensures x in a <==> x in b {
      if x in a {
        var j :| 0 <= j < |stones + [stones[i]]| && (stones + [stones[i]])[j] == x;
        if j == |stones| {
          assert stones[i] == x;
        } else {
          assert stones[j] == x;
        }
      }
    }
    assert a == b;
  }

  /** Counting every stone of the line, repeats included. */
  method CountStones(stones: seq<nat>, times: nat) returns (total: nat)
    ensures total == |BlinkLineTimes(times, stones)|
  {
    total := CountAfter(multiset(stones), times);
    SpawnedTimesIsLine(times, stones);
  }

  /** The corrected count adds up stone by stone, so a repeated stone
      counts again and the total never drops below the line's length. */
  lemma {:induction false} CountStonesAdds(n: nat, a: seq<nat>, b: seq<nat>)
    ensures |BlinkLineTimes(n, a + b)| == |BlinkLineTimes(n, a)| + |BlinkLineTimes(n, b)|
    ensures |BlinkLineTimes(n, b)| >= |b|
  {
    BlinkLineTimesAppend(n, a, b);
    BlinkLineTimesGrows(n, b);
  }
}
