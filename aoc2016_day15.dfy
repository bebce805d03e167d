/** Timing is everything (2016, day 15): a capsule dropped at time `delay`
    reaches disc number `id` after `id` seconds; every disc turns one
    position per second, and the capsule passes only when each disc it
    reaches shows position 0.  The answer is the least delay, tried up to
    one billion. */
module Aoc2016Day15 {
  import opened Common

  /** `range(1_000_000_000)`: the delays tried before giving up. */
  const Attempts: nat := 1_000_000_000

  /** A disc as parsed: its number, its number of positions and where it
      is at time 0. */
  datatype DiscState = DiscState(discId: nat, positions: nat, position: int)

  /** Every disc can turn: `% disc.positions` raises ZeroDivisionError on a
      disc with no positions. */
  predicate Turnable(ds: seq<DiscState>)
  {
    forall k :: 0 <= k < |ds| ==> ds[k].positions > 0
  }

  /** The position disc d shows when a capsule dropped after `delay`
      seconds reaches it. */
  function PositionAt(d: DiscState, delay: nat): (p: int)
    requires d.positions > 0
    ensures 0 <= p < d.positions
  {
    (d.position + d.discId + delay) % d.positions
  }

  /** A capsule dropped after `delay` seconds falls through every disc. */
  predicate Aligned(ds: seq<DiscState>, delay: nat)
    requires Turnable(ds)
  {
    forall k :: 0 <= k < |ds| ==> PositionAt(ds[k], delay) == 0
  }

  /** The least delay from `from` on (and below the attempt limit) that
      falls through, or None. */
  function FirstAlignment(ds: seq<DiscState>, from: nat): (r: Option<nat>)
    requires Turnable(ds)
    ensures r.Some? ==> from <= r.value < Attempts && Aligned(ds, r.value)
    ensures r.Some? ==> forall t :: from <= t < r.value ==> !Aligned(ds, t)
    ensures r.None? ==> forall t :: from <= t < Attempts ==> !Aligned(ds, t)
    decreases Attempts - from
  {
    if from >= Attempts then None
    else if Aligned(ds, from) then Some(from)
    else FirstAlignment(ds, from + 1)
  }

  /** What `solve_day` returns: None when a disc has no positions or no
      delay below the limit works. */
  function Solve(ds: seq<DiscState>): Option<nat>
  {
    if Turnable(ds) then FirstAlignment(ds, 0) else None
  }

  /** One more second turns a disc by one position, wrapping around. */
  lemma PositionStep(d: DiscState, delay: nat)
    requires d.positions > 0
    ensures PositionAt(d, delay + 1) == (PositionAt(d, delay) + 1) % d.positions
  {
    var n, x := d.positions, d.position + d.discId + delay;
    assert x == n * (x / n) + x % n;
    ModPeriod(x % n + 1, n, x / n);
  }

  /** The product of the disc sizes: after that many seconds every disc is
      back where it was. */
  function Product(ds: seq<DiscState>): (p: int)
    requires Turnable(ds)
    ensures p >= 1
  {
    if ds == [] then 1
    else
      MulAtLeast(Product(ds[..|ds| - 1]), ds[|ds| - 1].positions);
      Product(ds[..|ds| - 1]) * ds[|ds| - 1].positions
  }

  /** Each disc size divides the product. */
  lemma {:induction false} ProductFactor(ds: seq<DiscState>, k: nat) returns (q: int)
    requires Turnable(ds) && k < |ds|
    ensures Product(ds) == ds[k].positions * q
  {
    var init, last := ds[..|ds| - 1], ds[|ds| - 1];
    if k == |ds| - 1 {
      q := Product(init);
    } else {
      var q' := ProductFactor(init, k);
      q := q' * last.positions;
      assert Product(ds) == (ds[k].positions * q') * last.positions;
    }
  }

  /** A disc whose size divides p shows the same position after t and
      after t mod p seconds. */
  lemma PositionModPeriod(d: DiscState, t: nat, p: int, q: int)
    requires d.positions > 0 && p >= 1 && p == d.positions * q
    ensures PositionAt(d, t) == PositionAt(d, t % p)
  {
    var x, m := d.position + d.discId + t % p, t / p;
    assert t == p * m + t % p;
    assert p * m == d.positions * (q * m);
    ModPeriod(x, d.positions, q * m);
  }

  /** Whether a delay works depends only on the delay modulo the product
      of the disc sizes. */
  lemma AlignedModProduct(ds: seq<DiscState>, t: nat)
    requires Turnable(ds)
    ensures Aligned(ds, t) <==> Aligned(ds, t % Product(ds))
  {
    var p := Product(ds);
    forall k | 0 <= k < |ds| ensures PositionAt(ds[k], t) == PositionAt(ds[k], t % p) {
      var q := ProductFactor(ds, k);
      PositionModPeriod(ds[k], t, p, q);
    }
  }

  /** When the disc sizes multiply to at most the limit, giving up means
      that no delay at all lets the capsule through. */
  lemma NoneMeansNever(ds: seq<DiscState>, t: nat)
    requires Turnable(ds) && Product(ds) <= Attempts
    requires Solve(ds).None?
    ensures !Aligned(ds, t)
  {
    AlignedModProduct(ds, t);
  }

  /** Part two adds a disc of 11 positions at position 0, numbered after
      the others. */
  function WithExtraDisc(ds: seq<DiscState>): (r: seq<DiscState>)
    ensures |r| == |ds| + 1 && r[..|ds|] == ds
  {
    ds + [DiscState(|ds| + 1, 11, 0)]
  }

  /** A delay that works with the extra disc works without it, so part
      one's answer is found and is no larger than part two's. */
  lemma PartOneBeforePartTwo(ds: seq<DiscState>)
    requires Solve(WithExtraDisc(ds)).Some?
    ensures Solve(ds).Some? && Solve(ds).value <= Solve(WithExtraDisc(ds)).value
  {
    var es := WithExtraDisc(ds);
    assert Turnable(ds) by {
      forall k | 0 <= k < |ds| ensures ds[k].positions > 0 {
        assert es[k] == ds[k];
      }
    }
    var t := Solve(es).value;
    assert Aligned(ds, t) by {
      forall k | 0 <= k < |ds| ensures PositionAt(ds[k], t) == 0 {
        assert es[k] == ds[k];
      }
    }
  }

  class Disc {
    const discId: nat
    const positions: nat
    var currentPosition: int

    constructor (discId: nat, positions: nat, currentPosition: nat)
      ensures this.discId == discId && this.positions == positions
      ensures this.currentPosition == currentPosition
    {
      this.discId := discId;
      this.positions := positions;
      this.currentPosition := currentPosition;
    }

    function State(): DiscState
      reads this
    {
      DiscState(discId, positions, currentPosition)
    }
  }

  predicate Distinct(discs: seq<Disc>)
  {
    forall i, j :: 0 <= i < j < |discs| ==> discs[i] != discs[j]
  }

  /** The discs' current states. */
  function States(discs: seq<Disc>): (r: seq<DiscState>)
    reads set d | d in discs
    ensures |r| == |discs| && forall k :: 0 <= k < |discs| ==> r[k] == discs[k].State()
  {
    if discs == [] then [] else States(discs[..|discs| - 1]) + [discs[|discs| - 1].State()]
  }

  /** `all(disc.current_position == 0 for disc in discs)`. */
  predicate AllAtZero(discs: seq<Disc>)
    reads set d | d in discs
  {
    forall k :: 0 <= k < |discs| ==> discs[k].currentPosition == 0
  }

  /** `solve_day`: move every disc on by its number, then try the delays
      one by one, turning every disc by one after each failure.  On
      success or after the last attempt each disc shows where the capsule
      would meet it. */
  method SolveDay(discs: seq<Disc>) returns (r: Option<nat>)
    requires Distinct(discs)
    modifies set d | d in discs
    ensures r == Solve(old(States(discs)))
    ensures Turnable(old(States(discs))) ==> forall k :: 0 <= k < |discs| ==>
      discs[k].currentPosition == PositionAt(old(States(discs))[k], if r.Some? then r.value else Attempts)
  {
    ghost var init := States(discs);
    var turnable := MoveByNumbers(discs, init);
    if !turnable {
      return None;
    }
    r := TryDelays(discs, init);
  }

  /** The first loop of `solve_day`: every disc moves on by its number,
      until a disc without positions makes `%` raise. */
  method MoveByNumbers(discs: seq<Disc>, ghost init: seq<DiscState>) returns (turnable: bool)
    requires Distinct(discs) && init == States(discs)
    modifies set d | d in discs
    ensures turnable <==> Turnable(init)
    ensures turnable ==> forall j :: 0 <= j < |discs| ==> discs[j].currentPosition == PositionAt(init[j], 0)
  {
    for k := 0 to |discs|
      invariant forall j :: 0 <= j < k ==> init[j].positions > 0
      invariant forall j :: 0 <= j < |discs| ==>
        discs[j].currentPosition == if j < k then PositionAt(init[j], 0) else init[j].position
    {
      var disc := discs[k];
      if disc.positions == 0 {
        return false;
      }
      disc.currentPosition := (disc.currentPosition + disc.discId) % disc.positions;
    }
    return true;
  }

  /** The second loop of `solve_day`: the delays in order, the discs
      turning by one after each failure, until all show 0. */
  method TryDelays(discs: seq<Disc>, ghost init: seq<DiscState>) returns (r: Option<nat>)
    requires Distinct(discs) && |init| == |discs| && Turnable(init)
    requires forall j :: 0 <= j < |discs| ==> discs[j].discId == init[j].discId && discs[j].positions == init[j].positions
    requires forall j :: 0 <= j < |discs| ==> discs[j].currentPosition == PositionAt(init[j], 0)
    modifies set d | d in discs
    ensures r == FirstAlignment(init, 0)
    ensures forall k :: 0 <= k < |discs| ==>
      discs[k].currentPosition == PositionAt(init[k], if r.Some? then r.value else Attempts)
  {
    for delay := 0 to Attempts
      invariant forall j :: 0 <= j < |discs| ==> discs[j].currentPosition == PositionAt(init[j], delay)
      invariant FirstAlignment(init, delay) == FirstAlignment(init, 0)
    {
      AtZeroIffAligned(discs, init, delay);
      if AllAtZero(discs) {
        return Some(delay);
      }
      FirstAlignmentSkips(init, delay);
      TurnAll(discs, init, delay);
    }
    return None;
  }

  /** The discs all show 0 exactly when the delay lets the capsule
      through. */
  lemma AtZeroIffAligned(discs: seq<Disc>, init: seq<DiscState>, delay: nat)
    requires |init| == |discs| && Turnable(init)
    requires forall j :: 0 <= j < |discs| ==> discs[j].currentPosition == PositionAt(init[j], delay)
    ensures AllAtZero(discs) <==> Aligned(init, delay)
  {
  }

  /** A delay that fails is skipped by the search. */
  lemma FirstAlignmentSkips(ds: seq<DiscState>, delay: nat)
    requires Turnable(ds) && delay < Attempts && !Aligned(ds, delay)
    ensures FirstAlignment(ds, delay + 1) == FirstAlignment(ds, delay)
  {
  }

  /** The inner loop of `solve_day`: every disc turns by one position. */
  method TurnAll(discs: seq<Disc>, ghost init: seq<DiscState>, ghost delay: nat)
    requires Distinct(discs) && |init| == |discs| && Turnable(init)
    requires forall j :: 0 <= j < |discs| ==> discs[j].discId == init[j].discId && discs[j].positions == init[j].positions
    requires forall j :: 0 <= j < |discs| ==> discs[j].currentPosition == PositionAt(init[j], delay)
    modifies set d | d in discs
    ensures forall j :: 0 <= j < |discs| ==> discs[j].currentPosition == PositionAt(init[j], delay + 1)
  {
    for k := 0 to |discs|
      invariant forall j :: 0 <= j < |discs| ==>
        discs[j].currentPosition == PositionAt(init[j], if j < k then delay + 1 else delay)
    {
      var disc := discs[k];
      PositionStep(init[k], delay);
      disc.currentPosition := (disc.currentPosition + 1) % disc.positions;
    }
  }
}
