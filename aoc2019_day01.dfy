/** Fuel for modules: a third of the mass, rounded down, minus two; the
    second part also fuels the fuel itself. */
module Aoc2019Day01 {
  import opened Common

  /** `mass // 3 - 2`.  Python's `//` floors; for the divisor 3 Dafny's
      Euclidean `/` is the same operation: the largest r with three times
      r + 2 at most the mass. */
  function Fuel(mass: int): (r: int)
    ensures 3 * (r + 2) <= mass < 3 * (r + 2) + 3
  {
    mass / 3 - 2
  }

  /** `part_one`: the sum of the fuel of every module. Each module's fuel
      is a third of its mass less two, rounded down by at most 2/3. */
  function PartOne(masses: seq<int>): (r: int)
    ensures 0 <= Sum(masses) - 3 * r - 6 * |masses| <= 2 * |masses|
  {
    if masses == [] then 0 else PartOne(masses[..|masses| - 1]) + Fuel(masses[|masses| - 1])
  }

  /** `get_mass_rec`: fuel for the mass, then fuel for that fuel, until the
      requirement drops to zero or below. */
  function GetMassRec(mass: int): (r: int)
    ensures r >= 0
    ensures r == 0 <==> Fuel(mass) <= 0
    ensures r >= Fuel(mass)
    decreases mass
  {
    var fuelRequired := Fuel(mass);
    if fuelRequired > 0 then GetMassRec(fuelRequired) + fuelRequired else 0
  }

  /** `part_two`: the sum of the recursive fuel of every module. It is
      never negative, and for modules of non-negative mass at most half
      their total mass. */
  function PartTwo(masses: seq<int>): (r: int)
    ensures r >= 0
    ensures (forall k :: 0 <= k < |masses| ==> masses[k] >= 0) ==> 2 * r <= Sum(masses)
  {
    if masses == [] then 0
    else
      var last := masses[|masses| - 1];
      assert last >= 0 ==> 2 * GetMassRec(last) <= last by {
        if last >= 0 {
          GetMassRecBound(last);
        }
      }
      PartTwo(masses[..|masses| - 1]) + GetMassRec(last)
  }

  /** The recursive fuel never exceeds half of a non-negative mass: each
      round needs less than a third of the previous one. */
  lemma {:induction false} GetMassRecBound(mass: int)
    requires mass >= 0
    ensures 2 * GetMassRec(mass) <= mass
    decreases mass
  {
    var f := Fuel(mass);
    if f > 0 {
      GetMassRecBound(f);
      assert 3 * f <= mass - 6;
    }
  }

  /** A heavier module never needs less recursive fuel. */
  lemma {:induction false} GetMassRecMonotone(a: int, b: int)
    requires a <= b
    ensures GetMassRec(a) <= GetMassRec(b)
    decreases b
  {
    assert Fuel(a) <= Fuel(b);
    if Fuel(a) > 0 {
      GetMassRecMonotone(Fuel(a), Fuel(b));
    }
  }

  /** Part two's answer is at least part one's. */
  lemma {:induction false} PartTwoAtLeastPartOne(masses: seq<int>)
    ensures PartTwo(masses) >= PartOne(masses)
  {
    if masses != [] {
      PartTwoAtLeastPartOne(masses[..|masses| - 1]);
    }
  }

  /** Both parts add up module by module. */
  lemma {:induction false} PartsSplit(a: seq<int>, b: seq<int>)
    ensures PartOne(a + b) == PartOne(a) + PartOne(b)
    ensures PartTwo(a + b) == PartTwo(a) + PartTwo(b)
    decreases |b|
  {
    if b == [] {
      assert a + b == a;
    } else {
      assert (a + b)[..|a + b| - 1] == a + b[..|b| - 1];
      PartsSplit(a, b[..|b| - 1]);
    }
  }
}
