/** Balance Bots (2016, day 10): bots holding two microchips hand the lower
    one and the higher one on to other bots or to output bins.  Part one
    finds the bot that compares two given chips; part two multiplies the
    first chips of output bins 0, 1 and 2 once all the passing is done. */
module Aoc2016Day10 {
  import opened Common

  // ---------------------------------------------------------------------
  // Names and holders

  /** The first word of a name, `bot` or `output`. */
  datatype Prefix = BotPrefix | OutputPrefix

  /** A key of the dictionary, such as `bot 17` or `output 0`. */
  datatype Name = Name(prefix: Prefix, number: nat)

  /** `BotType`: whether a holder acts on its chips.  The parser makes
      every name that is given a chip or a rule a `Bot`, outputs
      included. */
  datatype BotType = Bot | Output

  /** `Behavior`: where the low and the high chip go. */
  datatype Behavior = Behavior(lowerTo: Name, higherTo: Name)

  /** The `Bot` dataclass: the chips held, the name it was parsed under, its
      rule and its type. */
  datatype Holder = Holder(values: seq<int>, id: Option<Name>, behavior: Option<Behavior>, botType: BotType)

  /** What the `defaultdict` creates for a name it has not seen:
      `Bot(list())`, an output without chips. */
  const Fresh := Holder([], None, None, Output)

  /** `bots[n]` read without changing anything. */
  function Get(holders: map<Name, Holder>, n: Name): Holder
  {
    if n in holders then holders[n] else Fresh
  }

  /** A holder that goes into the work queue: a bot with exactly two
      chips. */
  predicate Ready(h: Holder)
  {
    h.botType == Bot && |h.values| == 2
  }

  predicate DistinctNames(keys: seq<Name>)
  {
    forall i, j :: 0 <= i < j < |keys| ==> keys[i] != keys[j]
  }

  /** The dictionary as a map from names to holders together with the
      order in which its keys were inserted, which is the order it is
      iterated in. */
  ghost predicate Valid(keys: seq<Name>, holders: map<Name, Holder>)
  {
    DistinctNames(keys) && forall n :: n in holders <==> n in keys
  }

  /** `bots[n]` on the `defaultdict`: a name not seen before is added at
      the end, holding nothing. */
  function Touch(keys: seq<Name>, holders: map<Name, Holder>, n: Name): (seq<Name>, map<Name, Holder>)
  {
    if n in holders then (keys, holders)
    else (keys + [n], holders[n := Fresh])
  }

  /** A lookup leaves every holder as it was, adds n if it was missing, and
      keeps the keys and the map in step. */
  lemma TouchMeaning(keys: seq<Name>, holders: map<Name, Holder>, n: Name)
    ensures var r := Touch(keys, holders, n);
      n in r.1 && (forall m :: m in holders ==> m in r.1) && (forall m :: Get(r.1, m) == Get(holders, m))
    ensures Valid(keys, holders) ==> Valid(Touch(keys, holders, n).0, Touch(keys, holders, n).1)
  {
  }

  // ---------------------------------------------------------------------
  // Sorting chips

  predicate Ascending(s: seq<int>)
  {
    forall i, j :: 0 <= i < j < |s| ==> s[i] <= s[j]
  }

  function InsertValue(x: int, s: seq<int>): (r: seq<int>)
    ensures |r| == |s| + 1
  {
    if s == [] || x <= s[0] then [x] + s
    else
      assert s == [s[0]] + s[1..];
      [s[0]] + InsertValue(x, s[1..])
  }

  /** `sorted(values)`. */
  function SortValues(s: seq<int>): (r: seq<int>)
    ensures |r| == |s|
  {
    if s == [] then []
    else
      assert s == [s[0]] + s[1..];
      InsertValue(s[0], SortValues(s[1..]))
  }

  lemma {:induction false} InsertValueChips(x: int, s: seq<int>)
    ensures multiset(InsertValue(x, s)) == multiset(s) + multiset{x}
  {
    if s != [] && x > s[0] {
      InsertValueChips(x, s[1..]);
      assert s == [s[0]] + s[1..];
    }
  }

  /** Inserting a chip no lower than a bound into chips no lower than it
      gives chips no lower than it. */
  lemma {:induction false} InsertValueAbove(x: int, s: seq<int>, bound: int)
    requires bound <= x && forall k :: 0 <= k < |s| ==> bound <= s[k]
    ensures forall k :: 0 <= k < |InsertValue(x, s)| ==> bound <= InsertValue(x, s)[k]
  {
    if s != [] && x > s[0] {
      InsertValueAbove(x, s[1..], bound);
    }
  }

  lemma {:induction false} InsertValueAscending(x: int, s: seq<int>)
    requires Ascending(s)
    ensures Ascending(InsertValue(x, s))
  {
    if s != [] && x > s[0] {
      InsertValueAscending(x, s[1..]);
      InsertValueAbove(x, s[1..], s[0]);
    }
  }

  /** The sorted chips are the same chips, in ascending order. */
  lemma {:induction false} SortValuesMeaning(s: seq<int>)
    ensures Ascending(SortValues(s)) && multiset(SortValues(s)) == multiset(s)
  {
    if s != [] {
      SortValuesMeaning(s[1..]);
      InsertValueAscending(s[0], SortValues(s[1..]));
      InsertValueChips(s[0], SortValues(s[1..]));
      assert s == [s[0]] + s[1..];
    }
  }

  /** Two chips sort into the lower, then the higher. */
  lemma SortPair(s: seq<int>)
    requires |s| == 2
    ensures SortValues(s) == [Min(s[0], s[1]), Max(s[0], s[1])]
  {
    assert s == [s[0], s[1]];
    assert s[1..] == [s[1]];
    assert SortValues(s[1..]) == [s[1]];
    if s[0] > s[1] {
      assert [s[1]][1..] == [];
      assert InsertValue(s[0], [s[1]]) == [s[1]] + InsertValue(s[0], []);
    }
  }

  // ---------------------------------------------------------------------
  // One bot at work

  /** The dictionary and the work queue of `part_one`. */
  datatype Machine = Machine(keys: seq<Name>, holders: map<Name, Holder>, queue: seq<Name>)

  /** One chip more for the holder. */
  function Append(h: Holder, v: int): Holder
  {
    h.(values := h.values + [v])
  }

  /** Lines 39-42: both targets looked up, then the low chip and the high
      chip handed over. */
  function HandOver(keys: seq<Name>, holders: map<Name, Holder>, b: Behavior, lo: int, hi: int)
      : (seq<Name>, map<Name, Holder>)
  {
    var t2 := Touch(keys, holders, b.lowerTo);
    var t3 := Touch(t2.0, t2.1, b.higherTo);
    var h4 := t3.1[b.lowerTo := Append(Get(t3.1, b.lowerTo), lo)];
    (t3.0, h4[b.higherTo := Append(Get(h4, b.higherTo), hi)])
  }

  /** Lines 43-46: the targets that are now bots with two chips, low target
      first. */
  function Queued(holders: map<Name, Holder>, b: Behavior): seq<Name>
  {
    (if Ready(Get(holders, b.lowerTo)) then [b.lowerTo] else []) +
    (if Ready(Get(holders, b.higherTo)) then [b.higherTo] else [])
  }

  /** Lines 37-46 of `part_one` for the bot n, just taken off the queue:
      the two chips sorted, the bot emptied, the chips handed over and the
      targets queued.  The flag is false where the source raises: a bot
      without exactly two chips cannot be unpacked, and a bot without a
      rule fails once it has been emptied. */
  function Process(m: Machine, n: Name): (Machine, bool)
  {
    var h := Get(m.holders, n);
    if |h.values| != 2 then (m, false)
    else
      var h1 := m.holders[n := h.(values := [])];
      if h.behavior.None? then (m.(holders := h1), false)
      else
        var b := h.behavior.value;
        var r := HandOver(m.keys, h1, b, SortValues(h.values)[0], SortValues(h.values)[1]);
        (Machine(r.0, r.1, m.queue + Queued(r.1, b)), true)
  }

  /** The chips of every holder after a hand-over. */
  lemma HandOverValues(keys: seq<Name>, holders: map<Name, Holder>, b: Behavior, lo: int, hi: int)
    ensures forall t :: (Get(HandOver(keys, holders, b, lo, hi).1, t).values ==
      Get(holders, t).values + (if t == b.lowerTo then [lo] else []) + (if t == b.higherTo then [hi] else []))
  {
  }

  /** A bot with two chips hands the lower to its low target and the higher
      to its high target and keeps nothing, whichever of the three names
      coincide; no other holder changes. */
  lemma ProcessSends(m: Machine, n: Name)
    requires Process(m, n).1
    ensures Get(m.holders, n).behavior.Some? && |Get(m.holders, n).values| == 2
    ensures var h := Get(m.holders, n);
      var b := h.behavior.value;
      var lo := Min(h.values[0], h.values[1]);
      var hi := Max(h.values[0], h.values[1]);
      forall t :: Get(Process(m, n).0.holders, t).values ==
        (if t == n then [] else Get(m.holders, t).values) +
        (if t == b.lowerTo then [lo] else []) + (if t == b.higherTo then [hi] else [])
  {
    var h := Get(m.holders, n);
    SortPair(h.values);
    HandOverValues(m.keys, m.holders[n := h.(values := [])], h.behavior.value, SortValues(h.values)[0], SortValues(h.values)[1]);
  }

  /** Only bots with exactly two chips are queued: the queue grows by the
      targets that are such bots once the chips have been handed over, and
      by nothing else. */
  lemma ProcessQueues(m: Machine, n: Name)
    requires Process(m, n).1
    ensures var r := Process(m, n).0;
      var b := Get(m.holders, n).behavior.value;
      |m.queue| <= |r.queue| && r.queue[..|m.queue|] == m.queue &&
      (forall k :: |m.queue| <= k < |r.queue| ==>
        Ready(Get(r.holders, r.queue[k])) && r.queue[k] in {b.lowerTo, b.higherTo}) &&
      (forall t :: t in {b.lowerTo, b.higherTo} && Ready(Get(r.holders, t)) ==> t in r.queue[|m.queue|..])
  {
    var r := Process(m, n).0;
    var b := Get(m.holders, n).behavior.value;
    assert r.queue == m.queue + Queued(r.holders, b);
    assert r.queue[|m.queue|..] == Queued(r.holders, b);
  }

  /** All chips held, counted with repetition, following the order of the
      keys. */
  function Chips(keys: seq<Name>, holders: map<Name, Holder>): multiset<int>
  {
    if keys == [] then multiset{}
    else Chips(keys[..|keys| - 1], holders) + multiset(Get(holders, keys[|keys| - 1]).values)
  }

  /** Replacing the holder of a name that is not a key changes nothing. */
  lemma {:induction false} ChipsElsewhere(keys: seq<Name>, holders: map<Name, Holder>, t: Name, h: Holder)
    requires t !in keys
    ensures Chips(keys, holders[t := h]) == Chips(keys, holders)
  {
    if keys != [] {
      ChipsElsewhere(keys[..|keys| - 1], holders, t, h);
    }
  }

  lemma UnionRegroup(a: multiset<int>, b: multiset<int>, c: multiset<int>)
    ensures a + (b + c) == (a + b) + c && (a + b) + c == (a + c) + b
  {
  }

  /** One chip more for the holder of a key is one chip more in all. */
  lemma {:induction false} ChipsAppend(keys: seq<Name>, holders: map<Name, Holder>, t: Name, v: int)
    requires DistinctNames(keys) && t in keys
    ensures Chips(keys, holders[t := Append(Get(holders, t), v)]) == Chips(keys, holders) + multiset{v}
  {
    var init := keys[..|keys| - 1];
    var last := keys[|keys| - 1];
    var upd := holders[t := Append(Get(holders, t), v)];
    var before := multiset(Get(holders, last).values);
    assert Chips(keys, upd) == Chips(init, upd) + multiset(Get(upd, last).values);
    assert Chips(keys, holders) == Chips(init, holders) + before;
    if t == last {
      assert Chips(init, upd) == Chips(init, holders) by {
        assert t !in init;
        ChipsElsewhere(init, holders, t, Append(Get(holders, t), v));
      }
      assert multiset(Get(upd, last).values) == before + multiset{v} by {
        assert Get(upd, last).values == Get(holders, last).values + [v];
      }
      UnionRegroup(Chips(init, holders), before, multiset{v});
    } else {
      assert Chips(init, upd) == Chips(init, holders) + multiset{v} by {
        assert DistinctNames(init) && t in init;
        ChipsAppend(init, holders, t, v);
      }
      assert Get(upd, last) == Get(holders, last);
      UnionRegroup(Chips(init, holders), multiset{v}, before);
    }
  }

  /** Emptying the holder of a key takes away exactly its chips. */
  lemma {:induction false} ChipsClear(keys: seq<Name>, holders: map<Name, Holder>, t: Name)
    requires DistinctNames(keys) && t in keys
    ensures Chips(keys, holders[t := Get(holders, t).(values := [])]) + multiset(Get(holders, t).values) ==
      Chips(keys, holders)
  {
    var init := keys[..|keys| - 1];
    var last := keys[|keys| - 1];
    var upd := holders[t := Get(holders, t).(values := [])];
    var gone := multiset(Get(holders, t).values);
    assert Chips(keys, upd) == Chips(init, upd) + multiset(Get(upd, last).values);
    assert Chips(keys, holders) == Chips(init, holders) + multiset(Get(holders, last).values);
    if t == last {
      assert Chips(init, upd) == Chips(init, holders) by {
        assert t !in init;
        ChipsElsewhere(init, holders, t, Get(holders, t).(values := []));
      }
      assert multiset(Get(upd, last).values) == multiset{};
    } else {
      assert Chips(init, upd) + gone == Chips(init, holders) by {
        assert DistinctNames(init) && t in init;
        ChipsClear(init, holders, t);
      }
      assert Get(upd, last) == Get(holders, last);
      UnionRegroup(Chips(init, upd), multiset(Get(holders, last).values), gone);
    }
  }

  /** Looking a name up adds no chips. */
  lemma TouchChips(keys: seq<Name>, holders: map<Name, Holder>, n: Name)
    requires Valid(keys, holders)
    ensures Chips(Touch(keys, holders, n).0, Touch(keys, holders, n).1) == Chips(keys, holders)
  {
    if n !in holders {
      ChipsElsewhere(keys, holders, n, Fresh);
      assert (keys + [n])[..|keys|] == keys;
    }
  }

  /** Looking up both targets adds them, keeps the dictionary well formed
      and adds no chips. */
  lemma TouchTwice(keys: seq<Name>, holders: map<Name, Holder>, a: Name, b: Name)
    requires Valid(keys, holders)
    ensures var t2 := Touch(keys, holders, a);
      var t3 := Touch(t2.0, t2.1, b);
      Valid(t3.0, t3.1) && Chips(t3.0, t3.1) == Chips(keys, holders) && a in t3.0 && b in t3.0
  {
    var t2 := Touch(keys, holders, a);
    TouchChips(keys, holders, a);
    TouchMeaning(keys, holders, a);
    TouchChips(t2.0, t2.1, b);
    TouchMeaning(t2.0, t2.1, b);
  }

  /** Two chips appended to two keys, or twice to the same key. */
  lemma AppendTwice(keys: seq<Name>, holders: map<Name, Holder>, a: Name, lo: int, b: Name, hi: int)
    requires DistinctNames(keys) && a in keys && b in keys
    ensures var h4 := holders[a := Append(Get(holders, a), lo)];
      Chips(keys, h4[b := Append(Get(h4, b), hi)]) == Chips(keys, holders) + multiset{lo, hi}
  {
    var h4 := holders[a := Append(Get(holders, a), lo)];
    ChipsAppend(keys, holders, a, lo);
    ChipsAppend(keys, h4, b, hi);
  }

  /** A hand-over adds exactly the two chips handed over. */
  lemma HandOverChips(keys: seq<Name>, holders: map<Name, Holder>, b: Behavior, lo: int, hi: int)
    requires Valid(keys, holders)
    ensures Valid(HandOver(keys, holders, b, lo, hi).0, HandOver(keys, holders, b, lo, hi).1)
    ensures Chips(HandOver(keys, holders, b, lo, hi).0, HandOver(keys, holders, b, lo, hi).1) ==
      Chips(keys, holders) + multiset{lo, hi}
  {
    var t2 := Touch(keys, holders, b.lowerTo);
    var t3 := Touch(t2.0, t2.1, b.higherTo);
    TouchTwice(keys, holders, b.lowerTo, b.higherTo);
    var h4 := t3.1[b.lowerTo := Append(Get(t3.1, b.lowerTo), lo)];
    var h5 := h4[b.higherTo := Append(Get(h4, b.higherTo), hi)];
    AppendTwice(t3.0, t3.1, b.lowerTo, lo, b.higherTo, hi);
    assert Valid(t3.0, h5);
    assert HandOver(keys, holders, b, lo, hi) == (t3.0, h5);
  }

  /** Handing over conserves the chips: what the bot loses its targets
      gain. */
  lemma ProcessConserves(m: Machine, n: Name)
    requires Valid(m.keys, m.holders) && Process(m, n).1
    ensures Valid(Process(m, n).0.keys, Process(m, n).0.holders)
    ensures Chips(Process(m, n).0.keys, Process(m, n).0.holders) == Chips(m.keys, m.holders)
  {
    var h := Get(m.holders, n);
    var lo := SortValues(h.values)[0];
    var hi := SortValues(h.values)[1];
    assert multiset(h.values) == multiset{lo, hi} by {
      SortValuesMeaning(h.values);
      assert SortValues(h.values) == [lo, hi];
    }
    var h1 := m.holders[n := h.(values := [])];
    ChipsClear(m.keys, m.holders, n);
    HandOverChips(m.keys, h1, h.behavior.value, lo, hi);
  }

  // ---------------------------------------------------------------------
  // The run

  /** The bots queued at the start: those with two chips, in the order of
      the dictionary. */
  function InitialQueue(keys: seq<Name>, holders: map<Name, Holder>): seq<Name>
  {
    if keys == [] then []
    else
      var n := keys[|keys| - 1];
      InitialQueue(keys[..|keys| - 1], holders) + (if Ready(Get(holders, n)) then [n] else [])
  }

  lemma {:induction false} InitialQueueMeaning(keys: seq<Name>, holders: map<Name, Holder>)
    ensures forall n :: n in InitialQueue(keys, holders) <==> n in keys && Ready(Get(holders, n))
  {
    if keys != [] {
      var init := keys[..|keys| - 1];
      InitialQueueMeaning(init, holders);
      assert forall n :: n in keys <==> n in init || n == keys[|keys| - 1];
    }
  }

  /** How `part_one` ends. */
  datatype Answer = Found(number: nat) | NotFound | Crashed | OutOfFuel

  /** The target compares equal and is not `None` or empty. */
  predicate Matches(target: Option<seq<int>>, h: Holder)
  {
    target.Some? && target.value != [] && SortValues(h.values) == target.value
  }

  /** What one turn of the loop leads to. */
  datatype Turn = Stop(answer: Answer, machine: Machine) | Continue(next: Machine)

  /** One turn of the `while` loop of `part_one`: the first bot taken off
      the queue, its number returned if it holds the target chips, else
      processed. */
  function TakeTurn(m: Machine, target: Option<seq<int>>): Turn
    requires m.queue != []
  {
    var n := m.queue[0];
    var m1 := m.(queue := m.queue[1..]);
    var h := Get(m.holders, n);
    if Matches(target, h) then
      (if h.id.Some? then Stop(Found(h.id.value.number), m1) else Stop(Crashed, m1))
    else
      var p := Process(m1, n);
      if p.1 then Continue(p.0) else Stop(Crashed, p.0)
  }

  /** The `while` loop of `part_one`, for at most `fuel` turns: the answer
      and the dictionary and queue it leaves. */
  function Run(m: Machine, target: Option<seq<int>>, fuel: nat): (Answer, Machine)
    decreases fuel
  {
    if m.queue == [] then (NotFound, m)
    else if fuel == 0 then (OutOfFuel, m)
    else
      match TakeTurn(m, target)
      case Stop(a, m1) => (a, m1)
      case Continue(m1) => Run(m1, target, fuel - 1)
  }

  /** A run with fuel left and bots queued is its first turn followed by
      the rest of the run. */
  lemma RunTurn(m: Machine, target: Option<seq<int>>, fuel: nat)
    requires m.queue != [] && fuel > 0
    ensures TakeTurn(m, target).Stop? ==>
      Run(m, target, fuel) == (TakeTurn(m, target).answer, TakeTurn(m, target).machine)
    ensures TakeTurn(m, target).Continue? ==> Run(m, target, fuel) == Run(TakeTurn(m, target).next, target, fuel - 1)
  {
  }

  /** `RunTurn` with the fuel left after the turn named. */
  lemma RunTurnTo(m: Machine, target: Option<seq<int>>, fuel: nat, rest: nat)
    requires m.queue != [] && fuel == rest + 1
    ensures TakeTurn(m, target).Stop? ==>
      Run(m, target, fuel) == (TakeTurn(m, target).answer, TakeTurn(m, target).machine)
    ensures TakeTurn(m, target).Continue? ==> Run(m, target, fuel) == Run(TakeTurn(m, target).next, target, rest)
  {
    RunTurn(m, target, fuel);
  }

  /** Bot n holds the target chips and carries the number reported. */
  predicate FoundAt(holders: map<Name, Holder>, target: Option<seq<int>>, n: Name, number: nat)
  {
    Matches(target, Get(holders, n)) && Get(holders, n).id.Some? && Get(holders, n).id.value.number == number
  }

  /** A turn that stops with a bot number stops at a bot holding the
      target chips. */
  lemma TakeTurnFound(m: Machine, target: Option<seq<int>>)
    requires m.queue != []
    ensures TakeTurn(m, target).Stop? && TakeTurn(m, target).answer.Found? ==>
      FoundAt(TakeTurn(m, target).machine.holders, target, m.queue[0], TakeTurn(m, target).answer.number)
  {
  }

  /** A turn that goes on keeps the dictionary well formed and every chip. */
  lemma TakeTurnConserves(m: Machine, target: Option<seq<int>>)
    requires m.queue != [] && Valid(m.keys, m.holders)
    ensures TakeTurn(m, target).Continue? ==>
      Valid(TakeTurn(m, target).next.keys, TakeTurn(m, target).next.holders) &&
      Chips(TakeTurn(m, target).next.keys, TakeTurn(m, target).next.holders) == Chips(m.keys, m.holders)
  {
    if TakeTurn(m, target).Continue? {
      ProcessConserves(m.(queue := m.queue[1..]), m.queue[0]);
    }
  }

  /** A run result that reports a bot names one whose sorted chips are
      the (non-empty) target, as it holds them at the end. */
  ghost predicate ReportsBot(run: (Answer, Machine), target: Option<seq<int>>)
  {
    run.0.Found? ==>
      target.Some? && target.value != [] && exists n :: FoundAt(run.1.holders, target, n, run.0.number)
  }

  /** The number returned is that of a bot whose sorted chips are the
      target, as it holds them at the end. */
  lemma {:induction false} RunFound(m: Machine, target: Option<seq<int>>, fuel: nat)
    ensures ReportsBot(Run(m, target, fuel), target)
    decreases fuel
  {
    if m.queue != [] && fuel > 0 {
      var next := FoundTurn(m, target, fuel);
      if next.Some? {
        RunFound(next.value, target, fuel - 1);
      }
    } else {
      RunStops(m, target, fuel);
    }
  }

  /** The first turn of a run: either the run goes on from the machine it
      leaves, so that it reports what that run reports, or it stops,
      reporting (if anything) the first bot queued. */
  lemma FoundTurn(m: Machine, target: Option<seq<int>>, fuel: nat) returns (next: Option<Machine>)
    requires m.queue != [] && fuel > 0
    ensures next.Some? ==>
      (ReportsBot(Run(next.value, target, fuel - 1), target) ==> ReportsBot(Run(m, target, fuel), target))
    ensures next.None? ==> ReportsBot(Run(m, target, fuel), target)
  {
    TakeTurnFound(m, target);
    RunTurn(m, target, fuel);
    var turn := TakeTurn(m, target);
    next := if turn.Continue? then Some(turn.next) else None;
    if turn.Stop? && turn.answer.Found? {
      assert FoundAt(turn.machine.holders, target, m.queue[0], turn.answer.number);
    }
  }

  /** With no bot queued or no fuel left the run stops without a report. */
  lemma RunStops(m: Machine, target: Option<seq<int>>, fuel: nat)
    requires m.queue == [] || fuel == 0
    ensures ReportsBot(Run(m, target, fuel), target)
  {
  }


  /** Without a target part one never reports a bot. */
  lemma {:induction false} NoTargetNeverFound(m: Machine, fuel: nat)
    ensures !Run(m, None, fuel).0.Found?
    decreases fuel
  {
    if m.queue != [] && fuel > 0 && TakeTurn(m, None).Continue? {
      NoTargetNeverFound(TakeTurn(m, None).next, fuel - 1);
    }
  }

  // ---------------------------------------------------------------------
  // The dictionary, updated in place

  /** The `defaultdict` of bots, with the insertion order of its keys. */
  class Factory {
    var keys: seq<Name>
    var holders: map<Name, Holder>

    constructor(keys0: seq<Name>, holders0: map<Name, Holder>)
      ensures keys == keys0 && holders == holders0
    {
      keys := keys0;
      holders := holders0;
    }

    /** `bots[n]`. */
    method Fetch(n: Name) returns (h: Holder)
      modifies this
      ensures (keys, holders) == Touch(old(keys), old(holders), n)
      ensures h == Get(old(holders), n)
    {
      if n !in holders {
        keys := keys + [n];
        holders := holders[n := Fresh];
      }
      h := holders[n];
    }

    /** Lines 26-31: the bots with two chips, in dictionary order. */
    method StartQueue() returns (queue: seq<Name>)
      ensures queue == InitialQueue(keys, holders)
    {
      queue := [];
      for k := 0 to |keys|
        invariant queue == InitialQueue(keys[..k], holders)
      {
        assert keys[..k + 1][..k] == keys[..k];
        var bot := Get(holders, keys[k]);
        if bot.botType != Bot {
          continue;
        }
        if |bot.values| == 2 {
          queue := queue + [keys[k]];
        }
      }
      assert keys[..|keys|] == keys;
    }

    /** Lines 37-46 for the bot n taken off the queue. */
    method ProcessBot(n: Name, queue0: seq<Name>) returns (ok: bool, queue: seq<Name>)
      modifies this
      ensures (Machine(keys, holders, queue), ok) == Process(Machine(old(keys), old(holders), queue0), n)
    {
      queue := queue0;
      var bot := Get(holders, n);
      if |bot.values| != 2 {
        return false, queue;
      }
      var sortedValues := SortValues(bot.values);
      var low, high := sortedValues[0], sortedValues[1];
      holders := holders[n := bot.(values := [])];
      if bot.behavior.None? {
        return false, queue;
      }
      ghost var keys1, holders1 := keys, holders;
      var lowName, highName := bot.behavior.value.lowerTo, bot.behavior.value.higherTo;
      var lowTarget := Fetch(lowName);
      var highTarget := Fetch(highName);
      holders := holders[lowName := Append(Get(holders, lowName), low)];
      holders := holders[highName := Append(Get(holders, highName), high)];
      assert (keys, holders) == HandOver(keys1, holders1, bot.behavior.value, low, high);
      if Ready(Get(holders, lowName)) {
        queue := queue + [lowName];
      }
      if Ready(Get(holders, highName)) {
        queue := queue + [highName];
      }
      assert queue == queue0 + Queued(holders, bot.behavior.value);
      return true, queue;
    }

    /** One turn of the loop of `part_one`: the first bot taken off the
        queue and either reported or processed. */
    method TakeBot(target: Option<seq<int>>, queue0: seq<Name>) returns (stop: Option<Answer>, queue: seq<Name>)
      requires queue0 != []
      modifies this
      ensures var turn := TakeTurn(Machine(old(keys), old(holders), queue0), target);
        match turn
        case Stop(a, m) => stop == Some(a) && Machine(keys, holders, queue) == m
        case Continue(m) => stop.None? && Machine(keys, holders, queue) == m
    {
      var n := queue0[0];
      queue := queue0[1..];
      var bot := Get(holders, n);
      if Matches(target, bot) {
        if bot.id.None? {
          return Some(Crashed), queue;
        }
        return Some(Found(bot.id.value.number)), queue;
      }
      var ok;
      ok, queue := ProcessBot(n, queue);
      if !ok {
        return Some(Crashed), queue;
      }
      return None, queue;
    }

    /** `part_one`: the queue worked off one bot at a time until a bot
        holds the target chips, whose number is returned; `NotFound` when
        the queue runs empty, `OutOfFuel` after `fuel` bots. */
    method PartOne(target: Option<seq<int>>, fuel: nat) returns (r: Answer)
      modifies this
      ensures var run := Run(Machine(old(keys), old(holders), old(InitialQueue(keys, holders))), target, fuel);
        r == run.0 && keys == run.1.keys && holders == run.1.holders
    {
      var queue := StartQueue();
      ghost var run := Run(Machine(keys, holders, queue), target, fuel);
      var left := fuel;
      while queue != [] && left > 0
        invariant Run(Machine(keys, holders, queue), target, left) == run
        decreases left
      {
        var stop;
        stop, queue, left := RunBot(target, queue, left, run);
        if stop.Some? {
          return stop.value;
        }
      }
      if queue == [] {
        return NotFound;
      }
      return OutOfFuel;
    }

    /** One pass of the `part_one` loop as a step of `Run`: the bot taken
        either ends the run with the answer and the state left, or leaves
        a machine whose run with one less fuel is the same. */
    method RunBot(target: Option<seq<int>>, queue0: seq<Name>, left0: nat, ghost run: (Answer, Machine))
      returns (stop: Option<Answer>, queue: seq<Name>, left: nat)
      requires queue0 != [] && left0 > 0
      requires Run(Machine(keys, holders, queue0), target, left0) == run
      modifies this
      ensures left < left0
      ensures stop.Some? ==> stop.value == run.0 && keys == run.1.keys && holders == run.1.holders
      ensures stop.None? ==> Run(Machine(keys, holders, queue), target, left) == run
    {
      left := left0 - 1;
      RunTurnTo(Machine(keys, holders, queue0), target, left0, left);
      stop, queue := TakeBot(target, queue0);
    }

    /** `part_two`: all chips passed on, then the first chips of outputs 0,
        1 and 2 multiplied; `None` where the source raises or runs out of
        fuel. */
    method PartTwo(fuel: nat) returns (r: Option<int>)
      modifies this
      ensures var run := Run(Machine(old(keys), old(holders), old(InitialQueue(keys, holders))), None, fuel);
        r.Some? <==> run.0 == NotFound && OutputsFilled(run.1.holders)
      ensures var run := Run(Machine(old(keys), old(holders), old(InitialQueue(keys, holders))), None, fuel);
        r.Some? ==> r.value == FirstChip(run.1.holders, 0) * FirstChip(run.1.holders, 1) * FirstChip(run.1.holders, 2)
    {
      var answer := PartOne(None, fuel);
      if answer != NotFound {
        return None;
      }
      var out0 := Fetch(Name(OutputPrefix, 0));
      var out1 := Fetch(Name(OutputPrefix, 1));
      var out2 := Fetch(Name(OutputPrefix, 2));
      if out0.values == [] || out1.values == [] || out2.values == [] {
        return None;
      }
      return Some(out0.values[0] * out1.values[0] * out2.values[0]);
    }
  }

  /** Outputs 0, 1 and 2 each hold a chip. */
  predicate OutputsFilled(holders: map<Name, Holder>)
  {
    Get(holders, Name(OutputPrefix, 0)).values != [] &&
    Get(holders, Name(OutputPrefix, 1)).values != [] &&
    Get(holders, Name(OutputPrefix, 2)).values != []
  }

  /** The first chip of output i, 0 if it holds none. */
  function FirstChip(holders: map<Name, Holder>, i: nat): int
  {
    var h := Get(holders, Name(OutputPrefix, i));
    if h.values == [] then 0 else h.values[0]
  }

}
