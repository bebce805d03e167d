/** The Sum of Its Parts (2018, day 7): steps named by letters, each waiting
    for some others.  Part one orders the steps, always taking the
    alphabetically first step whose dependencies are all done; part two
    lets five workers carry the steps out, each step taking its own number
    of seconds, and reports the time the last one finishes. */
module Aoc2018Day07 {
  import opened Common

  /** The dictionary of `Node`s: a node is its id, the key it is filed
      under, and the set of steps it waits for. */
  type Nodes = map<char, set<char>>

  // ---------------------------------------------------------------------
  // Parsing

  /** Step c occurs in one of the instructions "Step X must be finished
      before step Y can begin.", read as the pairs (X, Y). */
  predicate Mentioned(pairs: seq<(char, char)>, c: char)
  {
    exists k :: 0 <= k < |pairs| && (pairs[k].0 == c || pairs[k].1 == c)
  }

  /** The dictionary `parse_input` builds from the instructions: both steps
      get a node, and Y waits for X. */
  function Graph(pairs: seq<(char, char)>): Nodes
  {
    if pairs == [] then map[]
    else
      var g := Graph(pairs[..|pairs| - 1]);
      var x, y := pairs[|pairs| - 1].0, pairs[|pairs| - 1].1;
      var g1 := if x in g then g else g[x := {}];
      var g2 := if y in g1 then g1 else g1[y := {}];
      g2[y := g2[y] + {x}]
  }

  /** Every step named by an instruction has a node and no other does; a
      step waits for exactly the steps that instructions put before it. */
  lemma {:induction false} GraphMeaning(pairs: seq<(char, char)>)
    ensures forall c :: c in Graph(pairs) <==> Mentioned(pairs, c)
    ensures forall x, y :: y in Graph(pairs) ==> (x in Graph(pairs)[y] <==> (x, y) in pairs)
  {
    if pairs != [] {
      var init := pairs[..|pairs| - 1];
      GraphMeaning(init);
      assert forall k :: 0 <= k < |init| ==> init[k] == pairs[k];
      forall c
        ensures Mentioned(pairs, c) <==> Mentioned(init, c) || c == pairs[|pairs| - 1].0 || c == pairs[|pairs| - 1].1
      {
        if Mentioned(pairs, c) {
          var k :| 0 <= k < |pairs| && (pairs[k].0 == c || pairs[k].1 == c);
          if k < |init| {
            assert init[k] == pairs[k];
          }
        }
        if Mentioned(init, c) {
          var k :| 0 <= k < |init| && (init[k].0 == c || init[k].1 == c);
          assert pairs[k] == init[k];
        }
      }
      assert forall p :: p in pairs <==> p in init || p == pairs[|pairs| - 1];
    }
  }

  /** `parse_input` over the instructions already read from the file. */
  method ParseInput(pairs: seq<(char, char)>) returns (nodes: Nodes)
    ensures nodes == Graph(pairs)
  {
    nodes := map[];
    for k := 0 to |pairs|
      invariant nodes == Graph(pairs[..k])
    {
      assert pairs[..k + 1][..k] == pairs[..k];
      var nodeId, unlocks := pairs[k].0, pairs[k].1;
      if nodeId !in nodes {
        nodes := nodes[nodeId := {}];
      }
      if unlocks !in nodes {
        nodes := nodes[unlocks := {}];
      }
      nodes := nodes[unlocks := nodes[unlocks] + {nodeId}];
    }
    assert pairs[..|pairs|] == pairs;
  }

  // ---------------------------------------------------------------------
  // Sorting the step names

  predicate Increasing(s: seq<char>)
  {
    forall i, j :: 0 <= i < j < |s| ==> s[i] < s[j]
  }

  lemma {:induction false} LeastExists(s: set<char>)
    requires s != {}
    ensures exists m :: m in s && forall x :: x in s ==> m <= x
  {
    var y :| y in s;
    if s != {y} {
      LeastExists(s - {y});
      var m :| m in s - {y} && forall x :: x in s - {y} ==> m <= x;
      var least := if y < m then y else m;
      forall x | x in s
        ensures least <= x
      {
        if x != y {
          assert x in s - {y};
        }
      }
      assert least in s;
    } else {
      assert forall x :: x in s ==> x == y;
    }
  }

  /** The alphabetically first name of a non-empty set. */
  function Least(s: set<char>): (m: char)
    requires s != {}
    ensures m in s && forall x :: x in s ==> m <= x
  {
    LeastExists(s);
    var m :| m in s && forall x :: x in s ==> m <= x;
    m
  }

  /** `sorted(nodes.keys())`: the names in alphabetical order, each once. */
  function SortChars(s: set<char>): (r: seq<char>)
    ensures Increasing(r) && |r| == |s| && forall c :: c in r <==> c in s
    decreases |s|
  {
    if s == {} then []
    else
      var m := Least(s);
      [m] + SortChars(s - {m})
  }

  // ---------------------------------------------------------------------
  // Part one

  /** `all(d in stack for d in node.dependencies)` for a step with a
      node. */
  predicate Ready(nodes: Nodes, done: seq<char>, c: char)
  {
    c in nodes && forall d :: d in nodes[c] ==> d in done
  }

  /** The candidate the `for` loop of `part_one` stops at: the first one
      that is ready. */
  function FirstReady(nodes: Nodes, cands: seq<char>, done: seq<char>): (r: Option<nat>)
    ensures r.Some? ==> (r.value < |cands| && Ready(nodes, done, cands[r.value]) &&
      forall j :: 0 <= j < r.value ==> !Ready(nodes, done, cands[j]))
    ensures r.None? ==> forall j :: 0 <= j < |cands| ==> !Ready(nodes, done, cands[j])
  {
    if cands == [] then None
    else if Ready(nodes, done, cands[0]) then Some(0)
    else
      match FirstReady(nodes, cands[1..], done)
      case None => None
      case Some(i) => Some(i + 1)
  }

  /** The candidates without the one at position i. */
  function RemoveAt(s: seq<char>, i: nat): (r: seq<char>)
    requires i < |s|
    ensures |r| == |s| - 1
    ensures forall k :: 0 <= k < |r| ==> r[k] == if k < i then s[k] else s[k + 1]
  {
    s[..i] + s[i + 1..]
  }

  lemma RemoveAtMembers(s: seq<char>, i: nat)
    requires i < |s|
    ensures forall c :: c in s <==> c in RemoveAt(s, i) || c == s[i]
    ensures multiset(s) == multiset(RemoveAt(s, i)) + multiset{s[i]}
  {
    assert s == s[..i] + [s[i]] + s[i + 1..];
  }

  /** The `while` loop of `part_one` from the candidates still waiting and
      the steps already stacked: the finished order, or `None` when no
      candidate is ready, where the source goes round forever.  The
      candidate taken is the first that is ready, so no earlier candidate
      equals it and `candidates.remove` drops exactly that position. */
  function Order(nodes: Nodes, cands: seq<char>, done: seq<char>): Option<seq<char>>
    decreases |cands|
  {
    if cands == [] then Some(done)
    else
      match FirstReady(nodes, cands, done)
      case None => None
      case Some(i) => Order(nodes, RemoveAt(cands, i), done + [cands[i]])
  }

  /** The inner `for` loop of `part_one`. */
  method FindReady(nodes: Nodes, candidates: seq<char>, stack: seq<char>) returns (r: Option<nat>)
    ensures r == FirstReady(nodes, candidates, stack)
  {
    for i := 0 to |candidates|
      invariant forall j :: 0 <= j < i ==> !Ready(nodes, stack, candidates[j])
    {
      if Ready(nodes, stack, candidates[i]) {
        return Some(i);
      }
    }
    return None;
  }

  /** `part_one`: the steps stacked one at a time, each the first candidate
      in alphabetical order whose dependencies are all stacked; `None`
      where the source loops forever. */
  method PartOne(nodes: Nodes) returns (r: Option<seq<char>>)
    ensures r == Order(nodes, SortChars(nodes.Keys), [])
  {
    var candidates := SortChars(nodes.Keys);
    var stack := [];
    while candidates != []
      invariant Order(nodes, SortChars(nodes.Keys), []) == Order(nodes, candidates, stack)
      decreases |candidates|
    {
      var i := FindReady(nodes, candidates, stack);
      if i.None? {
        return None;
      }
      stack := stack + [candidates[i.value]];
      candidates := RemoveAt(candidates, i.value);
    }
    return Some(stack);
  }

  /** Every step of the sequence comes after all its dependencies. */
  predicate Respects(nodes: Nodes, s: seq<char>)
  {
    forall i :: 0 <= i < |s| ==> Ready(nodes, s[..i], s[i])
  }

  /** The order keeps the steps already stacked and adds each candidate
      once. */
  lemma {:induction false} OrderPermutes(nodes: Nodes, cands: seq<char>, done: seq<char>)
    requires Order(nodes, cands, done).Some?
    ensures var out := Order(nodes, cands, done).value;
      |out| == |done| + |cands| && out[..|done|] == done && multiset(out[|done|..]) == multiset(cands)
    decreases |cands|
  {
    if cands != [] {
      var i := FirstReady(nodes, cands, done).value;
      var rest := RemoveAt(cands, i);
      var done' := done + [cands[i]];
      OrderPermutes(nodes, rest, done');
      RemoveAtMembers(cands, i);
      var out := Order(nodes, rest, done').value;
      assert out[..|done|] == out[..|done'|][..|done|];
      assert out[|done|..] == [cands[i]] + out[|done'|..];
    }
  }

  /** Each step is stacked only after all its dependencies. */
  lemma {:induction false} OrderRespects(nodes: Nodes, cands: seq<char>, done: seq<char>)
    requires Order(nodes, cands, done).Some? && Respects(nodes, done)
    ensures Respects(nodes, Order(nodes, cands, done).value)
    decreases |cands|
  {
    if cands != [] {
      var i := FirstReady(nodes, cands, done).value;
      var done' := done + [cands[i]];
      assert done'[..|done|] == done;
      assert forall k :: 0 <= k < |done| ==> done'[..k] == done[..k];
      OrderRespects(nodes, RemoveAt(cands, i), done');
    }
  }

  /** A step that is ready and stays among the candidates after the first
      ready one is taken lies alphabetically after it. */
  lemma LaterReadyIsLarger(nodes: Nodes, cands: seq<char>, done: seq<char>, c: char)
    requires Increasing(cands) && FirstReady(nodes, cands, done).Some?
    requires c in RemoveAt(cands, FirstReady(nodes, cands, done).value) && Ready(nodes, done, c)
    ensures cands[FirstReady(nodes, cands, done).value] < c
  {
    var i := FirstReady(nodes, cands, done).value;
    var rest := RemoveAt(cands, i);
    var m :| 0 <= m < |rest| && rest[m] == c;
    assert i <= m;
    assert rest[m] == cands[m + 1];
  }

  /** The first step stacked from alphabetically ordered candidates
      comes alphabetically before every later step that was ready along
      with it. */
  lemma TakesLeastFirst(nodes: Nodes, cands: seq<char>, done: seq<char>)
    requires Order(nodes, cands, done).Some? && Increasing(cands) && cands != []
    ensures var out := Order(nodes, cands, done).value;
      forall j :: |done| < j < |out| && Ready(nodes, out[..|done|], out[j]) ==> out[|done|] < out[j]
  {
    var i := FirstReady(nodes, cands, done).value;
    var rest := RemoveAt(cands, i);
    var done' := done + [cands[i]];
    OrderPermutes(nodes, rest, done');
    var out := Order(nodes, rest, done').value;
    assert out[..|done|] == out[..|done'|][..|done|] == done'[..|done|] == done;
    assert out[|done|] == done'[|done|] == cands[i];
    forall j | |done| < j < |out| && Ready(nodes, out[..|done|], out[j])
      ensures out[|done|] < out[j]
    {
      assert out[j] in multiset(out[|done'|..]) by {
        assert out[j] == out[|done'|..][j - |done'|];
      }
      LaterReadyIsLarger(nodes, cands, done, out[j]);
    }
  }

  /** From alphabetically ordered candidates, each step stacked is the
      alphabetically first of the steps left that are ready at that
      point. */
  lemma {:induction false} OrderTakesLeast(nodes: Nodes, cands: seq<char>, done: seq<char>)
    requires Order(nodes, cands, done).Some? && Increasing(cands)
    ensures var out := Order(nodes, cands, done).value;
      forall k, j :: |done| <= k < j < |out| && Ready(nodes, out[..k], out[j]) ==> out[k] < out[j]
    decreases |cands|
  {
    if cands != [] {
      var i := FirstReady(nodes, cands, done).value;
      var rest := RemoveAt(cands, i);
      assert Increasing(rest);
      OrderTakesLeast(nodes, rest, done + [cands[i]]);
      TakesLeastFirst(nodes, cands, done);
    }
  }

  /** The position of the first element of s that lies in t, when there
      is one. */
  lemma {:induction false} FirstIn(s: seq<char>, t: seq<char>, c: char)
    requires c in s && c in t
    ensures exists p :: 0 <= p < |s| && s[p] in t && forall q :: 0 <= q < p ==> s[q] !in t
  {
    if s[0] !in t {
      FirstIn(s[1..], t, c);
      var p :| 0 <= p < |s[1..]| && s[1..][p] in t && forall q :: 0 <= q < p ==> s[1..][q] !in t;
      assert s[p + 1] in t;
      forall q | 0 <= q < p + 1
        ensures s[q] !in t
      {
        if q > 0 {
          assert s[q] == s[1..][q - 1];
        }
      }
    }
  }

  /** Some candidate is ready when an order of all the steps respects
      the dependencies: the first candidate in that order. */
  lemma SomeReady(nodes: Nodes, cands: seq<char>, done: seq<char>, t: seq<char>)
    requires cands != [] && Respects(nodes, t)
    requires forall c :: c in t <==> c in cands || c in done
    ensures FirstReady(nodes, cands, done).Some?
  {
    FirstIn(t, cands, cands[0]);
    var p :| 0 <= p < |t| && t[p] in cands && forall q :: 0 <= q < p ==> t[q] !in cands;
    assert Ready(nodes, t[..p], t[p]);
    forall d | d in nodes[t[p]]
      ensures d in done
    {
      assert d in t[..p];
    }
    var m :| 0 <= m < |cands| && cands[m] == t[p];
    assert Ready(nodes, done, cands[m]);
  }

  /** Part one never gets stuck when the steps can be done in some order:
      if a sequence holding exactly the steps not yet stacked and those
      stacked respects every dependency, the order comes out. */
  lemma {:induction false} OrderSucceeds(nodes: Nodes, cands: seq<char>, done: seq<char>, t: seq<char>)
    requires Respects(nodes, t)
    requires forall c :: c in t <==> c in cands || c in done
    ensures Order(nodes, cands, done).Some?
    decreases |cands|
  {
    if cands != [] {
      SomeReady(nodes, cands, done, t);
      var i := FirstReady(nodes, cands, done).value;
      RemoveAtMembers(cands, i);
      OrderSucceeds(nodes, RemoveAt(cands, i), done + [cands[i]], t);
    }
  }

  /** What `part_one` promises: when it ends, every step is stacked once,
      after all its dependencies, each the alphabetically first step ready
      at its turn; and it always ends when some order of the steps
      respects the dependencies. */
  lemma PartOneMeaning(nodes: Nodes)
    ensures var r := Order(nodes, SortChars(nodes.Keys), []);
      r.Some? ==>
        |r.value| == |nodes| && (forall c :: c in r.value <==> c in nodes) &&
        multiset(r.value) == multiset(SortChars(nodes.Keys)) &&
        Respects(nodes, r.value) &&
        forall k, j :: 0 <= k < j < |r.value| && Ready(nodes, r.value[..k], r.value[j]) ==> r.value[k] < r.value[j]
    ensures (exists t :: Respects(nodes, t) && forall c :: c in t <==> c in nodes) ==>
      Order(nodes, SortChars(nodes.Keys), []).Some?
  {
    var sorted := SortChars(nodes.Keys);
    var r := Order(nodes, sorted, []);
    if r.Some? {
      OrderPermutes(nodes, sorted, []);
      OrderRespects(nodes, sorted, []);
      OrderTakesLeast(nodes, sorted, []);
      assert r.value[0..] == r.value;
      forall c
        ensures c in r.value <==> c in nodes
      {
        assert c in r.value <==> c in multiset(sorted);
      }
    }
    if exists t :: Respects(nodes, t) && forall c :: c in t <==> c in nodes {
      var t :| Respects(nodes, t) && forall c :: c in t <==> c in nodes;
      OrderSucceeds(nodes, sorted, [], t);
    }
  }

  // ---------------------------------------------------------------------
  // Part two

  /** `ord(n) - 64 + 60`: the seconds step n takes, 61 for `A`. */
  function Duration(n: char): int
  {
    n as int - 64 + 60
  }

  lemma DurationExamples()
    ensures Duration('A') == 61 && Duration('C') == 63 && Duration('Z') == 86
  {
  }

  /** The keys of `nodes_progression` in insertion order: the steps of the
      order string, each at its first occurrence. */
  function Dedup(order: seq<char>): (r: seq<char>)
    ensures Distinct(r) && forall c :: c in r <==> c in order
  {
    if order == [] then []
    else
      var r := Dedup(order[..|order| - 1]);
      if order[|order| - 1] in r then r else r + [order[|order| - 1]]
  }

  predicate Distinct(s: seq<char>)
  {
    forall i, j :: 0 <= i < j < |s| ==> s[i] != s[j]
  }

  /** The progress counters, the five workers and the completed steps. */
  datatype Floor = Floor(progress: map<char, int>, workers: seq<Option<char>>, completed: set<char>)

  /** Lines 29-31: every step of the order at its full duration, five idle
      workers, nothing completed. */
  function Start(order: seq<char>): Floor
  {
    Floor(map n | n in order :: Duration(n), [None, None, None, None, None], {})
  }

  /** Every worker's step has a counter. */
  predicate Tracked(f: Floor)
  {
    forall w :: 0 <= w < |f.workers| && f.workers[w].Some? ==> f.workers[w].value in f.progress
  }

  /** Lines 35-41 for worker w: its counter counted down if it is above
      zero, and the worker freed and the step completed once it is zero. */
  function WorkOne(f: Floor, w: nat): (r: Floor)
    requires w < |f.workers| && Tracked(f)
    ensures r.progress.Keys == f.progress.Keys && |r.workers| == |f.workers| && Tracked(r)
  {
    match f.workers[w]
    case None => f
    case Some(t) =>
      var left := if f.progress[t] > 0 then f.progress[t] - 1 else f.progress[t];
      if left == 0 then Floor(f.progress[t := left], f.workers[w := None], f.completed + {t})
      else f.(progress := f.progress[t := left])
  }

  /** The first `for` loop of a second, over workers 0 to k - 1. */
  function WorkPhase(f: Floor, k: nat): (r: Floor)
    requires k <= |f.workers| && Tracked(f)
    ensures r.progress.Keys == f.progress.Keys && |r.workers| == |f.workers| && Tracked(r)
  {
    if k == 0 then f else WorkOne(WorkPhase(f, k - 1), k - 1)
  }

  /** The worker the innermost loop of `part_two` hands a step to: the
      first idle one from `from` on, and none if the step is already being
      worked on. */
  function FirstFree(workers: seq<Option<char>>, key: char, from: nat): (r: Option<nat>)
    decreases |workers| - from
    ensures r.Some? ==> (from <= r.value < |workers| && workers[r.value].None? && Some(key) !in workers &&
      forall j :: from <= j < r.value ==> workers[j].Some?)
    ensures r.None? ==> Some(key) in workers || forall j :: from <= j < |workers| ==> workers[j].Some?
  {
    if from >= |workers| then None
    else if workers[from].None? && Some(key) !in workers then Some(from)
    else FirstFree(workers, key, from + 1)
  }

  /** Lines 44-51 for one counter: a step not yet done whose dependencies
      are all completed goes to the first idle worker unless a worker has
      it already; `None` where `nodes[key]` raises. */
  function AssignOne(f: Floor, nodes: Nodes, key: char): (r: Option<Floor>)
    requires key in f.progress && Tracked(f)
    ensures r.Some? ==> (r.value.progress == f.progress && r.value.completed == f.completed &&
      |r.value.workers| == |f.workers| && Tracked(r.value))
  {
    if f.progress[key] == 0 then Some(f)
    else if key !in nodes then None
    else if nodes[key] <= f.completed then
      match FirstFree(f.workers, key, 0)
      case None => Some(f)
      case Some(w) => Some(f.(workers := f.workers[w := Some(key)]))
    else Some(f)
  }

  /** The second `for` loop of a second, over the first k counters. */
  function AssignPhase(f: Floor, nodes: Nodes, steps: seq<char>, k: nat): (r: Option<Floor>)
    requires k <= |steps| && Tracked(f) && forall t :: t in steps ==> t in f.progress
    ensures r.Some? ==> (r.value.progress == f.progress && r.value.completed == f.completed &&
      |r.value.workers| == |f.workers| && Tracked(r.value))
  {
    if k == 0 then Some(f)
    else
      match AssignPhase(f, nodes, steps, k - 1)
      case None => None
      case Some(g) => AssignOne(g, nodes, steps[k - 1])
  }

  /** One second of `part_two`. */
  function Tick(f: Floor, nodes: Nodes, steps: seq<char>): Option<Floor>
    requires Tracked(f) && forall t :: t in steps ==> t in f.progress
  {
    AssignPhase(WorkPhase(f, |f.workers|), nodes, steps, |steps|)
  }

  /** `any(v > 0 for v in nodes_progression.values())`. */
  predicate Pending(f: Floor)
  {
    exists t :: t in f.progress && f.progress[t] > 0
  }

  /** The `while` loop of `part_two` for at most `fuel` seconds: the time
      reported, or `None` where `nodes[key]` raises or the fuel runs out,
      with the floor it leaves. */
  function Run(f: Floor, nodes: Nodes, steps: seq<char>, elapsed: int, fuel: nat): (Option<int>, Floor)
    requires Tracked(f) && forall t :: t in steps ==> t in f.progress
    decreases fuel
  {
    if !Pending(f) then (Some(elapsed), f)
    else if fuel == 0 then (None, f)
    else
      match Tick(f, nodes, steps)
      case None => (None, f)
      case Some(g) => Run(g, nodes, steps, elapsed + 1, fuel - 1)
  }

  lemma {:induction false} AssignPhaseFails(f: Floor, nodes: Nodes, steps: seq<char>, k: nat, n: nat)
    requires k <= n <= |steps| && Tracked(f) && forall t :: t in steps ==> t in f.progress
    requires AssignPhase(f, nodes, steps, k).None?
    ensures AssignPhase(f, nodes, steps, n).None?
    decreases n
  {
    if n > k {
      AssignPhaseFails(f, nodes, steps, k, n - 1);
    }
  }

  /** One second of the loop. */
  lemma RunTick(f: Floor, nodes: Nodes, steps: seq<char>, elapsed: int, fuel: nat)
    requires Tracked(f) && forall t :: t in steps ==> t in f.progress
    requires Pending(f) && fuel > 0
    ensures Tick(f, nodes, steps).None? ==> Run(f, nodes, steps, elapsed, fuel).0.None?
    ensures Tick(f, nodes, steps).Some? ==>
      Run(f, nodes, steps, elapsed, fuel) == Run(Tick(f, nodes, steps).value, nodes, steps, elapsed + 1, fuel - 1)
  {
  }

  /** The first loop of a second. */
  method Work(f: Floor) returns (g: Floor)
    requires Tracked(f)
    ensures g == WorkPhase(f, |f.workers|)
  {
    g := f;
    for w := 0 to |f.workers|
      invariant g == WorkPhase(f, w)
    {
      var target := g.workers[w];
      if target.None? {
        continue;
      }
      var t := target.value;
      if g.progress[t] > 0 {
        g := g.(progress := g.progress[t := g.progress[t] - 1]);
      }
      if g.progress[t] == 0 {
        g := g.(workers := g.workers[w := None], completed := g.completed + {t});
      }
    }
  }

  /** The innermost loop: the first idle worker, if the step is not
      already taken. */
  method FindFree(workers: seq<Option<char>>, key: char) returns (r: Option<nat>)
    ensures r == FirstFree(workers, key, 0)
  {
    for w := 0 to |workers|
      invariant FirstFree(workers, key, 0) == FirstFree(workers, key, w)
    {
      if workers[w].None? && Some(key) !in workers {
        return Some(w);
      }
    }
    return None;
  }

  /** The second loop of a second. */
  method Assign(f: Floor, nodes: Nodes, steps: seq<char>) returns (r: Option<Floor>)
    requires Tracked(f) && forall t :: t in steps ==> t in f.progress
    ensures r == AssignPhase(f, nodes, steps, |steps|)
  {
    var g := f;
    for k := 0 to |steps|
      invariant Some(g) == AssignPhase(f, nodes, steps, k)
    {
      var key := steps[k];
      if g.progress[key] == 0 {
        continue;
      }
      if key !in nodes {
        AssignPhaseFails(f, nodes, steps, k + 1, |steps|);
        return None;
      }
      if nodes[key] <= g.completed {
        var w := FindFree(g.workers, key);
        if w.Some? {
          g := g.(workers := g.workers[w.value := Some(key)]);
        }
      }
    }
    return Some(g);
  }

  /** `part_two` given the order part one produced: the second at which
      no counter is above zero any more; `None` where the source raises or
      runs longer than `fuel` seconds. */
  method PartTwo(nodes: Nodes, order: seq<char>, fuel: nat) returns (r: Option<int>)
    ensures r == Run(Start(order), nodes, Dedup(order), -1, fuel).0
  {
    var steps := Dedup(order);
    var elapsed := -1;
    var floor := Start(order);
    var left := fuel;
    while Pending(floor)
      invariant Tracked(floor) && forall t :: t in steps ==> t in floor.progress
      invariant Run(Start(order), nodes, steps, -1, fuel) == Run(floor, nodes, steps, elapsed, left)
      decreases left
    {
      if left == 0 {
        return None;
      }
      RunTick(floor, nodes, steps, elapsed, left);
      elapsed := elapsed + 1;
      var worked := Work(floor);
      var next := Assign(worked, nodes, steps);
      if next.None? {
        return None;
      }
      floor := next.value;
      left := left - 1;
    }
    return Some(elapsed);
  }

  // ---------------------------------------------------------------------
  // What a second of part two keeps

  /** No step is held by two workers. */
  predicate NoTwice(workers: seq<Option<char>>)
  {
    forall i, j :: 0 <= i < j < |workers| && workers[i].Some? ==> workers[i] != workers[j]
  }

  /** A busy worker's step is not done and had all its dependencies
      completed. */
  predicate Busy(f: Floor, nodes: Nodes)
  {
    forall w :: 0 <= w < |f.workers| && f.workers[w].Some? ==>
      (f.workers[w].value in f.progress && f.progress[f.workers[w].value] != 0 &&
       f.workers[w].value in nodes && nodes[f.workers[w].value] <= f.completed)
  }

  /** A completed step is at zero, and so are its dependencies. */
  predicate Closed(f: Floor, nodes: Nodes)
  {
    forall t :: t in f.completed ==> (t in f.progress && f.progress[t] == 0 && t in nodes && nodes[t] <= f.completed)
  }

  /** A counter that started at a duration of zero or more stays between
      zero and that duration, and reaches zero only by completing. */
  predicate Counting(f: Floor)
  {
    forall t :: t in f.progress && Duration(t) >= 0 ==>
      (0 <= f.progress[t] <= Duration(t) && (f.progress[t] == 0 && Duration(t) > 0 ==> t in f.completed))
  }

  predicate Inv(f: Floor, nodes: Nodes)
  {
    |f.workers| == 5 && Tracked(f) && NoTwice(f.workers) && Busy(f, nodes) && Closed(f, nodes) && Counting(f)
  }

  lemma StartInv(order: seq<char>, nodes: Nodes)
    ensures Inv(Start(order), nodes)
    ensures forall t :: t in Start(order).progress <==> t in order
  {
  }

  /** After the work phase has run over workers 0 to k - 1, every busy
      counter of those workers above zero is counted down once and no other
      counter has changed. */
  predicate Counted(f: Floor, g: Floor, k: nat)
    requires k <= |f.workers|
  {
    g.progress.Keys == f.progress.Keys &&
    forall t :: t in f.progress ==>
      g.progress[t] == (if Some(t) in f.workers[..k] && f.progress[t] > 0 then f.progress[t] - 1 else f.progress[t])
  }

  /** ... those of the workers whose counter is then zero are freed, and
      the other workers are left alone ... */
  predicate Freed(f: Floor, g: Floor, k: nat)
    requires k <= |f.workers|
  {
    |g.workers| == |f.workers| &&
    (forall j :: k <= j < |f.workers| ==> g.workers[j] == f.workers[j]) &&
    forall j :: 0 <= j < k ==>
      g.workers[j] ==
        (if f.workers[j].Some? && f.workers[j].value in g.progress && g.progress[f.workers[j].value] == 0
         then None else f.workers[j])
  }

  /** ... and the steps of the freed workers are completed. */
  predicate Finished(f: Floor, g: Floor, k: nat)
    requires k <= |f.workers|
  {
    forall t :: t in g.completed <==>
      (t in f.completed || (t in g.progress && Some(t) in f.workers[..k] && g.progress[t] == 0))
  }

  /** The work phase over workers 0 to k - 1 took f to g. */
  predicate Worked(f: Floor, g: Floor, k: nat)
    requires k <= |f.workers|
  {
    Counted(f, g, k) && Freed(f, g, k) && Finished(f, g, k)
  }

  /** No worker before k holds the step worker k holds. */
  lemma HeldOnce(f: Floor, k: nat)
    requires k < |f.workers| && NoTwice(f.workers) && f.workers[k].Some?
    ensures Some(f.workers[k].value) !in f.workers[..k]
  {
    forall j | 0 <= j < k
      ensures f.workers[j] != f.workers[k]
    {
    }
  }

  lemma CountStep(f: Floor, g: Floor, k: nat)
    requires k < |f.workers| && NoTwice(f.workers) && Tracked(g) && Counted(f, g, k) && Freed(f, g, k)
    ensures Counted(f, WorkOne(g, k), k + 1)
  {
    assert f.workers[..k + 1] == f.workers[..k] + [f.workers[k]];
    if f.workers[k].Some? {
      HeldOnce(f, k);
    }
  }

  lemma FreeStep(f: Floor, g: Floor, k: nat)
    requires k < |f.workers| && NoTwice(f.workers) && Tracked(g) && Freed(f, g, k)
    ensures Freed(f, WorkOne(g, k), k + 1)
  {
    if f.workers[k].Some? {
      var t := f.workers[k].value;
      assert forall j :: 0 <= j < k && f.workers[j].Some? ==> f.workers[j].value != t;
    }
  }

  lemma FinishStep(f: Floor, g: Floor, k: nat)
    requires k < |f.workers| && Tracked(f) && NoTwice(f.workers) && Tracked(g) && Worked(f, g, k)
    ensures Finished(f, WorkOne(g, k), k + 1)
  {
    assert f.workers[..k + 1] == f.workers[..k] + [f.workers[k]];
    if f.workers[k].Some? {
      HeldOnce(f, k);
    }
  }

  lemma WorkStep(f: Floor, g: Floor, k: nat)
    requires k < |f.workers| && Tracked(f) && NoTwice(f.workers) && Tracked(g) && Worked(f, g, k)
    ensures Worked(f, WorkOne(g, k), k + 1)
  {
    CountStep(f, g, k);
    FreeStep(f, g, k);
    FinishStep(f, g, k);
  }

  lemma WorkedNothing(f: Floor)
    ensures Worked(f, f, 0)
  {
    assert f.workers[..0] == [];
  }

  lemma WorkPhaseStep(f: Floor, k: nat)
    requires 0 < k <= |f.workers| && Tracked(f) && NoTwice(f.workers)
    requires Worked(f, WorkPhase(f, k - 1), k - 1)
    ensures Worked(f, WorkPhase(f, k), k)
  {
    WorkStep(f, WorkPhase(f, k - 1), k - 1);
  }

  /** The work phase exactly, as `Worked` states it. */
  lemma {:induction false} WorkPhaseMeaning(f: Floor, k: nat)
    requires k <= |f.workers| && Tracked(f) && NoTwice(f.workers)
    ensures Worked(f, WorkPhase(f, k), k)
    decreases k
  {
    if k == 0 {
      WorkedNothing(f);
    } else {
      WorkPhaseMeaning(f, k - 1);
      WorkPhaseStep(f, k);
    }
  }

  /** Every busy worker keeps its step through the assignment phase, and a
      worker that gets one gets a step not done, held by no other worker,
      whose dependencies are all completed. */
  lemma {:induction false} AssignPhaseKeeps(f: Floor, nodes: Nodes, steps: seq<char>, k: nat)
    requires k <= |steps| && Tracked(f) && forall t :: t in steps ==> t in f.progress
    requires NoTwice(f.workers) && Busy(f, nodes)
    requires AssignPhase(f, nodes, steps, k).Some?
    ensures NoTwice(AssignPhase(f, nodes, steps, k).value.workers)
    ensures Busy(AssignPhase(f, nodes, steps, k).value, nodes)
    ensures forall w :: 0 <= w < |f.workers| && f.workers[w].Some? ==>
      AssignPhase(f, nodes, steps, k).value.workers[w] == f.workers[w]
    decreases k
  {
    if k > 0 {
      AssignPhaseKeeps(f, nodes, steps, k - 1);
    }
  }

  /** The work phase keeps the invariant. */
  lemma WorkPhaseKeeps(f: Floor, nodes: Nodes)
    requires Inv(f, nodes)
    ensures Inv(WorkPhase(f, |f.workers|), nodes)
    ensures f.completed <= WorkPhase(f, |f.workers|).completed
  {
    WorkPhaseMeaning(f, |f.workers|);
    var g := WorkPhase(f, |f.workers|);
    assert f.workers[..|f.workers|] == f.workers;
    forall t | t in f.completed
      ensures Some(t) !in f.workers
    {
    }
  }

  /** A second of part two keeps the invariant. */
  lemma TickKeeps(f: Floor, nodes: Nodes, steps: seq<char>)
    requires Inv(f, nodes) && forall t :: t in steps ==> t in f.progress
    requires Tick(f, nodes, steps).Some?
    ensures Inv(Tick(f, nodes, steps).value, nodes)
    ensures f.completed <= Tick(f, nodes, steps).value.completed
    ensures forall t :: t in f.progress <==> t in Tick(f, nodes, steps).value.progress
  {
    WorkPhaseKeeps(f, nodes);
    AssignPhaseKeeps(WorkPhase(f, |f.workers|), nodes, steps, |steps|);
  }

  /** A second of part two counts every busy counter above zero down once
      and leaves every other counter alone. */
  lemma TickCounts(f: Floor, nodes: Nodes, steps: seq<char>)
    requires Tracked(f) && NoTwice(f.workers) && forall t :: t in steps ==> t in f.progress
    requires Tick(f, nodes, steps).Some?
    ensures forall t :: t in f.progress ==>
      Tick(f, nodes, steps).value.progress[t] ==
        (if Some(t) in f.workers && f.progress[t] > 0 then f.progress[t] - 1 else f.progress[t])
  {
    WorkPhaseMeaning(f, |f.workers|);
    assert f.workers[..|f.workers|] == f.workers;
  }

  /** The whole loop keeps the invariant. */
  lemma {:induction false} RunKeeps(f: Floor, nodes: Nodes, steps: seq<char>, elapsed: int, fuel: nat)
    requires Inv(f, nodes) && forall t :: t in steps ==> t in f.progress
    ensures Inv(Run(f, nodes, steps, elapsed, fuel).1, nodes)
    decreases fuel
  {
    if Pending(f) && fuel > 0 && Tick(f, nodes, steps).Some? {
      TickKeeps(f, nodes, steps);
      RunKeeps(Tick(f, nodes, steps).value, nodes, steps, elapsed + 1, fuel - 1);
    }
  }

  /** The loop stops with a time only once no counter is above zero, and
      keeps every counter. */
  lemma {:induction false} RunEnds(f: Floor, nodes: Nodes, steps: seq<char>, elapsed: int, fuel: nat)
    requires Tracked(f) && forall t :: t in steps ==> t in f.progress
    ensures forall t :: t in f.progress <==> t in Run(f, nodes, steps, elapsed, fuel).1.progress
    ensures Run(f, nodes, steps, elapsed, fuel).0.Some? ==> !Pending(Run(f, nodes, steps, elapsed, fuel).1)
    decreases fuel
  {
    if Pending(f) && fuel > 0 && Tick(f, nodes, steps).Some? {
      RunEnds(Tick(f, nodes, steps).value, nodes, steps, elapsed + 1, fuel - 1);
    }
  }

  /** When part two reports a time, every step of the order with a
      positive duration is completed, and so are its dependencies: no step
      is left undone and none was completed before what it depends on. */
  lemma PartTwoMeaning(nodes: Nodes, order: seq<char>, fuel: nat)
    ensures Run(Start(order), nodes, Dedup(order), -1, fuel).0.Some? ==>
      forall t :: t in order && Duration(t) > 0 ==>
        (t in Run(Start(order), nodes, Dedup(order), -1, fuel).1.completed && t in nodes &&
         nodes[t] <= Run(Start(order), nodes, Dedup(order), -1, fuel).1.completed)
  {
    StartInv(order, nodes);
    RunKeeps(Start(order), nodes, Dedup(order), -1, fuel);
    RunEnds(Start(order), nodes, Dedup(order), -1, fuel);
  }
}
