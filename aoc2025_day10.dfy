/** Factory (2025, day 10): a machine has indicator lights, all off at
    first, and buttons that each toggle a fixed set of lights.  Lights and
    buttons are bit masks and a press is an exclusive or.  Part one adds
    up, over the machines, the fewest presses that light the pattern a
    machine asks for, found by breadth-first search. */
module Aoc2025Day10 {
  import opened Common

  // ---------------------------------------------------------------------
  // Bit masks

  function Pow2(n: nat): (r: nat)
    ensures r >= 1
  {
    if n == 0 then 1 else 2 * Pow2(n - 1)
  }

  /** Bit i of a mask is set. */
  predicate Bit(n: nat, i: nat)
  {
    if i == 0 then n % 2 == 1 else Bit(n / 2, i - 1)
  }

  /** Python's `^` on non-negative integers. */
  function Xor(a: nat, b: nat): nat
    decreases a + b
  {
    if a == 0 then b
    else if b == 0 then a
    else 2 * Xor(a / 2, b / 2) + (if a % 2 == b % 2 then 0 else 1)
  }

  /** Each bit of `a ^ b` is set when exactly one of the two has it. */
  lemma {:induction false} XorBits(a: nat, b: nat, i: nat)
    ensures Bit(Xor(a, b), i) <==> (Bit(a, i) != Bit(b, i))
    decreases a + b
  {
    if a == 0 {
      ZeroBits(i);
    } else if b == 0 {
      ZeroBits(i);
    } else if i > 0 {
      XorBits(a / 2, b / 2, i - 1);
    }
  }

  lemma {:induction false} ZeroBits(i: nat)
    ensures !Bit(0, i)
  {
    if i > 0 {
      ZeroBits(i - 1);
    }
  }

  /** A mask exclusive-ored with itself is all off. */
  lemma {:induction false} XorSelf(a: nat)
    ensures Xor(a, a) == 0
  {
    if a != 0 {
      XorSelf(a / 2);
    }
  }

  /** Pressing the same button twice leaves the lights as they were. */
  lemma {:induction false} XorTwice(a: nat, b: nat)
    ensures Xor(Xor(a, b), b) == a
    decreases a + b
  {
    if a == 0 {
      XorSelf(b);
    } else if b != 0 {
      XorTwice(a / 2, b / 2);
    }
  }

  /** Masks below a power of two stay below it. */
  lemma {:induction false} XorBelow(a: nat, b: nat, k: nat)
    requires a < Pow2(k) && b < Pow2(k)
    ensures Xor(a, b) < Pow2(k)
    decreases a + b
  {
    if a != 0 && b != 0 {
      XorBelow(a / 2, b / 2, k - 1);
    }
  }

  /** A power of two above every one of the masks. */
  ghost function Bound(masks: seq<nat>): (r: nat)
    ensures exists k :: r == Pow2(k)
    ensures forall i :: 0 <= i < |masks| ==> masks[i] < r
  {
    if masks == [] then Pow2(0)
    else
      var rest := Bound(masks[1..]);
      var k :| rest == Pow2(k);
      assert forall i :: 1 <= i < |masks| ==> masks[i] == masks[1..][i - 1];
      if masks[0] < rest then rest
      else
        Grows(masks[0], k);
        var j :| masks[0] < Pow2(j) && j >= k;
        PowMonotone(k, j);
        Pow2(j)
  }

  lemma {:induction false} Grows(n: nat, k: nat)
    ensures exists j :: j >= k && n < Pow2(j)
    decreases n
  {
    if n >= Pow2(k) {
      Grows(n / 2, k);
      var j :| j >= k && n / 2 < Pow2(j);
      assert n < Pow2(j + 1);
    }
  }

  lemma {:induction false} PowMonotone(k: nat, j: nat)
    requires k <= j
    ensures Pow2(k) <= Pow2(j)
  {
    if k < j {
      PowMonotone(k, j - 1);
    }
  }

  // ---------------------------------------------------------------------
  // The light pattern

  /** `int(s, 2)`: binary digits, most significant first. */
  function BinaryValue(digits: seq<nat>): nat
  {
    if digits == [] then 0 else 2 * BinaryValue(digits[..|digits| - 1]) + digits[|digits| - 1]
  }

  function Reverse(s: seq<nat>): (r: seq<nat>)
    ensures |r| == |s|
  {
    if s == [] then [] else Reverse(s[1..]) + [s[0]]
  }

  /** The light pattern as the parser reads it: `#` is 1, `.` is 0, the
      digits reversed and read in base two. */
  function LightValue(pattern: seq<char>): nat
  {
    BinaryValue(Reverse(seq(|pattern|, i requires 0 <= i < |pattern| =>
      if pattern[i] == '#' then 1 else 0)))
  }

  /** The bits of a pattern read least significant first. */
  function LowFirst(digits: seq<nat>): nat
  {
    if digits == [] then 0 else digits[0] + 2 * LowFirst(digits[1..])
  }

  lemma {:induction false} ReverseValue(digits: seq<nat>)
    ensures BinaryValue(Reverse(digits)) == LowFirst(digits)
  {
    if digits != [] {
      ReverseValue(digits[1..]);
      var r := Reverse(digits[1..]) + [digits[0]];
      assert r[..|r| - 1] == Reverse(digits[1..]);
    }
  }

  lemma {:induction false} LowFirstBits(digits: seq<nat>, i: nat)
    requires forall k :: 0 <= k < |digits| ==> digits[k] <= 1
    requires i < |digits|
    ensures Bit(LowFirst(digits), i) <==> digits[i] == 1
  {
    if i > 0 {
      LowFirstBits(digits[1..], i - 1);
    }
  }

  /** Light i of the pattern, counted from the left, is bit i of the
      mask: the first character is the low bit. */
  lemma LightBits(pattern: seq<char>, i: nat)
    requires i < |pattern|
    ensures Bit(LightValue(pattern), i) <==> pattern[i] == '#'
  {
    var digits := seq(|pattern|, k requires 0 <= k < |pattern| => if pattern[k] == '#' then 1 else 0);
    ReverseValue(digits);
    LowFirstBits(digits, i);
  }

  // ---------------------------------------------------------------------
  // Presses

  /** `get_possible_states`: the state after each one of the buttons.
      Each possible state leads back with the same button: a press is
      undone by pressing again. */
  function PossibleStates(light: nat, buttons: seq<nat>): (r: seq<nat>)
    ensures |r| == |buttons|
    ensures forall i :: 0 <= i < |r| ==> Xor(r[i], buttons[i]) == light
  {
    var r := seq(|buttons|, i requires 0 <= i < |buttons| => Xor(light, buttons[i]));
    assert forall i :: 0 <= i < |r| ==> Xor(r[i], buttons[i]) == light by {
      forall i | 0 <= i < |r| ensures Xor(r[i], buttons[i]) == light {
        XorTwice(light, buttons[i]);
      }
    }
    r
  }

  /** A sequence of presses, each the index of one of `count` buttons. */
  predicate ValidPresses(count: nat, presses: seq<nat>)
  {
    forall i :: 0 <= i < |presses| ==> presses[i] < count
  }

  /** The lights after the presses, starting all off. */
  function Apply(buttons: seq<nat>, presses: seq<nat>): nat
    requires ValidPresses(|buttons|, presses)
  {
    if presses == [] then 0
    else Xor(Apply(buttons, presses[..|presses| - 1]), buttons[presses[|presses| - 1]])
  }

  predicate Reaches(light: nat, buttons: seq<nat>, presses: seq<nat>)
  {
    ValidPresses(|buttons|, presses) && Apply(buttons, presses) == light
  }

  /** `r` is the fewest presses that light the pattern, or -1 when no
      presses do. */
  ghost predicate Fewest(light: nat, buttons: seq<nat>, r: int)
  {
    if r >= 0 then
      (exists p :: Reaches(light, buttons, p) && |p| == r) &&
      forall p :: Reaches(light, buttons, p) ==> |p| >= r
    else
      r == -1 && forall p :: !Reaches(light, buttons, p)
  }

  /** There is only one fewest number of presses. */
  lemma FewestUnique(light: nat, buttons: seq<nat>, r1: int, r2: int)
    requires Fewest(light, buttons, r1) && Fewest(light, buttons, r2)
    ensures r1 == r2
  {
    if r1 >= 0 && r2 >= 0 {
      var p1 :| Reaches(light, buttons, p1) && |p1| == r1;
      var p2 :| Reaches(light, buttons, p2) && |p2| == r2;
    }
  }

  // ---------------------------------------------------------------------
  // The breadth-first search, over any step function from a state and a
  // button index to a state

  /** The state after the presses, from state 0, one step each. */
  function Walk(step: (nat, nat) -> nat, presses: seq<nat>): nat
  {
    if presses == [] then 0 else step(Walk(step, presses[..|presses| - 1]), presses[|presses| - 1])
  }

  /** `step` presses the machine's buttons: button `b` toggles the lights
      of `buttons[b]`. */
  ghost predicate Presses(step: (nat, nat) -> nat, buttons: seq<nat>)
  {
    forall x: nat, b: nat {:trigger Xor(x, buttons[b])} :: b < |buttons| ==> step(x, b) == Xor(x, buttons[b])
  }

  /** Such a step exists. */
  lemma PressStep(buttons: seq<nat>) returns (step: (nat, nat) -> nat)
    ensures Presses(step, buttons)
  {
    step := (x: nat, b: nat) => if b < |buttons| then Xor(x, buttons[b]) else x;
  }

  lemma {:induction false} ApplyIsWalk(step: (nat, nat) -> nat, buttons: seq<nat>, presses: seq<nat>)
    requires Presses(step, buttons) && ValidPresses(|buttons|, presses)
    ensures Apply(buttons, presses) == Walk(step, presses)
  {
    if presses != [] {
      ApplyIsWalk(step, buttons, presses[..|presses| - 1]);
    }
  }

  /** `r` is the fewest steps that walk to `light`, or -1 when none do. */
  ghost predicate FewestWalk(step: (nat, nat) -> nat, count: nat, light: nat, r: int)
  {
    if r >= 0 then
      (exists p :: ValidPresses(count, p) && Walk(step, p) == light && |p| == r) &&
      forall p :: ValidPresses(count, p) && Walk(step, p) == light ==> |p| >= r
    else
      r == -1 && forall p :: ValidPresses(count, p) ==> Walk(step, p) != light
  }

  lemma FewestOfWalk(light: nat, step: (nat, nat) -> nat, buttons: seq<nat>, r: int)
    requires Presses(step, buttons) && FewestWalk(step, |buttons|, light, r)
    ensures Fewest(light, buttons, r)
  {
    forall p | ValidPresses(|buttons|, p)
      ensures Apply(buttons, p) == Walk(step, p)
    {
      ApplyIsWalk(step, buttons, p);
    }
  }

  /** The states waiting in the queue. */
  function States(queue: seq<(nat, nat)>): set<nat>
  {
    set e | e in queue :: e.0
  }

  /** How the search first reached a state: after `depth` presses, the
      last one button `button` from state `parent`. */
  datatype Node = Node(depth: nat, parent: nat, button: nat)

  /** The node of `x` links it to a parent one press nearer state 0. */
  ghost predicate Linked(step: (nat, nat) -> nat, count: nat, tree: map<nat, Node>, x: nat)
    requires x in tree
  {
    tree[x].parent in tree && tree[x].button < count && step(tree[x].parent, tree[x].button) == x &&
    tree[x].depth == tree[tree[x].parent].depth + 1
  }

  /** Every visited state is linked back to state 0. */
  ghost predicate Witnessed(step: (nat, nat) -> nat, count: nat, visited: set<nat>, tree: map<nat, Node>)
  {
    visited == tree.Keys && 0 in tree && tree[0].depth == 0 &&
    forall x :: x in tree && x != 0 ==> Linked(step, count, tree, x)
  }

  /** Following the links gives presses that walk to the state, as many
      as its depth. */
  lemma {:induction false} PathTo(step: (nat, nat) -> nat, count: nat, visited: set<nat>, tree: map<nat, Node>, x: nat)
      returns (p: seq<nat>)
    requires Witnessed(step, count, visited, tree) && x in tree
    ensures ValidPresses(count, p) && Walk(step, p) == x && |p| == tree[x].depth
    decreases tree[x].depth
  {
    if x == 0 {
      p := [];
    } else {
      assert Linked(step, count, tree, x);
      var q := PathTo(step, count, visited, tree, tree[x].parent);
      p := q + [tree[x].button];
      assert p[..|p| - 1] == q;
    }
  }

  /** The queue holds unprocessed visited states, each once, with their
      depths, in order, all at `level` or one more. */
  ghost predicate Layered(queue: seq<(nat, nat)>, tree: map<nat, Node>, processed: set<nat>, level: nat)
  {
    (forall i :: 0 <= i < |queue| ==>
      queue[i].0 in tree && queue[i].1 == tree[queue[i].0].depth && level <= queue[i].1 <= level + 1 &&
      queue[i].0 !in processed) &&
    (forall i, j :: 0 <= i < j < |queue| ==> queue[i].1 <= queue[j].1 && queue[i].0 != queue[j].0) &&
    (forall x :: x in processed ==> x in tree && tree[x].depth <= level)
  }

  /** Every neighbour of a processed state is visited, at most one press
      further. */
  ghost predicate Closed(step: (nat, nat) -> nat, count: nat, tree: map<nat, Node>, processed: set<nat>)
  {
    forall x :: x in processed ==> (x in tree &&
      forall b :: 0 <= b < count ==> step(x, b) in tree && tree[step(x, b)].depth <= tree[x].depth + 1)
  }

  /** The states one step away from those of `states`. */
  ghost function Next(step: (nat, nat) -> nat, count: nat, states: set<nat>): set<nat>
  {
    set x, b | x in states && 0 <= b < count :: step(x, b)
  }

  /** The states at most `k` steps away from state 0. */
  ghost function Within(step: (nat, nat) -> nat, count: nat, k: nat): set<nat>
  {
    if k == 0 then {0} else Within(step, count, k - 1) + Next(step, count, Within(step, count, k - 1))
  }

  /** Any presses end in a state within their number of steps. */
  lemma {:induction false} WalkWithin(step: (nat, nat) -> nat, count: nat, p: seq<nat>)
    requires ValidPresses(count, p)
    ensures Walk(step, p) in Within(step, count, |p|)
  {
    if p != [] {
      var init := p[..|p| - 1];
      assert ValidPresses(count, init);
      WalkWithin(step, count, init);
      var x, b := Walk(step, init), p[|p| - 1];
      assert step(x, b) in Next(step, count, Within(step, count, |init|));
    }
  }

  /** Whatever fewer than `level` steps reach has been processed, at a
      depth no greater than that. */
  ghost predicate Settled(step: (nat, nat) -> nat, count: nat, tree: map<nat, Node>, processed: set<nat>, level: nat)
  {
    forall k, x :: 0 <= k < level && x in Within(step, count, k) ==>
      x in processed && x in tree && tree[x].depth <= k
  }

  /** The invariant of the search loop. */
  ghost predicate Searching(light: nat, step: (nat, nat) -> nat, count: nat, queue: seq<(nat, nat)>,
                            visited: set<nat>, tree: map<nat, Node>, processed: set<nat>, level: nat)
  {
    Witnessed(step, count, visited, tree) &&
    visited == processed + States(queue) &&
    Layered(queue, tree, processed, level) &&
    Closed(step, count, tree, processed) &&
    Settled(step, count, tree, processed, level) &&
    light !in processed
  }

  /** Taking the next state off the queue: its depth becomes the level,
      and everything fewer steps reach is already processed. */
  lemma NextLevel(light: nat, step: (nat, nat) -> nat, count: nat, queue: seq<(nat, nat)>, visited: set<nat>,
                  tree: map<nat, Node>, processed: set<nat>, level: nat)
    requires queue != []
    requires Searching(light, step, count, queue, visited, tree, processed, level)
    ensures Searching(light, step, count, queue, visited, tree, processed, queue[0].1)
  {
    assert Layered(queue, tree, processed, level);
    assert level <= queue[0].1 <= level + 1;
    if queue[0].1 != level {
      Promoted(queue, visited, tree, processed, level);
      SettleLevel(step, count, visited, tree, processed, level);
      Relayered(queue, tree, processed, level);
    }
  }

  /** The queue is layered at the level of its head. */
  lemma Relayered(queue: seq<(nat, nat)>, tree: map<nat, Node>, processed: set<nat>, level: nat)
    requires queue != [] && queue[0].1 == level + 1
    requires Layered(queue, tree, processed, level)
    ensures Layered(queue, tree, processed, level + 1)
  {
    forall i | 0 < i < |queue|
      ensures level + 1 <= queue[i].1
    {
      assert queue[0].1 <= queue[i].1;
    }
  }

  /** When the head of the queue is one press past the level, every
      visited state at the level or nearer has been processed. */
  lemma Promoted(queue: seq<(nat, nat)>, visited: set<nat>, tree: map<nat, Node>, processed: set<nat>, level: nat)
    requires queue != [] && queue[0].1 == level + 1
    requires Layered(queue, tree, processed, level) && visited == processed + States(queue)
    ensures forall x :: x in visited && x in tree && tree[x].depth <= level ==> x in processed
  {
  }

  /** The states within the level are then settled too. */
  lemma SettleLevel(step: (nat, nat) -> nat, count: nat, visited: set<nat>, tree: map<nat, Node>,
                    processed: set<nat>, level: nat)
    requires 0 in visited && visited == tree.Keys && tree[0].depth == 0 && processed <= visited
    requires Closed(step, count, tree, processed) && Settled(step, count, tree, processed, level)
    requires forall x :: x in visited && x in tree && tree[x].depth <= level ==> x in processed
    ensures Settled(step, count, tree, processed, level + 1)
  {
    forall k, x | 0 <= k < level + 1 && x in Within(step, count, k)
      ensures x in processed && x in tree && tree[x].depth <= k
    {
      if k == level {
        if level == 0 {
          assert x == 0;
        } else if x !in Within(step, count, level - 1) {
          var y, b :| y in Within(step, count, level - 1) && 0 <= b < count && x == step(y, b);
          assert y in processed && tree[y].depth <= level - 1;
        }
      }
    }
  }

  /** Fewer steps than the level never reach the pattern while it is
      unprocessed: the state just taken off the queue is the fewest. */
  lemma FoundFewest(light: nat, step: (nat, nat) -> nat, count: nat, visited: set<nat>, tree: map<nat, Node>,
                    processed: set<nat>, level: nat)
    requires Witnessed(step, count, visited, tree)
    requires light in tree && tree[light].depth == level
    requires Settled(step, count, tree, processed, level) && light !in processed
    ensures FewestWalk(step, count, light, level)
  {
    var p := PathTo(step, count, visited, tree, light);
    forall p | ValidPresses(count, p) && Walk(step, p) == light
      ensures |p| >= level
    {
      WalkWithin(step, count, p);
    }
  }

  /** With the queue empty, every state any presses reach has been
      processed, the pattern never among them. */
  lemma {:induction false} Exhausted(step: (nat, nat) -> nat, count: nat, tree: map<nat, Node>,
                                     processed: set<nat>, p: seq<nat>)
    requires 0 in tree && tree.Keys == processed
    requires Closed(step, count, tree, processed)
    requires ValidPresses(count, p)
    ensures Walk(step, p) in processed
  {
    if p != [] {
      var init := p[..|p| - 1];
      assert ValidPresses(count, init);
      Exhausted(step, count, tree, processed, init);
    }
  }

  /** The search starts from state 0 alone, at depth 0. */
  lemma SearchStarts(light: nat, step: (nat, nat) -> nat, count: nat)
    ensures Searching(light, step, count, [(0, 0)], {0}, map[0 := Node(0, 0, 0)], {}, 0)
  {
    assert States([(0, 0)]) == {0};
  }

  /** A search whose queue runs dry never reaches the pattern. */
  lemma SearchExhausted(light: nat, step: (nat, nat) -> nat, count: nat, visited: set<nat>,
                        tree: map<nat, Node>, processed: set<nat>, level: nat)
    requires Searching(light, step, count, [], visited, tree, processed, level)
    ensures FewestWalk(step, count, light, -1)
  {
    assert States([]) == {};
    forall p | ValidPresses(count, p)
      ensures Walk(step, p) != light
    {
      Exhausted(step, count, tree, processed, p);
    }
  }

  /** The invariant while the neighbours of `state`, taken off the queue
      at depth `presses`, are visited: those of the first `j` buttons are. */
  ghost predicate Expanding(light: nat, step: (nat, nat) -> nat, count: nat, state: nat, presses: nat,
                            queue: seq<(nat, nat)>, visited: set<nat>, tree: map<nat, Node>,
                            processed: set<nat>, j: nat)
  {
    Witnessed(step, count, visited, tree) &&
    visited == processed + {state} + States(queue) && state !in States(queue) && state !in processed &&
    Layered(queue, tree, processed, presses) &&
    state in tree && tree[state].depth == presses &&
    Closed(step, count, tree, processed) &&
    Settled(step, count, tree, processed, presses) &&
    light !in processed && state != light &&
    forall b :: 0 <= b < j && b < count ==> step(state, b) in tree && tree[step(state, b)].depth <= presses + 1
  }

  lemma StartExpand(light: nat, step: (nat, nat) -> nat, count: nat, queue: seq<(nat, nat)>, visited: set<nat>,
                    tree: map<nat, Node>, processed: set<nat>)
    requires queue != [] && queue[0].0 != light
    requires Searching(light, step, count, queue, visited, tree, processed, queue[0].1)
    ensures Expanding(light, step, count, queue[0].0, queue[0].1, queue[1..], visited, tree, processed, 0)
  {
    Dequeue(queue, tree, processed, queue[0].1);
  }

  /** The rest of a layered queue is layered and no longer holds its head. */
  lemma Dequeue(queue: seq<(nat, nat)>, tree: map<nat, Node>, processed: set<nat>, level: nat)
    requires queue != [] && Layered(queue, tree, processed, level)
    ensures Layered(queue[1..], tree, processed, level)
    ensures States(queue) == {queue[0].0} + States(queue[1..]) && queue[0].0 !in States(queue[1..])
  {
    var rest := queue[1..];
    assert queue == [queue[0]] + rest;
    assert States(queue) == {queue[0].0} + States(rest);
    forall e | e in rest
      ensures e.0 != queue[0].0
    {
      var i :| 0 <= i < |rest| && rest[i] == e;
      assert queue[i + 1] == e;
    }
  }

  /** A neighbour not yet visited: linked to the state, marked, and
      queued one press further. */
  lemma AddState(light: nat, step: (nat, nat) -> nat, count: nat, state: nat, presses: nat,
                 queue: seq<(nat, nat)>, visited: set<nat>, tree: map<nat, Node>, processed: set<nat>, j: nat)
    requires j < count
    requires Expanding(light, step, count, state, presses, queue, visited, tree, processed, j)
    requires step(state, j) !in visited
    ensures Expanding(light, step, count, state, presses, queue + [(step(state, j), presses + 1)],
      visited + {step(state, j)}, tree[step(state, j) := Node(presses + 1, state, j)], processed, j + 1)
  {
    var n, node := step(state, j), Node(presses + 1, state, j);
    assert States(queue + [(n, presses + 1)]) == States(queue) + {n};
    LinkState(step, count, visited, tree, state, j, node);
    Enqueue(queue, tree, processed, presses, n, node);
    GrowTree(step, count, tree, processed, presses, n, node);
    Reached(step, count, tree, state, presses, j, node);
  }

  /** The neighbours of the first `j + 1` buttons are visited once the
      last of them is. */
  lemma Reached(step: (nat, nat) -> nat, count: nat, tree: map<nat, Node>, state: nat, presses: nat, j: nat,
                node: Node)
    requires forall b :: 0 <= b < j && b < count ==> step(state, b) in tree && tree[step(state, b)].depth <= presses + 1
    requires step(state, j) !in tree && node.depth == presses + 1
    ensures forall b :: 0 <= b < j + 1 && b < count ==>
      step(state, b) in tree[step(state, j) := node] && tree[step(state, j) := node][step(state, b)].depth <= presses + 1
  {
  }

  /** A new node leaves what is processed closed and settled. */
  lemma GrowTree(step: (nat, nat) -> nat, count: nat, tree: map<nat, Node>, processed: set<nat>, level: nat,
                 n: nat, node: Node)
    requires n !in tree
    requires Closed(step, count, tree, processed) && Settled(step, count, tree, processed, level)
    ensures Closed(step, count, tree[n := node], processed) && Settled(step, count, tree[n := node], processed, level)
  {
  }

  /** Linking a new state to a visited one keeps every state linked. */
  lemma LinkState(step: (nat, nat) -> nat, count: nat, visited: set<nat>, tree: map<nat, Node>, state: nat, j: nat,
                  node: Node)
    requires Witnessed(step, count, visited, tree)
    requires state in tree && j < count && step(state, j) !in tree
    requires node == Node(tree[state].depth + 1, state, j)
    ensures Witnessed(step, count, visited + {step(state, j)}, tree[step(state, j) := node])
  {
    var n := step(state, j);
    var t := tree[n := node];
    assert Linked(step, count, t, n);
    forall x | x in t && x != 0
      ensures Linked(step, count, t, x)
    {
      if x != n {
        assert Linked(step, count, tree, x);
      }
    }
  }

  /** A state not yet visited, queued one press past the level. */
  lemma Enqueue(queue: seq<(nat, nat)>, tree: map<nat, Node>, processed: set<nat>, level: nat,
                n: nat, node: Node)
    requires Layered(queue, tree, processed, level)
    requires n !in tree && n !in processed && node.depth == level + 1
    ensures Layered(queue + [(n, level + 1)], tree[n := node], processed, level)
  {
    var q := queue + [(n, level + 1)];
    forall i, j | 0 <= i < j < |q|
      ensures q[i].1 <= q[j].1 && q[i].0 != q[j].0
    {
      if j == |queue| {
        assert q[i] == queue[i];
      }
    }
  }

  /** A neighbour already visited is at most one press further. */
  lemma SkipState(light: nat, step: (nat, nat) -> nat, count: nat, state: nat, presses: nat,
                  queue: seq<(nat, nat)>, visited: set<nat>, tree: map<nat, Node>, processed: set<nat>, j: nat)
    requires j < count
    requires Expanding(light, step, count, state, presses, queue, visited, tree, processed, j)
    requires step(state, j) in visited
    ensures Expanding(light, step, count, state, presses, queue, visited, tree, processed, j + 1)
  {
    var n := step(state, j);
    if n !in processed && n != state {
      assert n in States(queue);
      var e :| e in queue && e.0 == n;
      var i :| 0 <= i < |queue| && queue[i] == e;
    }
  }

  /** All neighbours visited: the state is processed. */
  lemma FinishExpand(light: nat, step: (nat, nat) -> nat, count: nat, state: nat, presses: nat,
                     queue: seq<(nat, nat)>, visited: set<nat>, tree: map<nat, Node>, processed: set<nat>)
    requires Expanding(light, step, count, state, presses, queue, visited, tree, processed, count)
    ensures Searching(light, step, count, queue, visited, tree, processed + {state}, presses)
  {
    LayeredAdd(queue, tree, processed, presses, state);
    assert Closed(step, count, tree, processed + {state});
    SettledAdd(step, count, tree, processed, presses, state);
  }

  /** Processing one more state keeps what was settled settled. */
  lemma SettledAdd(step: (nat, nat) -> nat, count: nat, tree: map<nat, Node>, processed: set<nat>, level: nat,
                   state: nat)
    requires Settled(step, count, tree, processed, level)
    ensures Settled(step, count, tree, processed + {state}, level)
  {
    forall k, x | 0 <= k < level && x in Within(step, count, k)
      ensures x in processed + {state} && x in tree && tree[x].depth <= k
    {
    }
  }

  /** A state not in the queue, at most at the level, can be processed. */
  lemma LayeredAdd(queue: seq<(nat, nat)>, tree: map<nat, Node>, processed: set<nat>, level: nat, state: nat)
    requires Layered(queue, tree, processed, level)
    requires state !in States(queue) && state in tree && tree[state].depth <= level
    ensures Layered(queue, tree, processed + {state}, level)
  {
    forall i | 0 <= i < |queue|
      ensures queue[i].0 != state
    {
      assert queue[i].0 in States(queue);
    }
  }

  /** One turn of the `for` loop over `get_possible_states`: the state
      that button `j` leads to, marked visited and queued one press
      further unless already visited. */
  method Visit(light: nat, buttons: seq<nat>, ghost step: (nat, nat) -> nat, state: nat, presses: nat, j: nat,
               queue0: seq<(nat, nat)>, visited0: set<nat>, ghost tree0: map<nat, Node>,
               ghost processed: set<nat>, ghost bound: nat)
    returns (queue: seq<(nat, nat)>, visited: set<nat>, ghost tree: map<nat, Node>)
    requires j < |buttons| && Presses(step, buttons)
    requires Expanding(light, step, |buttons|, state, presses, queue0, visited0, tree0, processed, j)
    requires forall i :: 0 <= i < |buttons| ==> buttons[i] < bound
    requires state < bound && exists k :: bound == Pow2(k)
    requires forall x :: x in visited0 ==> x < bound
    ensures Expanding(light, step, |buttons|, state, presses, queue, visited, tree, processed, j + 1)
    ensures visited0 <= visited && forall x :: x in visited ==> x < bound
    ensures visited == visited0 ==> queue == queue0
    ensures var n := Xor(state, buttons[j]);
      visited == (if n in visited0 then visited0 else visited0 + {n})
      && queue == (if n in visited0 then queue0 else queue0 + [(n, presses + 1)])
  {
    var newState := PossibleStates(state, buttons)[j];
    assert newState == step(state, j);
    if newState !in visited0 {
      AddState(light, step, |buttons|, state, presses, queue0, visited0, tree0, processed, j);
      ghost var k :| bound == Pow2(k);
      XorBelow(state, buttons[j], k);
      var entry: (nat, nat) := (newState, presses + 1);
      visited := visited0 + {newState};
      tree := tree0[newState := Node(presses + 1, state, j)];
      queue := queue0 + [entry];
    } else {
      SkipState(light, step, |buttons|, state, presses, queue0, visited0, tree0, processed, j);
      queue, visited, tree := queue0, visited0, tree0;
    }
  }

  /** The `for` loop over `get_possible_states`: every new state marked
      visited and queued one press further. */
  method Expand(light: nat, buttons: seq<nat>, ghost step: (nat, nat) -> nat, state: nat, presses: nat,
                queue0: seq<(nat, nat)>, visited0: set<nat>, ghost tree0: map<nat, Node>,
                ghost processed: set<nat>, ghost bound: nat)
    returns (queue: seq<(nat, nat)>, visited: set<nat>, ghost tree: map<nat, Node>)
    requires Presses(step, buttons)
    requires Expanding(light, step, |buttons|, state, presses, queue0, visited0, tree0, processed, 0)
    requires forall i :: 0 <= i < |buttons| ==> buttons[i] < bound
    requires state < bound && exists k :: bound == Pow2(k)
    requires forall x :: x in visited0 ==> x < bound
    ensures Searching(light, step, |buttons|, queue, visited, tree, processed + {state}, presses)
    ensures visited0 <= visited && forall x :: x in visited ==> x < bound
    ensures visited == visited0 ==> queue == queue0
  {
    queue, visited, tree := queue0, visited0, tree0;
    for j := 0 to |buttons|
      invariant Expanding(light, step, |buttons|, state, presses, queue, visited, tree, processed, j)
      invariant visited0 <= visited && forall x :: x in visited ==> x < bound
      invariant visited == visited0 ==> queue == queue0
    {
      queue, visited, tree := Visit(light, buttons, step, state, presses, j, queue, visited, tree, processed, bound);
    }
    FinishExpand(light, step, |buttons|, state, presses, queue, visited, tree, processed);
  }

  /** The rest of a turn of the `while` loop of `get_fewer_presses`, once
      the head of the queue is not the pattern: its neighbours visited and
      the state processed. */
  method Advance(light: nat, buttons: seq<nat>, ghost step: (nat, nat) -> nat,
                 queue0: seq<(nat, nat)>, visited0: set<nat>, ghost tree0: map<nat, Node>,
                 ghost processed0: set<nat>, ghost bound: nat)
    returns (queue: seq<(nat, nat)>, visited: set<nat>, ghost tree: map<nat, Node>, ghost processed: set<nat>)
    requires Presses(step, buttons) && queue0 != [] && queue0[0].0 != light
    requires Searching(light, step, |buttons|, queue0, visited0, tree0, processed0, queue0[0].1)
    requires forall i :: 0 <= i < |buttons| ==> buttons[i] < bound
    requires exists k :: bound == Pow2(k)
    requires forall x :: x in visited0 ==> x < bound
    ensures Searching(light, step, |buttons|, queue, visited, tree, processed, queue0[0].1)
    ensures forall x :: x in visited ==> x < bound
    ensures |visited| <= bound
    ensures |visited0| < |visited| || (visited == visited0 && |queue| < |queue0|)
  {
    var state, presses := queue0[0].0, queue0[0].1;
    StartExpand(light, step, |buttons|, queue0, visited0, tree0, processed0);
    assert state in visited0;
    queue, visited, tree := Expand(light, buttons, step, state, presses, queue0[1..], visited0, tree0, processed0, bound);
    processed := processed0 + {state};
    CardBelow(visited, bound);
    if visited != visited0 {
      SetGrows(visited0, visited);
    }
  }

  /** `get_fewer_presses`: breadth-first search from all lights off, each
      state queued once, up to the pattern; -1 when the search runs out. */
  method GetFewerPresses(light: nat, buttons: seq<nat>) returns (r: int)
    ensures Fewest(light, buttons, r)
  {
    ghost var step := PressStep(buttons);
    ghost var bound := Bound(buttons);
    var queue: seq<(nat, nat)> := [(0, 0)];
    var visited: set<nat> := {0};
    ghost var tree: map<nat, Node> := map[0 := Node(0, 0, 0)];
    ghost var processed: set<nat> := {};
    ghost var level: nat := 0;
    SearchStarts(light, step, |buttons|);
    CardBelow(visited, bound);
    while queue != []
      invariant Searching(light, step, |buttons|, queue, visited, tree, processed, level)
      invariant forall x :: x in visited ==> x < bound
      invariant |visited| <= bound
      decreases bound - |visited|, |queue|
    {
      NextLevel(light, step, |buttons|, queue, visited, tree, processed, level);
      var state, presses := queue[0].0, queue[0].1;
      level := presses;
      if state == light {
        FoundFewest(light, step, |buttons|, visited, tree, processed, level);
        FewestOfWalk(light, step, buttons, presses);
        return presses;
      }
      queue, visited, tree, processed := Advance(light, buttons, step, queue, visited, tree, processed, bound);
    }
    SearchExhausted(light, step, |buttons|, visited, tree, processed, level);
    FewestOfWalk(light, step, buttons, -1);
    return -1;
  }

  /** A set that gains an element grows. */
  lemma SetGrows(a: set<nat>, b: set<nat>)
    requires a <= b && a != b
    ensures |a| < |b|
  {
    var x :| x in b && x !in a;
    assert b == a + (b - a);
    assert x in b - a;
  }

  /** A set of naturals below `n` has at most `n` elements. */
  lemma {:induction false} CardBelow(s: set<nat>, n: nat)
    requires forall x :: x in s ==> x < n
    ensures |s| <= n
  {
    if n > 0 {
      CardBelow(s - {n - 1}, n - 1);
    }
  }

  /** `part_one`: the fewest presses of every machine, added up (an
      unreachable pattern adds -1). */
  method PartOne(lights: seq<nat>, buttons: seq<seq<nat>>) returns (total: int)
    requires |lights| == |buttons|
    ensures exists rs: seq<int> :: (|rs| == |lights| && total == Sum(rs) &&
      forall i :: 0 <= i < |rs| ==> Fewest(lights[i], buttons[i], rs[i]))
  {
    total := 0;
    ghost var rs: seq<int> := [];
    for i := 0 to |lights|
      invariant |rs| == i && total == Sum(rs)
      invariant forall k :: 0 <= k < i ==> Fewest(lights[k], buttons[k], rs[k])
    {
      var r := GetFewerPresses(lights[i], buttons[i]);
      SumAppend(rs, [r]);
      rs := rs + [r];
      total := total + r;
    }
  }
}
