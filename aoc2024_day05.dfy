/** Print queue (2024, day 5): page-ordering rules (a, b) say that page a
    must be printed before page b when an update holds both.  Part one sums
    the middle pages of the updates that break no rule; part two sorts every
    update with a comparator built from the rules and sums the middle pages
    of the updates the sort changed. */
module Aoc2024Day05 {
  import opened Common

  /** A page number (`u8` in the source). */
  type Page = int

  /** An ordering rule `(left, right)`: left comes before right. */
  type Rule = (Page, Page)

  /** `update.iter().position(|&x| x == page)`: the first index holding the
      page. */
  function Position(update: seq<Page>, page: Page): (r: Option<nat>)
    ensures r.Some? ==> (r.value < |update| && update[r.value] == page
      && forall j :: 0 <= j < r.value ==> update[j] != page)
    ensures r.None? ==> page !in update
  {
    if update == [] then None
    else if update[0] == page then Some(0)
    else
      match Position(update[1..], page)
      case None => None
      case Some(i) => Some(i + 1)
  }

  /** The update holds both pages of the rule, right before left. */
  predicate Breaks(rule: Rule, update: seq<Page>)
  {
    var left, right := Position(update, rule.0), Position(update, rule.1);
    left.Some? && right.Some? && left.value > right.value
  }

  /** `is_update_valid`: the loop over the rules returns false at the first
      rule broken. */
  predicate IsUpdateValid(rules: seq<Rule>, update: seq<Page>)
  {
    if rules == [] then true
    else if Breaks(rules[0], update) then false
    else IsUpdateValid(rules[1..], update)
  }

  /** An update is valid exactly when it breaks none of the rules. */
  lemma {:induction false} ValidIffNoBrokenRule(rules: seq<Rule>, update: seq<Page>)
    ensures IsUpdateValid(rules, update) <==> forall k :: 0 <= k < |rules| ==> !Breaks(rules[k], update)
  {
    if rules != [] {
      ValidIffNoBrokenRule(rules[1..], update);
      assert forall k :: 1 <= k < |rules| ==> rules[k] == rules[1..][k - 1];
    }
  }

  datatype Ordering = Less | Equal | Greater

  /** `custom_compare`: the first rule naming both pages decides, Less when
      it puts a first and Greater when it puts b first; Equal when no rule
      names them. */
  function Compare(a: Page, b: Page, rules: seq<Rule>): Ordering
  {
    if rules == [] then Equal
    else if rules[0] == (a, b) then Less
    else if rules[0] == (b, a) then Greater
    else Compare(a, b, rules[1..])
  }

  /** Less only for a rule (a, b), Greater only for a rule (b, a), and
      Equal exactly when no rule names the two pages. */
  lemma {:induction false} CompareMeaning(a: Page, b: Page, rules: seq<Rule>)
    ensures Compare(a, b, rules) == Less ==> (a, b) in rules
    ensures Compare(a, b, rules) == Greater ==> (b, a) in rules
    ensures Compare(a, b, rules) == Equal <==> (a, b) !in rules && (b, a) !in rules
  {
    if rules != [] {
      CompareMeaning(a, b, rules[1..]);
      assert rules == [rules[0]] + rules[1..];
    }
  }

  /** Swapping the pages swaps Less and Greater: the same first rule
      decides both comparisons. */
  lemma {:induction false} CompareFlip(a: Page, b: Page, rules: seq<Rule>)
    requires a != b
    ensures Compare(a, b, rules) == Less <==> Compare(b, a, rules) == Greater
    ensures Compare(a, b, rules) == Equal <==> Compare(b, a, rules) == Equal
  {
    if rules != [] {
      CompareFlip(a, b, rules[1..]);
    }
  }

  /** One step of the stable insertion sort: the new page moves left past
      every page it compares Less to. */
  function Insert(sorted: seq<Page>, x: Page, rules: seq<Rule>): (r: seq<Page>)
    ensures |r| == |sorted| + 1
  {
    if sorted == [] then [x]
    else if Compare(x, sorted[|sorted| - 1], rules) == Less then
      Insert(sorted[..|sorted| - 1], x, rules) + [sorted[|sorted| - 1]]
    else sorted + [x]
  }

  /** `update.iter().copied().sorted_by(|a, b| custom_compare(a, b, rules))`
      as a stable insertion sort. */
  function SortBy(update: seq<Page>, rules: seq<Rule>): (r: seq<Page>)
    ensures |r| == |update|
  {
    if update == [] then []
    else Insert(SortBy(update[..|update| - 1], rules), update[|update| - 1], rules)
  }

  lemma {:induction false} InsertPermutes(sorted: seq<Page>, x: Page, rules: seq<Rule>)
    ensures multiset(Insert(sorted, x, rules)) == multiset(sorted) + multiset{x}
  {
    if sorted != [] && Compare(x, sorted[|sorted| - 1], rules) == Less {
      var init, last := sorted[..|sorted| - 1], sorted[|sorted| - 1];
      InsertPermutes(init, x, rules);
      assert sorted == init + [last];
    }
  }

  /** Sorting only reorders the pages of the update. */
  lemma {:induction false} SortPermutes(update: seq<Page>, rules: seq<Rule>)
    ensures multiset(SortBy(update, rules)) == multiset(update)
  {
    if update != [] {
      var init := update[..|update| - 1];
      SortPermutes(init, rules);
      InsertPermutes(SortBy(init, rules), update[|update| - 1], rules);
      assert update == init + [update[|update| - 1]];
    }
  }

  /** No page of the sorted update compares Less to the page before it. */
  predicate AdjacentOrdered(s: seq<Page>, rules: seq<Rule>)
  {
    forall i :: 0 < i < |s| ==> Compare(s[i], s[i - 1], rules) != Less
  }

  /** No rule puts a page before itself. */
  predicate Irreflexive(rules: seq<Rule>)
  {
    forall k :: 0 <= k < |rules| ==> rules[k].0 != rules[k].1
  }

  lemma {:induction false} InsertOrdered(sorted: seq<Page>, x: Page, rules: seq<Rule>)
    requires Irreflexive(rules) && AdjacentOrdered(sorted, rules)
    ensures AdjacentOrdered(Insert(sorted, x, rules), rules)
    ensures sorted != [] ==> var r := Insert(sorted, x, rules);
      r[|r| - 1] == x || r[|r| - 1] == sorted[|sorted| - 1]
  {
    if sorted != [] {
      var init, last := sorted[..|sorted| - 1], sorted[|sorted| - 1];
      if Compare(x, last, rules) == Less {
        assert AdjacentOrdered(init, rules) by {
          forall i | 0 < i < |init| ensures Compare(init[i], init[i - 1], rules) != Less {
            assert init[i] == sorted[i] && init[i - 1] == sorted[i - 1];
          }
        }
        InsertOrdered(init, x, rules);
        var r := Insert(init, x, rules);
        var s := r + [last];
        assert s == Insert(sorted, x, rules);
        forall i | 0 < i < |s| ensures Compare(s[i], s[i - 1], rules) != Less {
          if i == |s| - 1 {
            assert s[i] == last && s[i - 1] == r[|r| - 1];
            if r[|r| - 1] == x {
              CompareMeaning(x, last, rules);
              CompareFlip(x, last, rules);
            } else {
              assert init != [] && r[|r| - 1] == init[|init| - 1];
              assert sorted[|sorted| - 2] == init[|init| - 1];
            }
          } else {
            assert s[i] == r[i] && s[i - 1] == r[i - 1];
          }
        }
      }
    }
  }

  /** The sorted update has no adjacent pair out of order when no rule
      names a page twice (with consistent, transitive rules this is full
      order). */
  lemma {:induction false} SortOrdered(update: seq<Page>, rules: seq<Rule>)
    requires Irreflexive(rules)
    ensures AdjacentOrdered(SortBy(update, rules), rules)
  {
    if update != [] {
      SortOrdered(update[..|update| - 1], rules);
      InsertOrdered(SortBy(update[..|update| - 1], rules), update[|update| - 1], rules);
    }
  }

  /** No page occurs twice in the update. */
  predicate Distinct(update: seq<Page>)
  {
    forall i, j :: 0 <= i < j < |update| ==> update[i] != update[j]
  }

  /** A valid update with distinct pages comes out of the sort unchanged,
      so part two never counts it. */
  lemma {:induction false} ValidIsSorted(rules: seq<Rule>, update: seq<Page>)
    requires IsUpdateValid(rules, update) && Distinct(update)
    ensures SortBy(update, rules) == update
  {
    if update != [] {
      var init, x := update[..|update| - 1], update[|update| - 1];
      ValidInit(rules, update);
      ValidIsSorted(rules, init);
      assert SortBy(update, rules) == Insert(init, x, rules);
      if init != [] {
        LastTwoInOrder(rules, update);
        assert init[|init| - 1] == update[|update| - 2];
      }
      assert Insert(init, x, rules) == init + [x];
      assert update == init + [x];
    }
  }

  /** Dropping the last page of a valid update leaves a valid update. */
  lemma ValidInit(rules: seq<Rule>, update: seq<Page>)
    requires IsUpdateValid(rules, update) && Distinct(update) && update != []
    ensures IsUpdateValid(rules, update[..|update| - 1]) && Distinct(update[..|update| - 1])
  {
    var init := update[..|update| - 1];
    ValidIffNoBrokenRule(rules, update);
    ValidIffNoBrokenRule(rules, init);
    forall k | 0 <= k < |rules| ensures !Breaks(rules[k], init) {
      PositionPrefix(update, rules[k].0);
      PositionPrefix(update, rules[k].1);
    }
  }

  /** In a valid update the last page does not compare Less to the one
      before it: no rule asks for the opposite order. */
  lemma LastTwoInOrder(rules: seq<Rule>, update: seq<Page>)
    requires IsUpdateValid(rules, update) && Distinct(update) && |update| >= 2
    ensures Compare(update[|update| - 1], update[|update| - 2], rules) != Less
  {
    var x, y := update[|update| - 1], update[|update| - 2];
    ValidIffNoBrokenRule(rules, update);
    assert Position(update, x) == Some(|update| - 1) by {
      PositionAt(update, |update| - 1);
    }
    assert Position(update, y) == Some(|update| - 2) by {
      PositionAt(update, |update| - 2);
    }
    assert Breaks((x, y), update);
    assert (x, y) !in rules;
    CompareMeaning(x, y, rules);
  }

  /** With distinct pages, the position of the page at index i is i. */
  lemma PositionAt(update: seq<Page>, i: int)
    requires Distinct(update) && 0 <= i < |update|
    ensures Position(update, update[i]) == Some(i)
  {
  }

  /** Positions in the update before its last page are positions in its
      prefix. */
  lemma PositionPrefix(update: seq<Page>, page: Page)
    requires update != [] && Distinct(update)
    ensures var init := update[..|update| - 1];
      Position(init, page) == if page == update[|update| - 1] then None else Position(update, page)
  {
    var init := update[..|update| - 1];
    var p := Position(init, page);
    if p.Some? {
      assert Position(update, page) == Some(p.value) by {
        assert update[p.value] == page;
        PositionAt(update, p.value);
      }
    }
  }

  /** The middle page `update[update.len() / 2]`; None where the index is
      out of bounds (an empty update panics). */
  function Middle(update: seq<Page>): Option<Page>
  {
    if update == [] then None else Some(update[|update| / 2])
  }

  /** `part_one`: the sum of the middle pages of the valid updates. It
      panics (None) only on an empty valid update, and invalid updates add
      nothing. */
  function PartOne(rules: seq<Rule>, updates: seq<seq<Page>>): (r: Option<int>)
    ensures r.None? <==> exists k :: 0 <= k < |updates| && updates[k] == [] && IsUpdateValid(rules, updates[k])
    ensures (forall k :: 0 <= k < |updates| ==> !IsUpdateValid(rules, updates[k])) ==> r == Some(0)
  {
    if updates == [] then Some(0)
    else
      var init := updates[..|updates| - 1];
      assert forall k :: 0 <= k < |init| ==> init[k] == updates[k];
      var total := PartOne(rules, init);
      var update := updates[|updates| - 1];
      if !IsUpdateValid(rules, update) then total
      else if total.None? || Middle(update).None? then None
      else Some(total.value + Middle(update).value)
  }

  /** What an update adds to part two: the middle page of its sorted form
      when sorting changed it. */
  function Reordered(rules: seq<Rule>, update: seq<Page>): int
  {
    var ordered := SortBy(update, rules);
    if ordered != update then ordered[|update| / 2] else 0
  }

  /** The total of part two over the updates. */
  function PartTwoTotal(rules: seq<Rule>, updates: seq<seq<Page>>): int
  {
    if updates == [] then 0
    else PartTwoTotal(rules, updates[..|updates| - 1]) + Reordered(rules, updates[|updates| - 1])
  }

  /** When every update is valid with distinct pages, part two is 0. */
  lemma {:induction false} PartTwoIgnoresValid(rules: seq<Rule>, updates: seq<seq<Page>>)
    requires forall k :: 0 <= k < |updates| ==> IsUpdateValid(rules, updates[k]) && Distinct(updates[k])
    ensures PartTwoTotal(rules, updates) == 0
  {
    if updates != [] {
      var init := updates[..|updates| - 1];
      assert forall k :: 0 <= k < |init| ==> init[k] == updates[k];
      PartTwoIgnoresValid(rules, init);
      ValidIsSorted(rules, updates[|updates| - 1]);
    }
  }

  /** `part_two`: sort every update and add the middle page of each one
      the sort changed. */
  method PartTwo(rules: seq<Rule>, updates: seq<seq<Page>>) returns (total: int)
    ensures total == PartTwoTotal(rules, updates)
  {
    total := 0;
    for k := 0 to |updates|
      invariant total == PartTwoTotal(rules, updates[..k])
    {
      assert updates[..k + 1][..k] == updates[..k];
      var update := updates[k];
      var ordered := SortBy(update, rules);
      if ordered != update {
        total := total + ordered[|update| / 2];
      }
    }
    assert updates[..|updates|] == updates;
  }
}
