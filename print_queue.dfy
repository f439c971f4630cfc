/**
 * The print queue: ordering rules "a|b" say that page `a` may be directly
 * followed by page `b`. An update (a list of pages) is in order when every
 * adjacent pair is allowed by the rules. Part 1 sums the middle page of the
 * updates already in order; part 2 sums the middle page of the others once
 * they are reordered. Page numbers are `u16` in the program; they are `nat` here.
 */
module PrintQueue {

  type Page = nat

  /** For each page that has rules, the pages allowed after it, in rule order. */
  type PageMap = map<Page, seq<Page>>

  /** `a` has a rule list and `b` is in it. */
  predicate Allowed(pageMap: PageMap, a: Page, b: Page)
  {
    a in pageMap && b in pageMap[a]
  }

  /** An update is in order when each page is followed only by a page its rules allow. */
  function CheckValid(pageMap: PageMap, update: seq<Page>): (r: bool)
    ensures r <==> forall i :: 1 <= i < |update| ==> Allowed(pageMap, update[i - 1], update[i])
    ensures |update| <= 1 ==> r
  {
    if |update| <= 1 then true
    else Allowed(pageMap, update[0], update[1]) && CheckValid(pageMap, update[1..])
  }

  /** Two updates joined are in order exactly when both are and the seam is allowed. */
  lemma ValidAppend(pageMap: PageMap, a: seq<Page>, b: seq<Page>)
    ensures CheckValid(pageMap, a + b) <==>
      && CheckValid(pageMap, a)
      && CheckValid(pageMap, b)
      && (|a| > 0 && |b| > 0 ==> Allowed(pageMap, a[|a| - 1], b[0]))
  {
    var ab := a + b;
    if CheckValid(pageMap, a) && CheckValid(pageMap, b) && (|a| > 0 && |b| > 0 ==> Allowed(pageMap, a[|a| - 1], b[0])) {
      forall i | 1 <= i < |ab| ensures Allowed(pageMap, ab[i - 1], ab[i]) {
        if i < |a| {
          assert ab[i - 1] == a[i - 1] && ab[i] == a[i];
        } else if i == |a| {
          assert ab[i - 1] == a[|a| - 1] && ab[i] == b[0];
        } else {
          assert ab[i - 1] == b[i - 1 - |a|] && ab[i] == b[i - |a|];
        }
      }
    }
    if CheckValid(pageMap, ab) {
      forall i | 1 <= i < |a| ensures Allowed(pageMap, a[i - 1], a[i]) {
        assert ab[i - 1] == a[i - 1] && ab[i] == a[i];
      }
      forall i | 1 <= i < |b| ensures Allowed(pageMap, b[i - 1], b[i]) {
        assert ab[|a| + i - 1] == b[i - 1] && ab[|a| + i] == b[i];
      }
      if |a| > 0 && |b| > 0 {
        assert ab[|a| - 1] == a[|a| - 1] && ab[|a|] == b[0];
      }
    }
  }

  /** An update in order stays in order without its last page. */
  lemma ValidDropLast(pageMap: PageMap, update: seq<Page>)
    requires |update| > 0 && CheckValid(pageMap, update)
    ensures CheckValid(pageMap, update[..|update| - 1])
  {
    ValidAppend(pageMap, update[..|update| - 1], [update[|update| - 1]]);
    assert update[..|update| - 1] + [update[|update| - 1]] == update;
  }

  // ------------------------------------------------------------------ rules

  /** The pages the rules allow after `key`, in rule order. */
  function Targets(rules: seq<(Page, Page)>, key: Page): (r: seq<Page>)
    ensures forall b :: b in r <==> (key, b) in rules
  {
    if |rules| == 0 then []
    else
      var last := rules[|rules| - 1];
      assert rules == rules[..|rules| - 1] + [last];
      Targets(rules[..|rules| - 1], key) + (if last.0 == key then [last.1] else [])
  }

  /** The pages that have at least one rule. */
  function Keys(rules: seq<(Page, Page)>): set<Page>
  {
    set rule | rule in rules :: rule.0
  }

  /** The map the rules describe: one entry per page with rules, listing its targets in rule order. */
  function RuleMap(rules: seq<(Page, Page)>): PageMap
  {
    map key | key in Keys(rules) :: Targets(rules, key)
  }

  /** The built map allows exactly the pairs that are rules. */
  lemma RuleMapAllowed(rules: seq<(Page, Page)>, a: Page, b: Page)
    ensures Allowed(RuleMap(rules), a, b) <==> (a, b) in rules
  {
    if (a, b) in rules {
      assert a in Keys(rules);
    }
  }

  /** Hence an update is in order under the built map exactly when each adjacent pair is a rule. */
  lemma ValidUnderRules(rules: seq<(Page, Page)>, update: seq<Page>)
    ensures CheckValid(RuleMap(rules), update) <==>
      forall i :: 1 <= i < |update| ==> (update[i - 1], update[i]) in rules
  {
    forall i | 1 <= i < |update| {
      RuleMapAllowed(rules, update[i - 1], update[i]);
    }
  }

  /** A page without rules has no targets. */
  lemma NoKeyNoTargets(rules: seq<(Page, Page)>, key: Page)
    ensures key !in Keys(rules) ==> Targets(rules, key) == []
  {
    var r := Targets(rules, key);
    if |r| > 0 {
      assert (key, r[0]) in rules;
      assert key in Keys(rules);
    }
  }

  /** One rule added: its page now lists the target last, and every other page keeps its list. */
  lemma RuleMapPush(rules: seq<(Page, Page)>, key: Page, value: Page)
    ensures var before := RuleMap(rules);
      var after := RuleMap(rules + [(key, value)]);
      && after.Keys == before.Keys + {key}
      && after[key] == (if key in before then before[key] else []) + [value]
      && forall other :: other in before && other != key ==> after[other] == before[other]
  {
    var next := rules + [(key, value)];
    assert next[..|next| - 1] == rules;
    assert Keys(next) == Keys(rules) + {key};
    NoKeyNoTargets(rules, key);
  }

  /** The push the program performs on the map of some rules yields the map of those rules and one more. */
  lemma PushedMap(rules: seq<(Page, Page)>, key: Page, value: Page)
    ensures var before := RuleMap(rules);
      (if key in before then before[key := before[key] + [value]] else before[key := [value]])
        == RuleMap(rules + [(key, value)])
  {
    RuleMapPush(rules, key, value);
    var before := RuleMap(rules);
    var pushed := if key in before then before[key := before[key] + [value]] else before[key := [value]];
    var after := RuleMap(rules + [(key, value)]);
    assert pushed.Keys == after.Keys;
    forall page | page in pushed ensures pushed[page] == after[page] {
      if page != key {
        assert pushed[page] == before[page];
      }
    }
  }

  /**
   * Reads the rules in order: a page seen before gets the new target pushed
   * onto its list, a new page gets a list holding just the target.
   */
  method BuildPageMap(rules: seq<(Page, Page)>) returns (pageMap: PageMap)
    ensures pageMap == RuleMap(rules)
  {
    pageMap := map[];
    for i := 0 to |rules|
      invariant pageMap == RuleMap(rules[..i])
    {
      var (key, value) := rules[i];
      PushedMap(rules[..i], key, value);
      assert rules[..i + 1] == rules[..i] + [(key, value)];
      if key in pageMap {
        var pages := pageMap[key];
        pageMap := pageMap[key := pages + [value]];
      } else {
        pageMap := pageMap[key := [value]];
      }
    }
    assert rules[..|rules|] == rules;
  }

  // ------------------------------------------------------------------ middles

  /** The index read as the middle page: the length halved and rounded down. */
  function MiddleIndex(n: nat): (i: nat)
    requires n > 0
    ensures i < n
    ensures n % 2 == 1 ==> i == n - 1 - i
    ensures n % 2 == 0 ==> i == n - i
  {
    n / 2
  }

  function Middle(update: seq<Page>): Page
    requires |update| > 0
  {
    update[MiddleIndex(|update|)]
  }

  predicate AllNonEmpty(updates: seq<seq<Page>>)
  {
    forall i :: 0 <= i < |updates| ==> |updates[i]| > 0
  }

  /** Part 1: the middle pages of the updates already in order. */
  function ValidMiddles(pageMap: PageMap, updates: seq<seq<Page>>): nat
    requires AllNonEmpty(updates)
  {
    if |updates| == 0 then 0
    else
      var last := updates[|updates| - 1];
      ValidMiddles(pageMap, updates[..|updates| - 1]) + (if CheckValid(pageMap, last) then Middle(last) else 0)
  }

  /** Part 2: the middle pages of the reordered forms of the updates out of order. */
  function FixedMiddles(pageMap: PageMap, updates: seq<seq<Page>>, reordered: seq<seq<Page>>): nat
    requires AllNonEmpty(updates) && AllNonEmpty(reordered) && |reordered| == |updates|
  {
    if |updates| == 0 then 0
    else
      var n := |updates| - 1;
      FixedMiddles(pageMap, updates[..n], reordered[..n])
        + (if CheckValid(pageMap, updates[n]) then 0 else Middle(reordered[n]))
  }

  /** The middle pages of all the updates. */
  function AllMiddles(updates: seq<seq<Page>>): nat
    requires AllNonEmpty(updates)
  {
    if |updates| == 0 then 0 else AllMiddles(updates[..|updates| - 1]) + Middle(updates[|updates| - 1])
  }

  /**
   * Every update counts towards exactly one part: with the updates left in
   * their own order, the two parts together are the sum of all middle pages.
   */
  lemma {:induction false} EachUpdateOnce(pageMap: PageMap, updates: seq<seq<Page>>)
    requires AllNonEmpty(updates)
    ensures ValidMiddles(pageMap, updates) + FixedMiddles(pageMap, updates, updates) == AllMiddles(updates)
    decreases |updates|
  {
    if |updates| > 0 {
      EachUpdateOnce(pageMap, updates[..|updates| - 1]);
    }
  }

  /** When every update is in order, part 2 is zero whatever the reordering. */
  lemma {:induction false} AllValidNothingFixed(pageMap: PageMap, updates: seq<seq<Page>>, reordered: seq<seq<Page>>)
    requires AllNonEmpty(updates) && AllNonEmpty(reordered) && |reordered| == |updates|
    requires forall i :: 0 <= i < |updates| ==> CheckValid(pageMap, updates[i])
    ensures FixedMiddles(pageMap, updates, reordered) == 0
    ensures ValidMiddles(pageMap, updates) == AllMiddles(updates)
    decreases |updates|
  {
    if |updates| > 0 {
      var n := |updates| - 1;
      AllValidNothingFixed(pageMap, updates[..n], reordered[..n]);
    }
  }

  /**
   * The loop over the updates. The reordering is the program's library sort
   * with the rule comparator; here it is given, one permutation per update.
   */
  method SumMiddles(pageMap: PageMap, updates: seq<seq<Page>>, reordered: seq<seq<Page>>)
    returns (part1: nat, part2: nat)
    requires AllNonEmpty(updates) && |reordered| == |updates|
    requires forall i :: 0 <= i < |updates| ==> multiset(reordered[i]) == multiset(updates[i])
    ensures AllNonEmpty(reordered)
    ensures part1 == ValidMiddles(pageMap, updates)
    ensures part2 == FixedMiddles(pageMap, updates, reordered)
  {
    assert AllNonEmpty(reordered) by {
      forall i | 0 <= i < |reordered| ensures |reordered[i]| > 0 {
        assert |multiset(reordered[i])| == |multiset(updates[i])|;
      }
    }
    part1 := 0;
    part2 := 0;
    for i := 0 to |updates|
      invariant part1 == ValidMiddles(pageMap, updates[..i])
      invariant part2 == FixedMiddles(pageMap, updates[..i], reordered[..i])
    {
      assert updates[..i + 1][..i] == updates[..i];
      assert reordered[..i + 1][..i] == reordered[..i];
      var update := updates[i];
      if !CheckValid(pageMap, update) {
        var sorted := reordered[i];
        part2 := part2 + sorted[|sorted| / 2];
      } else {
        part1 := part1 + update[|update| / 2];
      }
    }
    assert updates[..|updates|] == updates;
    assert reordered[..|reordered|] == reordered;
  }
}
