/** The snippet collection and the filter engine of the listing page: the
    category filter, the case-insensitive search and the per-category counters
    (src/App.jsx, `filterAndSearch` and `stats`). */
module Snippets {
  import opened Wrappers
  import opened Text

  type SnippetId = int

  /** A snippet as the remote service sends it; `description` may be absent. */
  datatype Snippet = Snippet(
    id: SnippetId,
    title: string,
    description: Option<string>,
    category: string,
    code: string)

  /** `Array.prototype.filter`: the elements that `keep` accepts, in order. */
  function Filter<T>(xs: seq<T>, keep: T -> bool): (r: seq<T>)
    ensures |r| <= |xs|
    ensures forall x :: x in r ==> x in xs && keep(x)
  {
    if xs == [] then []
    else (if keep(xs[0]) then [xs[0]] else []) + Filter(xs[1..], keep)
  }

  /** The category test of the filter: exact, case-sensitive equality. */
  predicate InCategory(s: Snippet, category: string) {
    s.category == category
  }

  /** The search test: the lower-cased term occurs in the lower-cased title, in
      the lower-cased description when there is one, or in the lower-cased code. */
  predicate MatchesSearch(s: Snippet, term: string) {
    var t := Lower(term);
    Includes(Lower(s.title), t)
    || (s.description.Some? && Includes(Lower(s.description.value), t))
    || Includes(Lower(s.code), t)
  }

  /** What the view keeps: an empty category or an empty term (both falsy in
      JavaScript) imposes no constraint; the two constraints are conjoined. */
  predicate Keep(s: Snippet, category: string, term: string) {
    (category == "" || InCategory(s, category)) && (term == "" || MatchesSearch(s, term))
  }

  function CategoryTest(category: string): Snippet -> bool {
    s => InCategory(s, category)
  }

  function SearchTest(term: string): Snippet -> bool {
    s => MatchesSearch(s, term)
  }

  function KeepTest(category: string, term: string): Snippet -> bool {
    s => Keep(s, category, term)
  }

  /** The visible list, defined in one step by the conjoined predicate. The
      listing page computes it in two `filter` passes; `Board.FilterAndSearch`
      is proved to give this list. */
  function Visible(snippets: seq<Snippet>, category: string, term: string): seq<Snippet> {
    Filter(snippets, KeepTest(category, term))
  }

  // ---------------------------------------------------------------------------
  // Filter: an order-preserving selection

  /** The positions `i` and above of `xs` whose element `keep` accepts, in
      increasing order. */
  function KeptFrom<T>(xs: seq<T>, keep: T -> bool, i: nat): seq<nat>
    requires i <= |xs|
    decreases |xs| - i
  {
    if i == |xs| then []
    else (if keep(xs[i]) then [i] else []) + KeptFrom(xs, keep, i + 1)
  }

  function KeptIndices<T>(xs: seq<T>, keep: T -> bool): seq<nat> {
    KeptFrom(xs, keep, 0)
  }

  /** `r` is the sub-sequence of `xs` at the strictly increasing positions `idx`,
      and those positions are exactly the ones whose element `keep` accepts. */
  ghost predicate SelectsExactly<T>(r: seq<T>, xs: seq<T>, idx: seq<nat>, keep: T -> bool) {
    && |idx| == |r|
    && (forall k :: 0 <= k < |idx| ==> idx[k] < |xs| && r[k] == xs[idx[k]])
    && (forall j, k :: 0 <= j < k < |idx| ==> idx[j] < idx[k])
    && (forall i :: 0 <= i < |xs| ==> (keep(xs[i]) <==> i in idx))
  }

  /** The kept positions from `i` on lie in `[i, |xs|)`, are strictly increasing,
      and are exactly the positions from `i` on whose element `keep` accepts. */
  lemma {:induction false} KeptFromFacts<T>(xs: seq<T>, keep: T -> bool, i: nat)
    requires i <= |xs|
    ensures forall k :: 0 <= k < |KeptFrom(xs, keep, i)| ==> i <= KeptFrom(xs, keep, i)[k] < |xs|
    ensures forall j, k :: 0 <= j < k < |KeptFrom(xs, keep, i)| ==>
              KeptFrom(xs, keep, i)[j] < KeptFrom(xs, keep, i)[k]
    ensures forall m :: i <= m < |xs| ==> (keep(xs[m]) <==> m in KeptFrom(xs, keep, i))
    decreases |xs| - i
  {
    if i < |xs| {
      KeptFromFacts(xs, keep, i + 1);
    }
  }

  /** The filter of the suffix from `i` holds, position by position, the
      elements at the kept positions. */
  lemma {:induction false} FilterAtKept<T>(xs: seq<T>, keep: T -> bool, i: nat)
    requires i <= |xs|
    ensures |KeptFrom(xs, keep, i)| == |Filter(xs[i..], keep)|
    ensures forall k :: 0 <= k < |KeptFrom(xs, keep, i)| ==>
              KeptFrom(xs, keep, i)[k] < |xs| && Filter(xs[i..], keep)[k] == xs[KeptFrom(xs, keep, i)[k]]
    decreases |xs| - i
  {
    KeptFromFacts(xs, keep, i);
    if i < |xs| {
      FilterAtKept(xs, keep, i + 1);
      assert xs[i..][1..] == xs[i + 1..];
    }
  }

  /** The filtered list is an order-preserving sub-sequence of its input that
      keeps every accepted element once and nothing else: no element is
      reordered, duplicated or dropped without reason. */
  lemma FilterSelectsExactly<T>(xs: seq<T>, keep: T -> bool)
    ensures SelectsExactly(Filter(xs, keep), xs, KeptIndices(xs, keep), keep)
  {
    KeptFromFacts(xs, keep, 0);
    FilterAtKept(xs, keep, 0);
    assert xs[0..] == xs;
  }

  /** Filtering keeps an element exactly when the predicate accepts it. */
  lemma FilterMember<T>(xs: seq<T>, keep: T -> bool, x: T)
    ensures x in Filter(xs, keep) <==> x in xs && keep(x)
  {
    if x in xs && keep(x) {
      var i :| 0 <= i < |xs| && xs[i] == x;
      FilterSelectsExactly(xs, keep);
      var idx := KeptIndices(xs, keep);
      var k :| 0 <= k < |idx| && idx[k] == i;
      assert Filter(xs, keep)[k] == x;
    }
  }

  /** A filter whose predicate accepts everything returns its input. */
  lemma {:induction false} FilterAll<T>(xs: seq<T>, keep: T -> bool)
    requires forall i :: 0 <= i < |xs| ==> keep(xs[i])
    ensures Filter(xs, keep) == xs
  {
    if xs != [] {
      FilterAll(xs[1..], keep);
    }
  }

  /** Filters with predicates that agree on every element give the same list. */
  lemma {:induction false} FilterExt<T>(xs: seq<T>, p: T -> bool, q: T -> bool)
    requires forall i :: 0 <= i < |xs| ==> p(xs[i]) == q(xs[i])
    ensures Filter(xs, p) == Filter(xs, q)
  {
    if xs != [] {
      FilterExt(xs[1..], p, q);
    }
  }

  /** Two filters in a row are one filter by the conjunction of their predicates. */
  lemma {:induction false} FilterFuse<T>(xs: seq<T>, p: T -> bool, q: T -> bool, pq: T -> bool)
    requires forall i :: 0 <= i < |xs| ==> pq(xs[i]) == (p(xs[i]) && q(xs[i]))
    ensures Filter(Filter(xs, p), q) == Filter(xs, pq)
  {
    if xs != [] {
      FilterFuse(xs[1..], p, q, pq);
      var rest := Filter(xs[1..], p);
      if p(xs[0]) {
        assert Filter(xs, p) == [xs[0]] + rest;
        assert ([xs[0]] + rest)[1..] == rest;
      } else {
        assert Filter(xs, p) == rest;
      }
    }
  }

  // ---------------------------------------------------------------------------
  // The view

  /** Without a category and without a term the view is the whole collection. */
  lemma VisibleUnfiltered(snippets: seq<Snippet>)
    ensures Visible(snippets, "", "") == snippets
  {
    FilterAll(snippets, KeepTest("", ""));
  }

  /** A snippet is in the view exactly when it is in the collection, its
      category equals a non-empty category filter, and a non-empty term occurs
      case-insensitively in its title, its description (only when present) or
      its code. */
  lemma VisibleMember(snippets: seq<Snippet>, category: string, term: string, s: Snippet)
    ensures s in Visible(snippets, category, term) <==>
      && s in snippets
      && (category != "" ==> s.category == category)
      && (term != "" ==>
            Includes(Lower(s.title), Lower(term))
            || (s.description.Some? && Includes(Lower(s.description.value), Lower(term)))
            || Includes(Lower(s.code), Lower(term)))
  {
    FilterMember(snippets, KeepTest(category, term), s);
  }

  /** The view is the intersection of the category-only view and the search-only
      view. */
  lemma VisibleIsIntersection(snippets: seq<Snippet>, category: string, term: string, s: Snippet)
    ensures s in Visible(snippets, category, term) <==>
      s in Visible(snippets, category, "") && s in Visible(snippets, "", term)
  {
    VisibleMember(snippets, category, term, s);
    VisibleMember(snippets, category, "", s);
    VisibleMember(snippets, "", term, s);
  }

  /** The search ignores the case of the term. */
  lemma SearchIgnoresCase(s: Snippet, term: string)
    ensures MatchesSearch(s, term) == MatchesSearch(s, Lower(term))
  {
    LowerIdempotent(term);
  }

  /** Two sample snippets, one PHP and one CSS. */
  const EmailSnippet := Snippet(1, "Validate email", None, "PHP", "function f(){}")
  const CenterSnippet := Snippet(2, "Center div", None, "CSS", ".c{display:flex;}")

  lemma FilterPair<T>(a: T, b: T, keep: T -> bool)
    ensures Filter([a, b], keep) == (if keep(a) then [a] else []) + (if keep(b) then [b] else [])
  {
    assert [a, b][1..] == [b];
    assert [b][1..] == [];
  }

  /** The CSS chip shows only the CSS snippet of the example. */
  lemma CategoryScenario()
    ensures Visible([EmailSnippet, CenterSnippet], "CSS", "") == [CenterSnippet]
  {
    FilterPair(EmailSnippet, CenterSnippet, KeepTest("CSS", ""));
  }

  // ---------------------------------------------------------------------------
  // The counters shown on the category chips

  datatype Stats = Stats(total: nat, php: nat, html: nat, css: nat)

  function CountCategory(snippets: seq<Snippet>, category: string): nat {
    |Filter(snippets, CategoryTest(category))|
  }

  /** `stats`: the size of the collection and the number of snippets of each
      known category. */
  function ComputeStats(snippets: seq<Snippet>): Stats {
    Stats(|snippets|, CountCategory(snippets, "PHP"), CountCategory(snippets, "HTML"),
          CountCategory(snippets, "CSS"))
  }

  /** Each counter is the size of the view filtered by that category alone. */
  lemma StatsAreCategoryViews(snippets: seq<Snippet>)
    ensures ComputeStats(snippets).php == |Visible(snippets, "PHP", "")|
    ensures ComputeStats(snippets).html == |Visible(snippets, "HTML", "")|
    ensures ComputeStats(snippets).css == |Visible(snippets, "CSS", "")|
  {
    FilterExt(snippets, CategoryTest("PHP"), KeepTest("PHP", ""));
    FilterExt(snippets, CategoryTest("HTML"), KeepTest("HTML", ""));
    FilterExt(snippets, CategoryTest("CSS"), KeepTest("CSS", ""));
  }

  predicate KnownCategory(category: string) {
    category == "PHP" || category == "HTML" || category == "CSS"
  }

  /** When every snippet has one of the three known categories, the three
      counters add up to the total. */
  lemma {:induction false} StatsPartition(snippets: seq<Snippet>)
    requires forall i :: 0 <= i < |snippets| ==> KnownCategory(snippets[i].category)
    ensures ComputeStats(snippets).php + ComputeStats(snippets).html + ComputeStats(snippets).css
            == ComputeStats(snippets).total
  {
    if snippets != [] {
      StatsPartition(snippets[1..]);
    }
  }
}
