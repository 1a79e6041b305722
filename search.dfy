/**
 * The two recipe searches over an already fetched list: the public page matches
 * title, description or ingredients; the admin panel matches title or description.
 */
module Search {
  import opened RecipeData
  import Text

  /** `a` is `b` with some elements left out, the rest in their original order. */
  ghost predicate IsSubsequence<T>(a: seq<T>, b: seq<T>)
    decreases |b|
  {
    if a == [] then true
    else if b == [] then false
    else (a[0] == b[0] && IsSubsequence(a[1..], b[1..])) || IsSubsequence(a, b[1..])
  }

  /** `rs.filter(p)`: keeps, in order and with their multiplicity, the recipes satisfying `p`. */
  function Filter(rs: seq<Recipe>, p: Recipe -> bool): (r: seq<Recipe>)
    ensures IsSubsequence(r, rs)
    ensures forall x :: x in r <==> x in rs && p(x)
    ensures forall x :: multiset(r)[x] == if p(x) then multiset(rs)[x] else 0
  {
    if rs == [] then []
    else
      var rest := Filter(rs[1..], p);
      assert rs == [rs[0]] + rs[1..];
      if p(rs[0]) then
        assert ([rs[0]] + rest)[1..] == rest;
        [rs[0]] + rest
      else rest
  }

  /** The public page's test, against an already lower-cased query. */
  predicate HomeMatch(r: Recipe, q: string) {
    || Text.Includes(Text.Lower(r.title), q)
    || Text.Includes(Text.Lower(r.description), q)
    || Text.Includes(Text.Lower(r.ingredients), q)
  }

  /** The admin panel's test: ingredients are not searched. */
  predicate PanelMatch(r: Recipe, q: string) {
    Text.Includes(Text.Lower(r.title), q) || Text.Includes(Text.Lower(r.description), q)
  }

  /** The public page's filter effect. A blank query shows everything; the query is lower-cased, not trimmed. */
  function HomeSearch(rs: seq<Recipe>, query: string): (r: seq<Recipe>)
    ensures Text.AllSpace(query) ==> r == rs
    ensures !Text.AllSpace(query) ==>
              && IsSubsequence(r, rs)
              && (forall x :: x in r <==> x in rs && HomeMatch(x, Text.Lower(query)))
              && forall x :: multiset(r)[x] == if HomeMatch(x, Text.Lower(query)) then multiset(rs)[x] else 0
  {
    if Text.Trim(query) == "" then rs
    else Filter(rs, x => HomeMatch(x, Text.Lower(query)))
  }

  /** The admin panel's filter effect. */
  function PanelSearch(rs: seq<Recipe>, query: string): (r: seq<Recipe>)
    ensures Text.AllSpace(query) ==> r == rs
    ensures !Text.AllSpace(query) ==>
              && IsSubsequence(r, rs)
              && (forall x :: x in r <==> x in rs && PanelMatch(x, Text.Lower(query)))
              && forall x :: multiset(r)[x] == if PanelMatch(x, Text.Lower(query)) then multiset(rs)[x] else 0
  {
    if Text.Trim(query) == "" then rs
    else Filter(rs, x => PanelMatch(x, Text.Lower(query)))
  }

  /** Whatever the admin panel finds, the public page finds too. */
  lemma PanelFindsNoMoreThanHome(rs: seq<Recipe>, query: string)
    ensures forall x :: x in PanelSearch(rs, query) ==> x in HomeSearch(rs, query)
  {
  }

  /** A recipe matching only through its ingredients is found on the public page and not in the panel. */
  lemma IngredientsOnlyOnHome(r: Recipe, query: string)
    requires !Text.AllSpace(query)
    requires Text.Includes(Text.Lower(r.ingredients), Text.Lower(query))
    requires !PanelMatch(r, Text.Lower(query))
    ensures HomeSearch([r], query) == [r]
    ensures PanelSearch([r], query) == []
  {
    var h := HomeSearch([r], query);
    assert r in h;
    assert |h| <= 1 by {
      assert multiset(h)[r] == multiset([r])[r];
      assert forall x :: x in h ==> x == r;
      SingletonSubsequence(h, r);
    }
  }

  lemma SingletonSubsequence(h: seq<Recipe>, r: Recipe)
    requires IsSubsequence(h, [r])
    ensures |h| <= 1
  {
    if |h| > 1 {
      assert [r][1..] == [];
    }
  }
}
