/**
 * Strings as the resolver compares them: the `en-US` lower-casing it uses for
 * case-insensitive lookup, and the default order of `Array.prototype.sort`,
 * which it uses to write relation lists in a deterministic order.
 */
module Text {

  /** One character of `toLocaleLowerCase('en-US')`, for the ASCII letters. */
  function LowerChar(c: char): char {
    if 'A' <= c <= 'Z' then (c as int + 32) as char else c
  }

  /** `s.toLocaleLowerCase('en-US')` on ASCII text: every letter lower-cased, nothing else moved. */
  function Lower(s: string): (r: string)
    ensures |r| == |s|
    ensures forall i :: 0 <= i < |s| ==> r[i] == LowerChar(s[i])
  {
    if s == [] then [] else [LowerChar(s[0])] + Lower(s[1..])
  }

  /** Text without capital letters. */
  predicate NoCapitals(s: string) {
    forall i :: 0 <= i < |s| ==> !('A' <= s[i] <= 'Z')
  }

  /** Text without capital letters is its own lower-cased form. */
  lemma LowerNoCapitals(s: string)
    requires NoCapitals(s)
    ensures Lower(s) == s
  {
  }

  /** Lower-casing twice is lower-casing once. */
  lemma LowerIdempotent(s: string)
    ensures Lower(Lower(s)) == Lower(s)
  {
    assert forall i :: 0 <= i < |s| ==> Lower(Lower(s))[i] == Lower(s)[i];
  }

  /**
   * `a` sorts strictly before `b` under the default comparison of
   * `Array.prototype.sort`: character by character, a proper prefix first.
   */
  predicate Below(a: string, b: string)
    decreases |a|
  {
    |b| > 0 && (|a| == 0 || a[0] < b[0] || (a[0] == b[0] && Below(a[1..], b[1..])))
  }

  lemma {:induction false} BelowIrreflexive(a: string)
    ensures !Below(a, a)
    decreases |a|
  {
    if |a| > 0 {
      BelowIrreflexive(a[1..]);
    }
  }

  lemma {:induction false} BelowTransitive(a: string, b: string, c: string)
    requires Below(a, b) && Below(b, c)
    ensures Below(a, c)
    decreases |a|
  {
    if |a| > 0 && a[0] == b[0] && b[0] == c[0] {
      BelowTransitive(a[1..], b[1..], c[1..]);
    }
  }

  /** Any two different strings are ordered one way or the other. */
  lemma {:induction false} BelowTotal(a: string, b: string)
    requires a != b
    ensures Below(a, b) || Below(b, a)
    decreases |a|
  {
    if |a| > 0 && |b| > 0 && a[0] == b[0] {
      assert a == [a[0]] + a[1..] && b == [b[0]] + b[1..];
      BelowTotal(a[1..], b[1..]);
    }
  }

  /** Increasing without repetition. */
  ghost predicate StrictlySorted(r: seq<string>) {
    forall i, j :: 0 <= i < j < |r| ==> Below(r[i], r[j])
  }

  /** `r` is `Array.from(s).sort()`: the elements of `s`, each once, in order. */
  ghost predicate SortedList(r: seq<string>, s: set<string>) {
    StrictlySorted(r) && forall x :: x in r <==> x in s
  }

  /** Putting a smaller string in front of a sorted list keeps it sorted. */
  lemma ConsSorted(h: string, t: seq<string>)
    requires StrictlySorted(t)
    requires t != [] ==> Below(h, t[0])
    ensures StrictlySorted([h] + t)
  {
    forall j | 1 <= j < |t|
      ensures Below(h, t[j])
    {
      BelowTransitive(h, t[0], t[j]);
    }
  }

  /** Inserts `x` at its place in a sorted list, unless it is already there. */
  function Insert(r: seq<string>, x: string): (r': seq<string>)
    requires StrictlySorted(r)
    ensures StrictlySorted(r')
    ensures forall y :: y in r' <==> y in r || y == x
    decreases |r|
  {
    if r == [] then [x]
    else if x == r[0] then r
    else if Below(x, r[0]) then
      ConsSorted(x, r);
      [x] + r
    else
      var rest := Insert(r[1..], x);
      BelowTotal(x, r[0]);
      assert rest[0] in rest;
      ConsSorted(r[0], rest);
      [r[0]] + rest
  }

  /** `Array.from(s).sort()` on a set of strings. */
  method SortSet(s: set<string>) returns (r: seq<string>)
    ensures SortedList(r, s)
  {
    r := [];
    var rest := s;
    while rest != {}
      invariant rest <= s
      invariant StrictlySorted(r)
      invariant forall y :: y in r <==> y in s && y !in rest
      decreases rest
    {
      var x :| x in rest;
      r := Insert(r, x);
      rest := rest - {x};
    }
  }

  /** The head of a sorted list is below everything else in it. */
  lemma SortedHeadLeast(r: seq<string>, y: string)
    requires StrictlySorted(r) && r != []
    requires y in r && y != r[0]
    ensures Below(r[0], y)
  {
    var j :| 0 <= j < |r| && r[j] == y;
  }

  /** The sorted list of a set is empty exactly when the set is. */
  lemma SortedListEmpty(r: seq<string>, s: set<string>)
    requires SortedList(r, s)
    ensures r == [] <==> s == {}
  {
    if r != [] {
      assert r[0] in s;
    }
  }

  /** Without its head, a sorted list of `s` is the sorted list of the rest of `s`. */
  lemma SortedTail(r: seq<string>, s: set<string>)
    requires SortedList(r, s) && r != []
    ensures SortedList(r[1..], s - {r[0]})
  {
    forall x | x in r[1..]
      ensures x != r[0]
    {
      var j :| 1 <= j < |r| && r[j] == x;
      BelowIrreflexive(r[0]);
    }
    forall x | x in s - {r[0]}
      ensures x in r[1..]
    {
      assert x in r;
      assert r == [r[0]] + r[1..];
    }
  }

  /**
   * The sorted list of a set is unique, so the relation lists the resolver
   * writes do not depend on the order in which the sets were filled.
   */
  lemma {:induction false} SortedListUnique(r1: seq<string>, r2: seq<string>, s: set<string>)
    requires SortedList(r1, s) && SortedList(r2, s)
    ensures r1 == r2
    decreases |r1|
  {
    SortedListEmpty(r1, s);
    SortedListEmpty(r2, s);
    if r1 != [] {
      assert r1[0] in r2;
      assert r2 != [];
      if r1[0] != r2[0] {
        SortedHeadLeast(r1, r2[0]);
        SortedHeadLeast(r2, r1[0]);
        BelowTransitive(r1[0], r2[0], r1[0]);
        BelowIrreflexive(r1[0]);
        assert false;
      }
      SortedTail(r1, s);
      SortedTail(r2, s);
      SortedListUnique(r1[1..], r2[1..], s - {r1[0]});
      assert r1 == [r1[0]] + r1[1..] && r2 == [r2[0]] + r2[1..];
    }
  }

  /** The sorted list of a single string is that string alone. */
  lemma SortedListSingleton(r: seq<string>, x: string)
    requires SortedList(r, {x})
    ensures r == [x]
  {
    SortedListUnique(r, [x], {x});
  }
}
