/**
 * Candidate lists in diagnosis messages: the candidates are put in ascending string order
 * (java.lang.String.compareTo) and joined with a separator, with a "more" suffix when the
 * list is only part of what the grammar allows.
 */
module Candidates {

  /** a.compareTo(b) <= 0: lexicographic on characters, a proper prefix first. */
  predicate Below(a: string, b: string)
  {
    if |a| == 0 then true
    else if |b| == 0 then false
    else if a[0] != b[0] then a[0] < b[0]
    else Below(a[1..], b[1..])
  }

  lemma {:induction false} BelowReflexive(a: string)
    ensures Below(a, a)
  {
    if |a| > 0 { BelowReflexive(a[1..]); }
  }

  lemma {:induction false} BelowTotal(a: string, b: string)
    ensures Below(a, b) || Below(b, a)
  {
    if |a| > 0 && |b| > 0 && a[0] == b[0] { BelowTotal(a[1..], b[1..]); }
  }

  lemma {:induction false} BelowAntisymmetric(a: string, b: string)
    requires Below(a, b) && Below(b, a)
    ensures a == b
  {
    if |a| > 0 && |b| > 0 {
      BelowAntisymmetric(a[1..], b[1..]);
      assert a == [a[0]] + a[1..] && b == [b[0]] + b[1..];
    }
  }

  lemma {:induction false} BelowTransitive(a: string, b: string, c: string)
    requires Below(a, b) && Below(b, c)
    ensures Below(a, c)
  {
    if |a| > 0 && |b| > 0 && |c| > 0 && a[0] == b[0] == c[0] {
      BelowTransitive(a[1..], b[1..], c[1..]);
    }
  }

  /** `s` strictly ascends, hence holds no item twice. */
  predicate Ascending(s: seq<string>)
  {
    forall i, j :: 0 <= i < j < |s| ==> Below(s[i], s[j]) && s[i] != s[j]
  }

  /** `s` lists the items of `items`, each once, in ascending order. */
  ghost predicate ArrangementOf(s: seq<string>, items: set<string>)
  {
    Ascending(s) && (forall x :: x in s <==> x in items)
  }

  lemma ArrangementEmpty(s: seq<string>, items: set<string>)
    requires ArrangementOf(s, items)
    ensures s == [] <==> items == {}
  {
    if s != [] { assert s[0] in items; }
    if items != {} { var x :| x in items; assert x in s; }
  }

  /** The ascending arrangement of a set is unique: sorting is deterministic. */
  lemma {:induction false} ArrangementUnique(s: seq<string>, t: seq<string>, items: set<string>)
    requires ArrangementOf(s, items) && ArrangementOf(t, items)
    ensures s == t
    decreases |s|
  {
    ArrangementEmpty(s, items);
    ArrangementEmpty(t, items);
    if s != [] && t != [] {
      assert s[0] in items && t[0] in items;
      if s[0] != t[0] {
        var i :| 0 <= i < |s| && s[i] == t[0];
        var j :| 0 <= j < |t| && t[j] == s[0];
        assert i > 0 && j > 0;
        BelowAntisymmetric(s[0], t[0]);
      }
      var rest := items - {s[0]};
      forall x ensures x in s[1..] <==> x in rest {
        if x in s[1..] {
          var k :| 1 <= k < |s| && s[k] == x;
          assert s[0] != s[k];
        }
        if x in rest {
          var k :| 0 <= k < |s| && s[k] == x;
          assert k != 0;
          assert s[1..][k - 1] == x;
        }
      }
      forall x ensures x in t[1..] <==> x in rest {
        if x in t[1..] {
          var k :| 1 <= k < |t| && t[k] == x;
          assert t[0] != t[k];
        }
        if x in rest {
          var k :| 0 <= k < |t| && t[k] == x;
          assert k != 0;
          assert t[1..][k - 1] == x;
        }
      }
      ArrangementUnique(s[1..], t[1..], rest);
      assert s == [s[0]] + s[1..] && t == [t[0]] + t[1..];
    }
  }

  /** The least candidate of a non-empty set. */
  method Least(items: set<string>) returns (m: string)
    requires items != {}
    ensures m in items
    ensures forall x :: x in items ==> Below(m, x)
  {
    m :| m in items;
    BelowReflexive(m);
    var rest := items - {m};
    while rest != {}
      invariant rest <= items && m in items
      invariant forall x :: x in items - rest ==> Below(m, x)
      decreases rest
    {
      var x :| x in rest;
      if !Below(m, x) {
        BelowTotal(m, x);
        forall y | y in items - rest ensures Below(x, y) {
          BelowTransitive(x, m, y);
        }
        m := x;
        BelowReflexive(m);
      }
      rest := rest - {x};
    }
  }

  /** Collections.sort over the candidates collected in a set. */
  method SortCandidates(items: set<string>) returns (r: seq<string>)
    ensures ArrangementOf(r, items)
  {
    r := [];
    var rest := items;
    while rest != {}
      invariant rest <= items
      invariant forall x :: x in r <==> x in items - rest
      invariant Ascending(r)
      invariant forall i, y :: 0 <= i < |r| && y in rest ==> Below(r[i], y) && r[i] != y
      decreases rest
    {
      var m := Least(rest);
      r := r + [m];
      rest := rest - {m};
    }
  }

  /**
   * The string the loop of concatenateMessages builds: a separator goes before an item
   * whenever the text built so far is non-empty.
   */
  function BuiltText(items: seq<string>, sep: string): string
  {
    if items == [] then ""
    else
      var prefix := BuiltText(items[..|items| - 1], sep);
      (if |prefix| != 0 then prefix + sep else prefix) + items[|items| - 1]
  }

  /** The items with one separator between each two neighbours. */
  function Separated(items: seq<string>, sep: string): string
  {
    if items == [] then ""
    else if |items| == 1 then items[0]
    else Separated(items[..|items| - 1], sep) + sep + items[|items| - 1]
  }

  /** When no candidate is empty, the loop puts exactly one separator between neighbours. */
  lemma {:induction false} BuiltTextSeparates(items: seq<string>, sep: string)
    requires forall i :: 0 <= i < |items| ==> items[i] != ""
    ensures BuiltText(items, sep) == Separated(items, sep)
    ensures items != [] ==> |BuiltText(items, sep)| > 0
  {
    if items != [] {
      var front := items[..|items| - 1];
      BuiltTextSeparates(front, sep);
      if front == [] {
        assert |items| == 1;
      }
    }
  }

  /** An empty first candidate loses the separator after it. */
  lemma EmptyCandidateDropsSeparator()
    ensures BuiltText(["", "yes"], ", ") == "yes"
    ensures Separated(["", "yes"], ", ") == ", yes"
  {
    assert ["", "yes"][..1] == [""];
    assert [""][..0] == [];
  }

  /** The loop of concatenateMessages over already sorted items. */
  method JoinCandidates(items: seq<string>, sep: string) returns (r: string)
    ensures r == BuiltText(items, sep)
  {
    r := "";
    var i := 0;
    while i < |items|
      invariant 0 <= i <= |items|
      invariant r == BuiltText(items[..i], sep)
    {
      assert items[..i + 1][..i] == items[..i];
      if |r| != 0 { r := r + sep; }
      r := r + items[i];
      i := i + 1;
    }
    assert items[..i] == items;
  }

  /** Every non-empty set of candidates has a least one. */
  lemma {:induction false} LeastExists(items: set<string>)
    requires items != {}
    ensures exists m :: m in items && forall x :: x in items ==> Below(m, x)
    decreases items
  {
    var y :| y in items;
    var rest := items - {y};
    BelowReflexive(y);
    if rest == {} {
      forall x | x in items ensures Below(y, x) {
        assert x !in rest;
      }
    } else {
      LeastExists(rest);
      var m :| m in rest && forall x :: x in rest ==> Below(m, x);
      if Below(m, y) {
        assert forall x :: x in items ==> x == y || x in rest;
      } else {
        BelowTotal(m, y);
        forall x | x in items ensures Below(y, x) {
          if x != y { BelowTransitive(y, m, x); }
        }
      }
    }
  }

  /** Every finite set of candidates has an ascending arrangement. */
  lemma {:induction false} ArrangementExists(items: set<string>)
    ensures exists s :: ArrangementOf(s, items)
    decreases items
  {
    if items == {} {
      assert ArrangementOf([], items);
    } else {
      LeastExists(items);
      var m :| m in items && forall x :: x in items ==> Below(m, x);
      var rest := items - {m};
      ArrangementExists(rest);
      var t :| ArrangementOf(t, rest);
      var s := [m] + t;
      forall i, j | 0 <= i < j < |s| ensures Below(s[i], s[j]) && s[i] != s[j] {
        if i > 0 { assert s[i] == t[i - 1] && s[j] == t[j - 1]; }
        else { assert s[j] == t[j - 1] && s[j] in rest; }
      }
      forall x ensures x in s <==> x in items {
        if x in t { assert x in rest; }
        if x in items && x != m { assert x in rest && x in t; }
      }
      assert ArrangementOf(s, items);
    }
  }

  /** The candidates in ascending order. */
  ghost function Sorted(items: set<string>): (s: seq<string>)
    ensures ArrangementOf(s, items)
  {
    ArrangementExists(items);
    var s :| ArrangementOf(s, items); s
  }

  /** What concatenateMessages returns: the sorted candidates joined, then the "more" text iff `more`. */
  ghost function Concatenation(items: set<string>, more: bool, sep: string, moreText: string): string
  {
    BuiltText(Sorted(items), sep) + (if more then moreText else "")
  }

  /** Without empty candidates, the message lists every candidate once, in order, separated. */
  lemma ConcatenationLists(items: set<string>, more: bool, sep: string, moreText: string)
    requires "" !in items
    ensures Concatenation(items, more, sep, moreText)
         == Separated(Sorted(items), sep) + (if more then moreText else "")
  {
    var s := Sorted(items);
    forall i | 0 <= i < |s| ensures s[i] != "" { assert s[i] in items; }
    BuiltTextSeparates(s, sep);
  }

  /** concatenateMessages: sort the candidates, join them, append the "more" text. */
  method ConcatenateMessages(items: set<string>, more: bool, sep: string, moreText: string)
    returns (r: string)
    ensures r == Concatenation(items, more, sep, moreText)
  {
    var sorted := SortCandidates(items);
    ArrangementUnique(sorted, Sorted(items), items);
    r := JoinCandidates(sorted, sep);
    if more { r := r + moreText; }
  }
}
