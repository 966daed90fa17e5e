/**
 The code-point order of strings and the sorted, duplicate-free lists that `sorted(set(...))`
 produces.  Everything that sorts strings in the other modules goes through `SortedUnique`, so the
 one fact they need is here: such a list is determined by its set of elements.
 */
module Ordering {

  /** Lexicographic order by code point. */
  predicate StrLess(a: string, b: string) {
    if |b| == 0 then false
    else if |a| == 0 then true
    else if a[0] != b[0] then a[0] < b[0]
    else StrLess(a[1..], b[1..])
  }

  lemma {:induction false} StrLessTransitive(a: string, b: string, c: string)
    requires StrLess(a, b) && StrLess(b, c)
    ensures StrLess(a, c)
  {
    if |a| > 0 && a[0] == b[0] && b[0] == c[0] {
      StrLessTransitive(a[1..], b[1..], c[1..]);
    }
  }

  lemma {:induction false} StrLessIrreflexive(a: string)
    ensures !StrLess(a, a)
  {
    if |a| > 0 {
      StrLessIrreflexive(a[1..]);
    }
  }

  lemma {:induction false} StrLessTotal(a: string, b: string)
    ensures a == b || StrLess(a, b) || StrLess(b, a)
  {
    if |a| > 0 && |b| > 0 && a[0] == b[0] {
      StrLessTotal(a[1..], b[1..]);
      assert a == [a[0]] + a[1..] && b == [b[0]] + b[1..];
    }
  }

  ghost predicate Ascending(s: seq<string>) {
    forall i, j :: 0 <= i < j < |s| ==> StrLess(s[i], s[j])
  }

  /** Puts `x` at its place in an ascending list; an equal element is kept once. */
  function Insert(x: string, s: seq<string>): (r: seq<string>)
    ensures forall y :: y in r <==> y == x || y in s
  {
    if s == [] then [x]
    else if x == s[0] then s
    else if StrLess(x, s[0]) then [x] + s
    else
      assert s == [s[0]] + s[1..];
      [s[0]] + Insert(x, s[1..])
  }

  lemma {:induction false} InsertAscending(x: string, s: seq<string>)
    requires Ascending(s)
    ensures Ascending(Insert(x, s))
  {
    if s == [] || x == s[0] {
    } else if StrLess(x, s[0]) {
      forall j | 0 <= j < |s| ensures StrLess(x, s[j]) {
        if j > 0 { StrLessTransitive(x, s[0], s[j]); }
      }
    } else {
      StrLessTotal(x, s[0]);
      InsertAscending(x, s[1..]);
      var tail := Insert(x, s[1..]);
      forall j | 0 <= j < |tail| ensures StrLess(s[0], tail[j]) {
        assert tail[j] in tail;
        if tail[j] != x {
          var i :| 0 <= i < |s[1..]| && s[1..][i] == tail[j];
          assert s[i + 1] == tail[j];
        }
      }
    }
  }

  /** `sorted(set(s))`. */
  function SortedUnique(s: seq<string>): (r: seq<string>)
    ensures forall y :: y in r <==> y in s
  {
    if s == [] then []
    else
      assert s == [s[0]] + s[1..];
      Insert(s[0], SortedUnique(s[1..]))
  }

  lemma {:induction false} SortedUniqueAscending(s: seq<string>)
    ensures Ascending(SortedUnique(s))
  {
    if s != [] {
      SortedUniqueAscending(s[1..]);
      InsertAscending(s[0], SortedUnique(s[1..]));
    }
  }

  /** Two ascending lists with the same elements are the same list. */
  lemma {:induction false} AscendingIsDetermined(a: seq<string>, b: seq<string>)
    requires Ascending(a) && Ascending(b)
    requires forall y :: y in a <==> y in b
    ensures a == b
  {
    assert b != [] ==> b[0] in b && b[0] in a;
    if a != [] {
      assert a[0] in a && a[0] in b;
      assert b[0] in b && b[0] in a;
      var i :| 0 <= i < |b| && b[i] == a[0];
      var j :| 0 <= j < |a| && a[j] == b[0];
      if i > 0 && j > 0 {
        StrLessTransitive(a[0], b[0], a[0]);
        StrLessIrreflexive(a[0]);
      }
      assert a[0] == b[0];
      forall y ensures y in a[1..] <==> y in b[1..] {
        TailMembers(a, y);
        TailMembers(b, y);
      }
      AscendingIsDetermined(a[1..], b[1..]);
      assert a == [a[0]] + a[1..] && b == [b[0]] + b[1..];
    }
  }

  lemma {:induction false} TailMembers(s: seq<string>, y: string)
    requires s != [] && Ascending(s)
    ensures y in s[1..] <==> y in s && y != s[0]
  {
    if y in s[1..] {
      var i :| 0 <= i < |s[1..]| && s[1..][i] == y;
      assert StrLess(s[0], s[i + 1]);
      StrLessIrreflexive(s[0]);
    }
    if y in s && y != s[0] {
      var i :| 0 <= i < |s| && s[i] == y;
      assert s[1..][i - 1] == y;
    }
  }

  /** The order in which elements reach `sorted(set(...))`, and how often, does not matter. */
  lemma {:induction false} SortedUniqueDependsOnMembers(s: seq<string>, t: seq<string>)
    requires forall y :: y in s <==> y in t
    ensures SortedUnique(s) == SortedUnique(t)
  {
    SortedUniqueAscending(s);
    SortedUniqueAscending(t);
    AscendingIsDetermined(SortedUnique(s), SortedUnique(t));
  }
}
