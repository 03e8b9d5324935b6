/** Lexicographic order on strings, the sorted listing of a finite set of strings (Python's
    `sorted` on a set or on the keys of a dict), and other stock of orders and lists. */
module Ordering {

  predicate StrLeq(a: string, b: string) {
    if a == [] then true
    else if b == [] then false
    else if a[0] == b[0] then StrLeq(a[1..], b[1..])
    else a[0] < b[0]
  }

  lemma {:induction false} StrLeqTotal(a: string, b: string)
    ensures StrLeq(a, b) || StrLeq(b, a)
    ensures StrLeq(a, b) && StrLeq(b, a) ==> a == b
  {
    if a != [] && b != [] && a[0] == b[0] {
      StrLeqTotal(a[1..], b[1..]);
      if StrLeq(a, b) && StrLeq(b, a) {
        assert a == [a[0]] + a[1..] && b == [b[0]] + b[1..];
      }
    }
  }

  lemma {:induction false} StrLeqTransitive(a: string, b: string, c: string)
    requires StrLeq(a, b) && StrLeq(b, c)
    ensures StrLeq(a, c)
  {
    if a != [] && b != [] && c != [] && a[0] == b[0] && b[0] == c[0] {
      StrLeqTransitive(a[1..], b[1..], c[1..]);
    }
  }

  /** Every non-empty finite set of strings has a least element. */
  lemma {:induction false} LeastExists(s: set<string>) returns (least: string)
    requires s != {}
    ensures least in s && forall x :: x in s ==> StrLeq(least, x)
  {
    var y :| y in s;
    StrLeqTotal(y, y);
    if s == {y} {
      least := y;
    } else {
      var rest := s - {y};
      least := LeastExists(rest);
      StrLeqTotal(y, least);
      if StrLeq(y, least) {
        forall x | x in s ensures StrLeq(y, x) {
          if x != y {
            assert x in rest;
            StrLeqTransitive(y, least, x);
          }
        }
        least := y;
      } else {
        assert forall x :: x in s ==> x == y || x in rest;
      }
    }
  }

  function Least(s: set<string>): (least: string)
    requires s != {}
    ensures least in s && forall x :: x in s ==> StrLeq(least, x)
  {
    assert exists w :: w in s && forall x :: x in s ==> StrLeq(w, x) by { var w := LeastExists(s); }
    assert forall x, y | x in s && y in s && StrLeq(x, y) && StrLeq(y, x) :: x == y by {
      forall x, y | x in s && y in s && StrLeq(x, y) && StrLeq(y, x) ensures x == y { StrLeqTotal(x, y); }
    }
    var least :| least in s && forall x :: x in s ==> StrLeq(least, x);
    least
  }

  /** No element occurs twice. */
  ghost predicate Distinct<T>(s: seq<T>) {
    forall i, j :: 0 <= i < j < |s| ==> s[i] != s[j]
  }

  ghost predicate Ascending(s: seq<string>) {
    forall i, j :: 0 <= i < j < |s| ==> StrLeq(s[i], s[j])
  }

  /** The ascending listing of a set, without repetition. */
  function Sorted(s: set<string>): (r: seq<string>)
    ensures (set x | x in r) == s
    ensures Distinct(r) && Ascending(r)
    ensures |r| == |s|
    decreases |s|
  {
    if s == {} then []
    else
      var least := Least(s);
      var rest := Sorted(s - {least});
      assert forall x :: x in rest <==> x in s - {least} by {
        assert forall x :: x in (set y | y in rest) <==> x in rest;
      }
      [least] + rest
  }

  /** The order-preserving removal of repeated elements (`dict.fromkeys`). */
  function FirstOccurrences<T(==, !new)>(s: seq<T>): (r: seq<T>)
    ensures Distinct(r)
    ensures forall e :: e in r <==> e in s
  {
    if s == [] then []
    else
      var before, last := FirstOccurrences(s[..|s| - 1]), s[|s| - 1];
      assert s == s[..|s| - 1] + [last];
      if last in before then before else before + [last]
  }

  /** A list put in ascending order (Python's `sorted` on a list). */
  function SortedList(s: seq<string>): (r: seq<string>)
    ensures multiset(r) == multiset(s)
    ensures forall x :: x in r <==> x in s
  {
    if s == [] then []
    else
      var r := Insert(s[0], SortedList(s[1..]));
      assert s == [s[0]] + s[1..];
      assert forall x :: x in r <==> x in multiset(r);
      r
  }

  function Insert(x: string, s: seq<string>): (r: seq<string>)
    ensures multiset(r) == multiset{x} + multiset(s)
  {
    if s == [] then [x]
    else
      assert s == [s[0]] + s[1..];
      if StrLeq(x, s[0]) then [x] + s else [s[0]] + Insert(x, s[1..])
  }

  lemma InsertMembers(x: string, s: seq<string>, y: string)
    ensures y in Insert(x, s) <==> y == x || y in s
  {
    assert y in Insert(x, s) <==> y in multiset(Insert(x, s));
  }

  lemma AscendingCons(y: string, s: seq<string>)
    requires Ascending(s) && forall z :: z in s ==> StrLeq(y, z)
    ensures Ascending([y] + s)
  {
    hide StrLeq;
  }

  lemma AscendingFirst(s: seq<string>)
    requires Ascending(s) && s != []
    ensures Ascending(s[1..]) && forall z :: z in s ==> StrLeq(s[0], z)
  {
    hide StrLeq;
    StrLeqTotal(s[0], s[0]);
  }

  lemma {:induction false} InsertAscending(x: string, s: seq<string>)
    requires Ascending(s)
    ensures Ascending(Insert(x, s))
  {
    hide StrLeq, Ascending;
    if s == [] {
      AscendingOne(x);
    } else {
      AscendingFirst(s);
      StrLeqTotal(x, s[0]);
      if StrLeq(x, s[0]) {
        forall z | z in s ensures StrLeq(x, z) { StrLeqTransitive(x, s[0], z); }
        AscendingCons(x, s);
      } else {
        InsertAscending(x, s[1..]);
        forall z | z in Insert(x, s[1..]) ensures StrLeq(s[0], z) { InsertMembers(x, s[1..], z); }
        AscendingCons(s[0], Insert(x, s[1..]));
      }
    }
  }

  lemma AscendingOne(x: string)
    ensures Ascending([x])
  {
  }

  lemma {:induction false} SortedListAscending(s: seq<string>)
    ensures Ascending(SortedList(s))
  {
    if s != [] {
      SortedListAscending(s[1..]);
      InsertAscending(s[0], SortedList(s[1..]));
    }
  }

  /** A list has no repetition exactly when its set of elements is as large as the list. */
  lemma {:induction false} DistinctBySize<T>(s: seq<T>)
    ensures |set x | x in s| <= |s|
    ensures |set x | x in s| == |s| <==> Distinct(s)
  {
    if s != [] {
      var init, last := s[..|s| - 1], s[|s| - 1];
      DistinctBySize(init);
      var all, before := set x | x in s, set x | x in init;
      assert s == init + [last];
      assert all == before + {last};
      if last in init {
        assert all == before;
        var k :| 0 <= k < |init| && init[k] == last;
        assert s[k] == s[|s| - 1];
      } else {
        assert |all| == |before| + 1;
        if Distinct(init) {
          assert Distinct(s);
        }
        if Distinct(s) {
          assert forall i, j :: 0 <= i < j < |init| ==> init[i] == s[i] && init[j] == s[j];
        }
      }
    }
  }

  /** A list backwards (Python's `reversed`). */
  function Reversed<T(!new)>(s: seq<T>): (r: seq<T>)
    ensures |r| == |s|
    ensures forall i :: 0 <= i < |s| ==> r[i] == s[|s| - 1 - i]
    ensures forall x :: x in r <==> x in s
  {
    if s == [] then [] else Reversed(s[1..]) + [s[0]]
  }

  function Max(a: int, b: int): int { if a >= b then a else b }

  function Min(a: int, b: int): int { if a <= b then a else b }
}
