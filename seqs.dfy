/** Sequence operations the data-set pipeline borrows from JavaScript's
    arrays and sets: `filter`, a stable `sort` by a numeric key, `reverse`,
    and the first-occurrence order in which a `Set` yields its elements. */
module Seqs {

  /** No element occurs twice. */
  predicate NoDups<T(==)>(s: seq<T>) {
    forall i, j :: 0 <= i < j < |s| ==> s[i] != s[j]
  }

  /** Non-decreasing by `key`. */
  predicate SortedBy<T>(s: seq<T>, key: T -> int) {
    forall i, j :: 0 <= i < j < |s| ==> key(s[i]) <= key(s[j])
  }

  /** `s.filter(p)`: the elements satisfying `p`, in their original order. */
  function Filter<T(!new)>(s: seq<T>, p: T -> bool): (r: seq<T>)
    ensures |r| <= |s|
    ensures forall x :: x in r <==> x in s && p(x)
  {
    if |s| == 0 then [] else (if p(s[0]) then [s[0]] else []) + Filter(s[1..], p)
  }

  /** Filtering distributes over concatenation: the kept elements of a
      prefix come before the kept elements of what follows it. */
  lemma {:induction false} FilterAppend<T(!new)>(a: seq<T>, b: seq<T>, p: T -> bool)
    ensures Filter(a + b, p) == Filter(a, p) + Filter(b, p)
  {
    if |a| == 0 {
      assert a + b == b;
    } else {
      assert (a + b)[1..] == a[1..] + b;
      FilterAppend(a[1..], b, p);
    }
  }

  /** The positions in `s` of the elements that pass `p`, ascending. */
  function Positions<T>(s: seq<T>, p: T -> bool): seq<nat> {
    if |s| == 0 then []
    else
      var rest := Positions(s[1..], p);
      (if p(s[0]) then [0] else []) + seq(|rest|, i requires 0 <= i < |rest| => rest[i] + 1)
  }

  lemma {:induction false} PositionsSelect<T(!new)>(s: seq<T>, p: T -> bool)
    ensures |Positions(s, p)| == |Filter(s, p)|
    ensures forall i :: 0 <= i < |Positions(s, p)| ==>
      Positions(s, p)[i] < |s| && Filter(s, p)[i] == s[Positions(s, p)[i]]
  {
    if |s| > 0 {
      PositionsSelect(s[1..], p);
      var rest := Positions(s[1..], p);
      var head := if p(s[0]) then [0] else [];
      var pos := Positions(s, p);
      assert Filter(s, p) == (if p(s[0]) then [s[0]] else []) + Filter(s[1..], p);
      forall i | 0 <= i < |pos| ensures pos[i] < |s| && Filter(s, p)[i] == s[pos[i]] {
        if i >= |head| {
          assert pos[i] == rest[i - |head|] + 1;
          assert Filter(s[1..], p)[i - |head|] == s[1..][rest[i - |head|]];
        }
      }
    }
  }

  lemma {:induction false} PositionsIncreasing<T>(s: seq<T>, p: T -> bool)
    ensures forall i, j :: 0 <= i < j < |Positions(s, p)| ==> Positions(s, p)[i] < Positions(s, p)[j]
  {
    if |s| > 0 {
      PositionsIncreasing(s[1..], p);
      var rest := Positions(s[1..], p);
      var head := if p(s[0]) then [0] else [];
      var pos := Positions(s, p);
      forall i, j | 0 <= i < j < |pos| ensures pos[i] < pos[j] {
        if i >= |head| {
          assert pos[i] == rest[i - |head|] + 1;
        }
        assert pos[j] == rest[j - |head|] + 1;
      }
    }
  }

  lemma {:induction false} PositionsCover<T>(s: seq<T>, p: T -> bool)
    ensures forall j :: 0 <= j < |s| && p(s[j]) ==> j in Positions(s, p)
  {
    if |s| > 0 {
      PositionsCover(s[1..], p);
      var rest := Positions(s[1..], p);
      var head := if p(s[0]) then [0] else [];
      var pos := Positions(s, p);
      forall j | 0 <= j < |s| && p(s[j]) ensures j in pos {
        if j > 0 {
          assert s[1..][j - 1] == s[j];
          var i :| 0 <= i < |rest| && rest[i] == j - 1;
          assert pos[|head| + i] == j;
        } else {
          assert pos[0] == 0;
        }
      }
    }
  }

  /** The filter keeps order and drops only what fails `p`: its result is
      `s` read at strictly increasing positions, and every position whose
      element passes is among them. */
  lemma FilterPositions<T(!new)>(s: seq<T>, p: T -> bool)
    ensures var pos := Positions(s, p);
      && |pos| == |Filter(s, p)|
      && (forall i :: 0 <= i < |pos| ==> pos[i] < |s| && Filter(s, p)[i] == s[pos[i]])
      && (forall i, j :: 0 <= i < j < |pos| ==> pos[i] < pos[j])
      && (forall j :: 0 <= j < |s| && p(s[j]) ==> j in pos)
  {
    PositionsSelect(s, p);
    PositionsIncreasing(s, p);
    PositionsCover(s, p);
  }

  /** Places `x` before the first element whose key is not smaller, so that
      `x` precedes the elements of `s` it ties with. */
  function InsertBy<T(!new)>(x: T, s: seq<T>, key: T -> int): (r: seq<T>)
    requires SortedBy(s, key)
    ensures |r| == |s| + 1
    ensures r[0] == if |s| == 0 || key(x) <= key(s[0]) then x else s[0]
    ensures SortedBy(r, key)
    ensures multiset(r) == multiset(s) + multiset{x}
  {
    if |s| == 0 || key(x) <= key(s[0]) then [x] + s
    else
      var rest := InsertBy(x, s[1..], key);
      var r := [s[0]] + rest;
      assert s == [s[0]] + s[1..];
      assert key(s[0]) <= key(rest[0]);
      forall i, j | 0 <= i < j < |r| ensures key(r[i]) <= key(r[j]) {
        assert r[j] == rest[j - 1];
        if 0 < i {
          assert r[i] == rest[i - 1];
        } else if 1 < j {
          assert key(rest[0]) <= key(rest[j - 1]);
        }
      }
      assert multiset(r) == multiset{s[0]} + multiset(rest);
      r
  }

  /** `s.sort((a, b) => key(a) < key(b) ? -1 : key(a) > key(b) ? 1 : 0)`:
      an insertion sort. Like the stable sort of the JavaScript engines it
      keeps elements with equal keys in their input order, but no contract
      below states that order. */
  function SortBy<T(!new)>(s: seq<T>, key: T -> int): (r: seq<T>)
    ensures SortedBy(r, key)
    ensures multiset(r) == multiset(s)
    ensures |r| == |s|
    ensures forall y :: y in r <==> y in s
  {
    if |s| == 0 then []
    else
      assert s == [s[0]] + s[1..];
      var r := InsertBy(s[0], SortBy(s[1..], key), key);
      assert forall y :: y in r <==> y in multiset(r);
      r
  }

  /** Inserting an element that is not yet present keeps a sequence free of duplicates. */
  lemma {:induction false} InsertByNoDups<T(!new)>(x: T, s: seq<T>, key: T -> int)
    requires SortedBy(s, key) && NoDups(s) && x !in s
    ensures NoDups(InsertBy(x, s, key))
  {
    if |s| > 0 && key(x) > key(s[0]) {
      InsertByNoDups(x, s[1..], key);
      assert s[0] !in s[1..];
      assert s[0] !in multiset(InsertBy(x, s[1..], key));
    }
  }

  /** Sorting does not create duplicates. */
  lemma {:induction false} SortByNoDups<T(!new)>(s: seq<T>, key: T -> int)
    requires NoDups(s)
    ensures NoDups(SortBy(s, key))
  {
    if |s| > 0 {
      assert NoDups(s[1..]);
      SortByNoDups(s[1..], key);
      assert s[0] !in s[1..];
      InsertByNoDups(s[0], SortBy(s[1..], key), key);
    }
  }

  /** `s.reverse()`. */
  function Reverse<T>(s: seq<T>): (r: seq<T>)
    ensures |r| == |s|
    ensures forall i :: 0 <= i < |s| ==> r[i] == s[|s| - 1 - i]
  {
    if |s| == 0 then [] else Reverse(s[1..]) + [s[0]]
  }

  /** Reversing permutes. */
  lemma {:induction false} ReverseMultiset<T>(s: seq<T>)
    ensures multiset(Reverse(s)) == multiset(s)
  {
    if |s| > 0 {
      ReverseMultiset(s[1..]);
      assert s == [s[0]] + s[1..];
    }
  }

  /** The elements of `new Set(s)` in iteration order: each distinct element
      once, at the place of its first occurrence. */
  function Distinct<T(==,!new)>(s: seq<T>): (r: seq<T>)
    ensures NoDups(r)
    ensures forall x :: x in r <==> x in s
  {
    if |s| == 0 then []
    else
      var d := Distinct(s[..|s| - 1]);
      assert s == s[..|s| - 1] + [s[|s| - 1]];
      if s[|s| - 1] in d then d else d + [s[|s| - 1]]
  }

  /** `x` occurs in `s` at a place before any occurrence of `y`. */
  predicate OccursBefore<T(==)>(s: seq<T>, x: T, y: T) {
    exists a :: 0 <= a < |s| && s[a] == x && y !in s[..a + 1]
  }

  /** The order in which a `Set` yields its elements is the order of their
      first occurrence: of two elements of the result, the earlier one
      occurs in the list before any occurrence of the later one. */
  lemma {:induction false} DistinctFirstOccurrence<T(!new)>(s: seq<T>)
    ensures forall i, j :: 0 <= i < j < |Distinct(s)| ==> OccursBefore(s, Distinct(s)[i], Distinct(s)[j])
  {
    if |s| > 0 {
      var p := s[..|s| - 1];
      var x := s[|s| - 1];
      var d := Distinct(p);
      var r := Distinct(s);
      DistinctFirstOccurrence(p);
      assert r == if x in d then d else d + [x];
      forall i, j | 0 <= i < j < |r| ensures OccursBefore(s, r[i], r[j]) {
        assert r[i] == d[i];
        if j < |d| {
          assert OccursBefore(p, d[i], d[j]);
          var a :| 0 <= a < |p| && p[a] == d[i] && d[j] !in p[..a + 1];
          assert s[..a + 1] == p[..a + 1];
          assert s[a] == r[i] && r[j] !in s[..a + 1];
        } else {
          assert d[i] in p;
          var a :| 0 <= a < |p| && p[a] == d[i];
          assert s[..a + 1] == p[..a + 1];
          assert x !in p;
          assert s[a] == r[i] && r[j] !in s[..a + 1];
        }
      }
    }
  }
}
