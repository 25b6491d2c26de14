/**
 * `rows.sort((a, b) => b.initiative - a.initiative)`: a stable sort by
 * initiative, highest first. The specification is insertion sort on
 * sequences; any stable descending sort agrees with it (StableSortUnique).
 */
module Sorting {
  import opened Rows

  /** Highest initiative first. */
  predicate Sorted(s: seq<Row>) {
    forall i, j :: 0 <= i < j < |s| ==> s[i].initiative >= s[j].initiative
  }

  /** The rows of `s` whose initiative is `v`, in their order in `s`. */
  function Tied(s: seq<Row>, v: real): (r: seq<Row>)
    ensures |r| <= |s|
  {
    if s == [] then []
    else (if s[0].initiative == v then [s[0]] else []) + Tied(s[1..], v)
  }

  /** `x` placed after every row whose initiative is at least its own. */
  function InsertDesc(t: seq<Row>, x: Row): (r: seq<Row>)
    ensures |r| == |t| + 1
  {
    if t == [] then [x]
    else if t[0].initiative >= x.initiative then
      assert t == [t[0]] + t[1..];
      [t[0]] + InsertDesc(t[1..], x)
    else [x] + t
  }

  /** Insertion sort, each row inserted after the rows already placed. */
  function SortDesc(s: seq<Row>): (r: seq<Row>)
    ensures |r| == |s|
  {
    if s == [] then []
    else InsertDesc(SortDesc(s[..|s| - 1]), s[|s| - 1])
  }

  /** A stable descending sort of `s`: sorted, and each group of tied rows in its original order. */
  ghost predicate StableSortOf(r: seq<Row>, s: seq<Row>) {
    Sorted(r) && forall v :: Tied(r, v) == Tied(s, v)
  }

  lemma {:induction false} TiedAppend(a: seq<Row>, b: seq<Row>, v: real)
    ensures Tied(a + b, v) == Tied(a, v) + Tied(b, v)
  {
    if a != [] {
      assert (a + b)[1..] == a[1..] + b;
      TiedAppend(a[1..], b, v);
    } else {
      assert a + b == b;
    }
  }

  lemma {:induction false} InsertDescPermutes(t: seq<Row>, x: Row)
    ensures multiset(InsertDesc(t, x)) == multiset(t) + multiset{x}
  {
    if t != [] && t[0].initiative >= x.initiative {
      InsertDescPermutes(t[1..], x);
      assert t == [t[0]] + t[1..];
    }
  }

  /** The specification sort is a permutation of its input. */
  lemma {:induction false} SortDescPermutes(s: seq<Row>)
    ensures multiset(SortDesc(s)) == multiset(s)
  {
    if s != [] {
      var init, last := s[..|s| - 1], s[|s| - 1];
      assert multiset(SortDesc(s)) == multiset(SortDesc(init)) + multiset{last} by {
        InsertDescPermutes(SortDesc(init), last);
      }
      assert multiset(SortDesc(init)) == multiset(init) by {
        SortDescPermutes(init);
      }
      assert multiset(s) == multiset(init) + multiset{last} by {
        assert s == init + [last];
      }
    }
  }

  lemma {:induction false} InsertDescSorted(t: seq<Row>, x: Row)
    requires Sorted(t)
    ensures Sorted(InsertDesc(t, x))
  {
    if t != [] && t[0].initiative >= x.initiative {
      var rest := InsertDesc(t[1..], x);
      SortedTail(t);
      InsertDescSorted(t[1..], x);
      InsertDescPermutes(t[1..], x);
      forall k | 0 <= k < |rest| ensures rest[k].initiative <= t[0].initiative {
        assert rest[k] in multiset(rest);
        assert rest[k] in multiset(t[1..]) || rest[k] == x;
        if rest[k] in multiset(t[1..]) {
          var m :| 0 <= m < |t[1..]| && t[1..][m] == rest[k];
          assert t[m + 1] == rest[k];
        }
      }
      SortedCons(t[0], rest);
    } else if t != [] {
      SortedCons(x, t);
    }
  }

  lemma SortedCons(x: Row, r: seq<Row>)
    requires Sorted(r) && forall k :: 0 <= k < |r| ==> r[k].initiative <= x.initiative
    ensures Sorted([x] + r)
  {
    forall i, j | 0 <= i < j < |r| + 1 ensures ([x] + r)[i].initiative >= ([x] + r)[j].initiative {
      assert ([x] + r)[j] == r[j - 1];
      if i > 0 {
        assert ([x] + r)[i] == r[i - 1];
      }
    }
  }

  /** Inserting `x` adds it at the end of its tie group and leaves every other group alone. */
  lemma {:induction false} InsertDescTied(t: seq<Row>, x: Row, v: real)
    requires Sorted(t)
    ensures Tied(InsertDesc(t, x), v) == Tied(t, v) + (if x.initiative == v then [x] else [])
  {
    var tail := if x.initiative == v then [x] else [];
    if t == [] {
      assert [x][1..] == [];
    } else if t[0].initiative >= x.initiative {
      var head := if t[0].initiative == v then [t[0]] else [];
      var rest := InsertDesc(t[1..], x);
      assert Tied(rest, v) == Tied(t[1..], v) + tail by {
        SortedTail(t);
        InsertDescTied(t[1..], x, v);
      }
      assert Tied([t[0]] + rest, v) == head + Tied(rest, v) by {
        assert ([t[0]] + rest)[1..] == rest;
      }
    } else {
      assert ([x] + t)[1..] == t;
      if x.initiative == v {
        TiedNone(t, v);
      }
    }
  }

  /** No row of `t` is tied at `v` when `v` exceeds its first initiative. */
  lemma {:induction false} TiedNone(t: seq<Row>, v: real)
    requires Sorted(t) && t != [] && t[0].initiative < v
    ensures Tied(t, v) == []
  {
    if |t| > 1 {
      SortedTail(t);
      TiedNone(t[1..], v);
    }
  }

  /** The specification sort is sorted. */
  lemma {:induction false} SortDescSorted(s: seq<Row>)
    ensures Sorted(SortDesc(s))
  {
    if s != [] {
      SortDescSorted(s[..|s| - 1]);
      InsertDescSorted(SortDesc(s[..|s| - 1]), s[|s| - 1]);
    }
  }

  /** The specification sort keeps each tie group in its original order. */
  lemma {:induction false} SortDescStable(s: seq<Row>, v: real)
    ensures Tied(SortDesc(s), v) == Tied(s, v)
  {
    if s != [] {
      var init, last := s[..|s| - 1], s[|s| - 1];
      var tail := if last.initiative == v then [last] else [];
      assert Tied(SortDesc(s), v) == Tied(init, v) + tail by {
        SortDescStable(init, v);
        SortDescSorted(init);
        InsertDescTied(SortDesc(init), last, v);
      }
      assert Tied(s, v) == Tied(init, v) + tail by {
        assert s == init + [last];
        TiedAppend(init, [last], v);
        assert [last][1..] == [];
      }
    }
  }

  lemma SortDescIsStableSort(s: seq<Row>)
    ensures StableSortOf(SortDesc(s), s)
  {
    SortDescSorted(s);
    forall v ensures Tied(SortDesc(s), v) == Tied(s, v) {
      SortDescStable(s, v);
    }
  }

  /** A sorted sequence starts with its first tied row. */
  lemma HeadOfTied(r: seq<Row>)
    requires r != []
    ensures Tied(r, r[0].initiative) != [] && Tied(r, r[0].initiative)[0] == r[0]
  {
  }

  /** Any sorted sequence with a row at `v` starts at or above `v`. */
  lemma {:induction false} TiedNonEmptyBound(r: seq<Row>, v: real)
    requires Sorted(r) && Tied(r, v) != []
    ensures r[0].initiative >= v
  {
    if r[0].initiative != v {
      SortedTail(r);
      TiedNonEmptyBound(r[1..], v);
    }
  }

  lemma SortedTail(t: seq<Row>)
    requires Sorted(t) && t != []
    ensures Sorted(t[1..])
  {
    forall i, j | 0 <= i < j < |t| - 1 ensures t[1..][i].initiative >= t[1..][j].initiative {
      assert t[1..][i] == t[i + 1] && t[1..][j] == t[j + 1];
    }
  }

  /** Equal tie groups and equal first rows leave equal tie groups behind the first row. */
  lemma TiedTails(a: seq<Row>, b: seq<Row>)
    requires a != [] && b != [] && a[0] == b[0]
    requires forall v :: Tied(a, v) == Tied(b, v)
    ensures forall v :: Tied(a[1..], v) == Tied(b[1..], v)
  {
    forall v ensures Tied(a[1..], v) == Tied(b[1..], v) {
      var head := if a[0].initiative == v then [a[0]] else [];
      assert Tied(a, v) == head + Tied(a[1..], v);
      assert Tied(b, v) == head + Tied(b[1..], v);
      assert Tied(a, v) == Tied(b, v);
      assert Tied(a[1..], v) == (head + Tied(a[1..], v))[|head|..];
      assert Tied(b[1..], v) == (head + Tied(b[1..], v))[|head|..];
    }
  }

  /** Two sorted sequences with the same tie groups start with the same row. */
  lemma SameHead(a: seq<Row>, b: seq<Row>)
    requires Sorted(a) && Sorted(b) && a != [] && b != []
    requires forall v :: Tied(a, v) == Tied(b, v)
    ensures a[0] == b[0]
  {
    HeadOfTied(a);
    HeadOfTied(b);
    assert Tied(b, a[0].initiative) != [];
    assert Tied(a, b[0].initiative) != [];
    TiedNonEmptyBound(b, a[0].initiative);
    TiedNonEmptyBound(a, b[0].initiative);
  }

  /** Two stable descending sorts of the same rows are the same sequence. */
  lemma {:induction false} SortedTiesDetermine(a: seq<Row>, b: seq<Row>)
    requires Sorted(a) && Sorted(b)
    requires forall v :: Tied(a, v) == Tied(b, v)
    ensures a == b
    decreases |a|
  {
    if a == [] && b == [] {
    } else if a == [] || b == [] {
      var c := if a == [] then b else a;
      assert Tied(a, c[0].initiative) != Tied(b, c[0].initiative);
      assert false;
    } else {
      SameHead(a, b);
      TiedTails(a, b);
      SortedTail(a);
      SortedTail(b);
      SortedTiesDetermine(a[1..], b[1..]);
      assert a == [a[0]] + a[1..];
      assert b == [b[0]] + b[1..];
    }
  }

  /** Whatever stable algorithm sorts the rows, the result is SortDesc. */
  lemma StableSortUnique(r: seq<Row>, s: seq<Row>)
    requires StableSortOf(r, s)
    ensures r == SortDesc(s)
  {
    SortDescIsStableSort(s);
    SortedTiesDetermine(r, SortDesc(s));
  }

  /** Where a row lands in sorted `t`: after every row at or above it. */
  lemma {:induction false} InsertDescAt(t: seq<Row>, x: Row, j: int)
    requires Sorted(t) && 0 <= j <= |t|
    requires forall k :: j <= k < |t| ==> t[k].initiative < x.initiative
    requires j > 0 ==> t[j - 1].initiative >= x.initiative
    ensures InsertDesc(t, x) == t[..j] + [x] + t[j..]
  {
    if j > 0 {
      SortedTail(t);
      InsertDescAt(t[1..], x, j - 1);
      assert t[1..][..j - 1] == t[1..j];
      assert t[1..][j - 1..] == t[j..];
      assert t[..j] == [t[0]] + t[1..j];
    } else if t != [] {
      assert t[..0] == [] && t[0..] == t;
    }
  }

  /** The first `i` rows of `cur` are the sorted first `i` rows of `orig`; the rest are untouched. */
  ghost predicate Placed(cur: seq<Row>, orig: seq<Row>, i: int) {
    0 <= i <= |orig| && |cur| == |orig| &&
    cur[..i] == SortDesc(orig[..i]) && cur[i..] == orig[i..]
  }

  /** Mid-insertion of `orig[i]`: the sorted prefix `t` with its rows from `j` on shifted one place right. */
  ghost predicate Shifted(cur: seq<Row>, orig: seq<Row>, t: seq<Row>, i: int, j: int) {
    0 <= j <= i < |orig| && |cur| == |orig| && t == SortDesc(orig[..i]) &&
    cur[..j] == t[..j] && cur[j + 1..i + 1] == t[j..i] && cur[i + 1..] == orig[i + 1..] &&
    forall k :: j <= k < i ==> t[k].initiative < orig[i].initiative
  }

  lemma ShiftStart(cur: seq<Row>, orig: seq<Row>, i: int)
    requires Placed(cur, orig, i) && i < |orig|
    ensures Shifted(cur, orig, SortDesc(orig[..i]), i, i)
  {
  }

  lemma ShiftStep(cur: seq<Row>, orig: seq<Row>, t: seq<Row>, i: int, j: int)
    requires Shifted(cur, orig, t, i, j) && j > 0 && cur[j - 1].initiative < orig[i].initiative
    ensures Shifted(cur[j := cur[j - 1]], orig, t, i, j - 1)
  {
    var next := cur[j := cur[j - 1]];
    assert next[..j - 1] == cur[..j - 1];
    assert next[j..i + 1] == [cur[j - 1]] + cur[j + 1..i + 1];
    assert t[j - 1..i] == [t[j - 1]] + t[j..i];
  }

  lemma ShiftDone(cur: seq<Row>, orig: seq<Row>, t: seq<Row>, i: int, j: int)
    requires Shifted(cur, orig, t, i, j) && (j == 0 || cur[j - 1].initiative >= orig[i].initiative)
    ensures Placed(cur[j := orig[i]], orig, i + 1)
  {
    var next := cur[j := orig[i]];
    SortDescSorted(orig[..i]);
    InsertDescAt(t, orig[i], j);
    assert orig[..i + 1] == orig[..i] + [orig[i]];
    assert next[..i + 1] == t[..j] + [orig[i]] + t[j..] by {
      assert next[..i + 1] == next[..j] + [next[j]] + next[j + 1..i + 1];
    }
    assert next[i + 1..] == cur[i + 1..];
  }

  /**
   * In-place stable sort of the row array: insertion sort, shifting every
   * row of lower initiative one place right.
   */
  method SortByInitiative(a: array<Row>)
    modifies a
    ensures a[..] == SortDesc(old(a[..]))
  {
    ghost var orig := a[..];
    for i := 0 to a.Length
      invariant Placed(a[..], orig, i)
    {
      var x := a[i];
      ghost var t := SortDesc(orig[..i]);
      ShiftStart(a[..], orig, i);
      var j := i;
      while j > 0 && a[j - 1].initiative < x.initiative
        invariant Shifted(a[..], orig, t, i, j)
      {
        ShiftStep(a[..], orig, t, i, j);
        a[j] := a[j - 1];
        j := j - 1;
      }
      ShiftDone(a[..], orig, t, i, j);
      a[j] := x;
    }
    assert orig[..a.Length] == orig;
  }
}
