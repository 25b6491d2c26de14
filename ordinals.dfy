/**
 * Ordinal assignment: the `Object.entries(creatureOrds)` loop, which numbers
 * the rows of every name that occurs more than once in the snapshot, 1..k in
 * list order, before the rows are sorted.
 */
module Ordinals {
  import opened Wrappers
  import opened Rows

  /** The names to number: those flagged `true` in `creatureOrds`. */
  function Flagged(flags: map<string, bool>): set<string> {
    set n | n in flags && flags[n]
  }

  /** The rows after every row whose name is in `names` receives its 1-based position among its namesakes. */
  function NumberedBy(s: seq<Row>, names: set<string>): (r: seq<Row>)
    ensures |r| == |s|
  {
    seq(|s|, j requires 0 <= j < |s| =>
      if s[j].name in names then s[j].(ordinal := Some(Occurrences(s[..j], s[j].name) + 1)) else s[j])
  }

  /** The rows after the ordinal loop has run over `creatureOrds`. */
  function Numbered(s: seq<Row>, flags: map<string, bool>): (r: seq<Row>)
    ensures |r| == |s|
  {
    NumberedBy(s, Flagged(flags))
  }

  /** The ordinals that rows named `name` carry. */
  function OrdinalSet(rows: seq<Row>, name: string): set<int> {
    set r | r in rows && r.name == name && r.ordinal.Some? :: r.ordinal.value
  }

  lemma OccurrencesStep(s: seq<Row>, j: int, name: string)
    requires 0 <= j < |s|
    ensures Occurrences(s[..j + 1], name) == Occurrences(s[..j], name) + (if s[j].name == name then 1 else 0)
  {
    assert s[..j + 1][..j] == s[..j];
  }

  lemma {:induction false} OccurrencesPrefix(s: seq<Row>, j: int, name: string)
    requires 0 <= j <= |s|
    ensures Occurrences(s[..j], name) <= Occurrences(s, name)
    ensures j < |s| && s[j].name == name ==> Occurrences(s[..j], name) < Occurrences(s, name)
    decreases |s| - j
  {
    if j < |s| {
      OccurrencesStep(s, j, name);
      OccurrencesPrefix(s, j + 1, name);
    } else {
      assert s[..j] == s;
    }
  }

  /** Every count below the total is reached just before some namesake. */
  lemma {:induction false} OccurrenceReached(s: seq<Row>, name: string, m: nat)
    requires m < Occurrences(s, name)
    ensures exists j :: 0 <= j < |s| && s[j].name == name && Occurrences(s[..j], name) == m
  {
    var init := s[..|s| - 1];
    if m < Occurrences(init, name) {
      OccurrenceReached(init, name, m);
      var j :| 0 <= j < |init| && init[j].name == name && Occurrences(init[..j], name) == m;
      assert init[..j] == s[..j];
    } else {
      assert init == s[..|s| - 1];
    }
  }

  /**
   * For a name that occurs k >= 2 times, numbering with the flags the pass
   * computed hands its rows exactly the ordinals 1..k.
   */
  lemma DuplicatesNumberedOneToK(s: seq<Row>, name: string)
    requires Occurrences(s, name) >= 2
    ensures forall i :: i in OrdinalSet(Numbered(s, DuplicateFlags(s)), name) <==> 1 <= i <= Occurrences(s, name)
  {
    var r := Numbered(s, DuplicateFlags(s));
    var k := Occurrences(s, name);
    OccurrencesPositive(s, name);
    assert name in Flagged(DuplicateFlags(s));
    forall i | i in OrdinalSet(r, name) ensures 1 <= i <= k {
      var x :| x in r && x.name == name && x.ordinal.Some? && x.ordinal.value == i;
      var j :| 0 <= j < |r| && r[j] == x;
      OccurrencesPrefix(s, j, name);
    }
    forall i | 1 <= i <= k ensures i in OrdinalSet(r, name) {
      OccurrenceReached(s, name, i - 1);
      var j :| 0 <= j < |s| && s[j].name == name && Occurrences(s[..j], name) == i - 1;
      assert r[j] in r;
    }
  }

  /** A name that occurs once keeps its row unnumbered: numbering does not touch it. */
  lemma UniqueNamesUntouched(s: seq<Row>, j: int)
    requires 0 <= j < |s| && Occurrences(s, s[j].name) < 2
    ensures Numbered(s, DuplicateFlags(s))[j] == s[j]
  {
  }

  /** Rows without ordinals whose name occurs once come out of numbering without one. */
  lemma UniqueNamesUnnumbered(s: seq<Row>, name: string)
    requires forall j :: 0 <= j < |s| ==> s[j].ordinal.None?
    requires Occurrences(s, name) < 2
    ensures OrdinalSet(Numbered(s, DuplicateFlags(s)), name) == {}
  {
    var r := Numbered(s, DuplicateFlags(s));
    forall x | x in r && x.name == name ensures x.ordinal.None? {
      var j :| 0 <= j < |r| && r[j] == x;
      UniqueNamesUntouched(s, j);
    }
  }

  /** Within one name, ordinals increase in list order, so no two namesakes share one. */
  lemma OrdinalsFollowListOrder(s: seq<Row>, names: set<string>, i: int, j: int)
    requires 0 <= i < j < |s| && s[i].name == s[j].name && s[j].name in names
    ensures NumberedBy(s, names)[i].ordinal.value < NumberedBy(s, names)[j].ordinal.value
  {
    OccurrencesPrefix(s[..j], i, s[i].name);
    assert s[..j][..i] == s[..i];
    OccurrencesStep(s[..j], i, s[i].name);
    assert s[..j][..i + 1] == s[..i + 1];
    OccurrencesPrefix(s[..j], i + 1, s[i].name);
    assert s[..j][..i + 1] == s[..i + 1];
  }

  /** Numbering changes nothing but ordinals. */
  lemma NumberingKeepsFields(s: seq<Row>, names: set<string>, j: int)
    requires 0 <= j < |s|
    ensures NumberedBy(s, names)[j].(ordinal := s[j].ordinal) == s[j]
  {
  }

  /**
   * The walk for `key` after `j` rows: those rows are numbered for
   * `names + {key}`, the rest still for `names`, and `i` is the next ordinal.
   */
  ghost predicate Walked(cur: seq<Row>, orig: seq<Row>, names: set<string>, key: string, j: int, i: int) {
    && |cur| == |orig| && 0 <= j <= |orig| && key !in names
    && i == Occurrences(orig[..j], key) + 1
    && (forall m :: 0 <= m < j ==> cur[m] == NumberedBy(orig, names + {key})[m])
    && (forall m :: j <= m < |cur| ==> cur[m] == NumberedBy(orig, names)[m])
  }

  lemma WalkStart(cur: seq<Row>, orig: seq<Row>, names: set<string>, key: string)
    requires cur == NumberedBy(orig, names) && key !in names
    ensures Walked(cur, orig, names, key, 0, 1)
  {
    assert orig[..0] == [];
  }

  lemma WalkStep(cur: seq<Row>, orig: seq<Row>, names: set<string>, key: string, j: int, i: int)
    requires Walked(cur, orig, names, key, j, i) && j < |orig|
    ensures cur[j].name == key ==> Walked(cur[j := cur[j].(ordinal := Some(i))], orig, names, key, j + 1, i + 1)
    ensures cur[j].name != key ==> Walked(cur, orig, names, key, j + 1, i)
  {
    OccurrencesStep(orig, j, key);
    assert NumberedBy(orig, names + {key})[j] ==
      if orig[j].name == key then NumberedBy(orig, names)[j].(ordinal := Some(Occurrences(orig[..j], key) + 1))
      else NumberedBy(orig, names)[j];
  }

  lemma WalkEnd(cur: seq<Row>, orig: seq<Row>, names: set<string>, key: string, i: int)
    requires Walked(cur, orig, names, key, |orig|, i)
    ensures cur == NumberedBy(orig, names + {key})
  {
  }

  lemma FlaggedStep(flags: map<string, bool>, done: set<string>, key: string)
    requires key in flags
    ensures Flagged(flags) * (done + {key}) == Flagged(flags) * done + (if flags[key] then {key} else {})
  {
  }

  /**
   * The loop itself: for each key of `creatureOrds` whose value is `true`,
   * walk the rows in order and give the i-th row of that name ordinal i.
   * The keys may be visited in any order: the result does not depend on it.
   */
  method AssignOrdinals(rows: array<Row>, creatureOrds: map<string, bool>)
    modifies rows
    ensures rows[..] == Numbered(old(rows[..]), creatureOrds)
  {
    ghost var orig := rows[..];
    var pending := creatureOrds.Keys;
    ghost var done: set<string> := {};
    while pending != {}
      invariant pending + done == creatureOrds.Keys && pending !! done
      invariant rows.Length == |orig|
      invariant rows[..] == NumberedBy(orig, Flagged(creatureOrds) * done)
      decreases pending
    {
      var key :| key in pending;
      pending := pending - {key};
      ghost var names := Flagged(creatureOrds) * done;
      FlaggedStep(creatureOrds, done, key);
      if creatureOrds[key] {
        var i := 1;
        WalkStart(rows[..], orig, names, key);
        for j := 0 to rows.Length
          invariant Walked(rows[..], orig, names, key, j, i)
        {
          WalkStep(rows[..], orig, names, key, j, i);
          if rows[j].name == key {
            rows[j] := rows[j].(ordinal := Some(i));
            i := i + 1;
          }
        }
        WalkEnd(rows[..], orig, names, key, i);
      }
      done := done + {key};
    }
    assert Flagged(creatureOrds) * done == Flagged(creatureOrds);
  }
}
