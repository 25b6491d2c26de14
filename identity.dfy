/**
 * The condition identity table `this.conditions`: for each lower-cased
 * status key and each creature id, the identifier the viewer uses to
 * recognise the same condition badge from one snapshot to the next.
 *
 * `uuidv4` is replaced by a counter: the identifier minted next is `next`,
 * and the table's invariant records that minted identifiers never collide.
 */
module Identity {

  /** An identifier as `uuidv4` would mint it. */
  type Uuid = nat

  /** status key -> creature id -> identifier. */
  type Table = map<string, map<string, Uuid>>

  /** A (lower-cased status key, creature id) pair. */
  type Key = (string, string)

  predicate Has(t: Table, status: string, creature: string) {
    status in t && creature in t[status]
  }

  /** The pairs that have an identifier. */
  ghost function Pairs(t: Table): set<Key> {
    set s, c | s in t && c in t[s] :: (s, c)
  }

  /** `b` keeps every entry of `a`, with the same identifier. */
  ghost predicate Extends(a: Table, b: Table) {
    forall s, c :: Has(a, s, c) ==> Has(b, s, c) && b[s][c] == a[s][c]
  }

  /** No two pairs share an identifier. */
  ghost predicate Injective(t: Table) {
    forall s1, c1, s2, c2 :: Has(t, s1, c1) && Has(t, s2, c2) && (s1 != s2 || c1 != c2)
      ==> t[s1][c1] != t[s2][c2]
  }

  /** Every status key holds at least one creature. */
  ghost predicate NoEmptyRows(t: Table) {
    forall s :: s in t ==> t[s] != map[]
  }

  lemma ExtendsTransitive(a: Table, b: Table, c: Table)
    requires Extends(a, b) && Extends(b, c)
    ensures Extends(a, c)
  {
  }

  /** The table invariant: no empty rows, identifiers below `next` and pairwise distinct. */
  ghost predicate ValidTable(t: Table, next: Uuid) {
    && NoEmptyRows(t)
    && (forall s, c :: Has(t, s, c) ==> t[s][c] < next)
    && Injective(t)
  }

  /** The table after `creature` receives `id` under `status`. */
  function Insert(t: Table, status: string, creature: string, id: Uuid): (t': Table)
    ensures Has(t', status, creature) && t'[status][creature] == id
  {
    var row := if status in t then t[status] else map[];
    t[status := row[creature := id]]
  }

  /**
   * One lookup of `this.conditions[status][creature]`: a pair that has no
   * identifier receives `next`, and the supply moves on; a pair that has
   * one is left alone.
   */
  function Visit(t: Table, next: Uuid, k: Key): (r: (Table, Uuid))
    ensures Has(r.0, k.0, k.1)
  {
    if Has(t, k.0, k.1) then (t, next) else (Insert(t, k.0, k.1, next), next + 1)
  }

  /** The lookups `ks`, in order. */
  function VisitAll(t: Table, next: Uuid, ks: seq<Key>): (Table, Uuid)
  {
    if ks == [] then (t, next)
    else
      var r := VisitAll(t, next, ks[..|ks| - 1]);
      Visit(r.0, r.1, ks[|ks| - 1])
  }

  // ----- one lookup -----

  lemma InsertPairs(t: Table, status: string, creature: string, id: Uuid)
    ensures Pairs(Insert(t, status, creature, id)) == Pairs(t) + {(status, creature)}
  {
    var t' := Insert(t, status, creature, id);
    forall p | p in Pairs(t') ensures p in Pairs(t) + {(status, creature)} {
      assert Has(t', p.0, p.1);
    }
    forall p | p in Pairs(t) ensures p in Pairs(t') {
      assert Has(t, p.0, p.1);
    }
  }

  /**
   * Minting a fresh identifier for a pair that has none keeps every old
   * entry, and keeps identifiers distinct because the new one exceeds all
   * those already handed out.
   */
  lemma InsertFresh(t: Table, next: Uuid, status: string, creature: string)
    requires !Has(t, status, creature)
    requires ValidTable(t, next)
    ensures var t' := Insert(t, status, creature, next);
      ValidTable(t', next + 1) && Extends(t, t')
  {
    var t' := Insert(t, status, creature, next);
    forall s, c | Has(t', s, c)
      ensures (s, c) == (status, creature) || (Has(t, s, c) && t'[s][c] == t[s][c])
    {
    }
  }

  lemma VisitFacts(t: Table, next: Uuid, k: Key)
    ensures var r := Visit(t, next, k);
      Extends(t, r.0) && r.1 >= next && Pairs(r.0) == Pairs(t) + {k}
    ensures ValidTable(t, next) ==> ValidTable(Visit(t, next, k).0, Visit(t, next, k).1)
  {
    if !Has(t, k.0, k.1) {
      InsertPairs(t, k.0, k.1, next);
      var t' := Insert(t, k.0, k.1, next);
      forall s, c | Has(t, s, c) ensures Has(t', s, c) && t'[s][c] == t[s][c] {
      }
      if ValidTable(t, next) {
        InsertFresh(t, next, k.0, k.1);
      }
    } else {
      assert k in Pairs(t);
    }
  }

  // ----- a run of lookups -----

  lemma VisitAllStep(t: Table, next: Uuid, ks: seq<Key>, k: Key)
    ensures VisitAll(t, next, ks + [k]) == Visit(VisitAll(t, next, ks).0, VisitAll(t, next, ks).1, k)
  {
    assert (ks + [k])[..|ks|] == ks;
  }

  /** Running two batches of lookups is running the joined batch. */
  lemma {:induction false} VisitAllAppend(t: Table, next: Uuid, a: seq<Key>, b: seq<Key>)
    ensures VisitAll(t, next, a + b) == VisitAll(VisitAll(t, next, a).0, VisitAll(t, next, a).1, b)
  {
    if b == [] {
      assert a + b == a;
    } else {
      var b' := b[..|b| - 1];
      VisitAllAppend(t, next, a, b');
      assert a + b == (a + b') + [b[|b| - 1]];
      VisitAllStep(t, next, a + b', b[|b| - 1]);
      var r := VisitAll(t, next, a);
      VisitAllStep(r.0, r.1, b', b[|b| - 1]);
      assert b == b' + [b[|b| - 1]];
    }
  }

  /** The pairs a batch of lookups names. */
  ghost function KeySet(ks: seq<Key>): set<Key> {
    set i | 0 <= i < |ks| :: ks[i]
  }

  lemma KeySetStep(ks: seq<Key>)
    requires ks != []
    ensures KeySet(ks) == KeySet(ks[..|ks| - 1]) + {ks[|ks| - 1]}
  {
    var ks' := ks[..|ks| - 1];
    forall p | p in KeySet(ks) ensures p in KeySet(ks') + {ks[|ks| - 1]} {
      var i :| 0 <= i < |ks| && ks[i] == p;
      if i < |ks'| { assert ks'[i] == p; }
    }
    forall p | p in KeySet(ks') ensures p in KeySet(ks) {
      var i :| 0 <= i < |ks'| && ks'[i] == p;
      assert ks[i] == p;
    }
  }

  /**
   * A run of lookups never changes an identifier already handed out, gives
   * an identifier to exactly the pairs looked up and never moves the supply
   * backwards.
   */
  lemma {:induction false} VisitAllGrows(t: Table, next: Uuid, ks: seq<Key>)
    ensures var r := VisitAll(t, next, ks);
      Extends(t, r.0) && r.1 >= next && Pairs(r.0) == Pairs(t) + KeySet(ks)
  {
    if ks != [] {
      var ks' := ks[..|ks| - 1];
      VisitAllGrows(t, next, ks');
      var r := VisitAll(t, next, ks');
      VisitFacts(r.0, r.1, ks[|ks| - 1]);
      KeySetStep(ks);
      ExtendsTransitive(t, r.0, VisitAll(t, next, ks).0);
    }
  }

  /** A run of lookups keeps the table invariant: identifiers stay distinct. */
  lemma {:induction false} VisitAllValid(t: Table, next: Uuid, ks: seq<Key>)
    requires ValidTable(t, next)
    ensures ValidTable(VisitAll(t, next, ks).0, VisitAll(t, next, ks).1)
  {
    if ks != [] {
      VisitAllValid(t, next, ks[..|ks| - 1]);
      var r := VisitAll(t, next, ks[..|ks| - 1]);
      VisitFacts(r.0, r.1, ks[|ks| - 1]);
    }
  }

  /** Every pair looked up has an identifier afterwards. */
  lemma VisitAllCovers(t: Table, next: Uuid, ks: seq<Key>, i: int)
    requires 0 <= i < |ks|
    ensures Has(VisitAll(t, next, ks).0, ks[i].0, ks[i].1)
  {
    VisitAllGrows(t, next, ks);
    assert ks[i] in KeySet(ks);
    assert ks[i] in Pairs(VisitAll(t, next, ks).0);
  }

  /** Looking up pairs that all have identifiers changes nothing: a repeated lookup is idempotent. */
  lemma {:induction false} VisitAllCovered(t: Table, next: Uuid, ks: seq<Key>)
    requires forall i :: 0 <= i < |ks| ==> Has(t, ks[i].0, ks[i].1)
    ensures VisitAll(t, next, ks) == (t, next)
  {
    if ks != [] {
      VisitAllCovered(t, next, ks[..|ks| - 1]);
    }
  }

  /**
   * `this.conditions`: for every lower-cased status, the identifier handed
   * to each creature that has carried it this session.
   */
  class ConditionTable {
    var ids: Table
    /** The identifier the next first sighting receives. */
    var next: Uuid

    ghost predicate Valid()
      reads this
    {
      ValidTable(ids, next)
    }

    /** `this.conditions = {}` when the server starts. */
    constructor ()
      ensures Valid()
      ensures ids == map[] && Pairs(ids) == {}
    {
      ids := map[];
      next := 0;
    }

    /**
     * `this.conditions[status][creature]`, minted on first sight and kept
     * for the rest of the session.
     */
    method StableId(status: string, creature: string) returns (id: Uuid)
      modifies this
      ensures (ids, next) == Visit(old(ids), old(next), (status, creature))
      ensures Has(ids, status, creature) && ids[status][creature] == id
      ensures Has(old(ids), status, creature) ==> id == old(ids)[status][creature]
      ensures !Has(old(ids), status, creature) ==> id == old(next)
      ensures old(Valid()) ==> Valid()
    {
      ghost var t := ids;
      if status !in ids {
        ids := ids[status := map[]];
      }
      if creature !in ids[status] {
        var row: map<string, Uuid> := ids[status];
        ids := ids[status := row[creature := next]];
        next := next + 1;
      }
      id := ids[status][creature];
      assert !Has(t, status, creature) ==> ids == Insert(t, status, creature, old(next));
      VisitFacts(t, old(next), (status, creature));
    }
  }
}
