/**
 * Row building: the `data.creatures.map(...).filter(...)` pass of the
 * broadcast tick, which turns each creature the host tracks into the row a
 * viewer receives.
 */
module Rows {
  import opened Wrappers
  import opened Text
  import opened Catalog
  import opened Wound
  import opened Identity

  /** A creature record as the host initiative tracker holds it. */
  datatype Creature = Creature(
    id: string,
    name: string,
    display: Option<string>,
    initiative: real,
    active: bool,
    hidden: bool,
    player: bool,
    currentHP: int,
    currentMaxHP: int,
    status: seq<string>)

  /** Player rows carry raw hit points; every other row only a wound level. */
  datatype Hp = RawHp(hpCurrent: int, hpMax: int) | Wounded(hpWoundLevel: int)

  /** `{entity, rounds: null, id}`; `rounds` is always null and is not carried. */
  datatype ConditionPayload = ConditionPayload(entity: Option<ConditionDef>, id: Uuid)

  /** A wire row; `rowStatColData` is always `[]` and is not carried. */
  datatype Row = Row(
    name: string,
    customName: Option<string>,
    initiative: real,
    isActive: bool,
    hp: Hp,
    conditions: seq<ConditionPayload>,
    ordinal: Option<int>)

  // ----- what a snapshot is made of -----

  /** The creatures that are not hidden, in list order. */
  function Visible(cs: seq<Creature>): (vs: seq<Creature>)
    ensures |vs| <= |cs|
  {
    if cs == [] then []
    else Visible(cs[..|cs| - 1]) + (if cs[|cs| - 1].hidden then [] else [cs[|cs| - 1]])
  }

  /** The number of hidden creatures. */
  function HiddenCount(cs: seq<Creature>): nat {
    if cs == [] then 0 else HiddenCount(cs[..|cs| - 1]) + (if cs[|cs| - 1].hidden then 1 else 0)
  }

  /** The table lookups one creature's statuses make, in order. */
  function StatusKeys(c: Creature): (ks: seq<Key>)
    ensures |ks| == |c.status|
  {
    seq(|c.status|, i requires 0 <= i < |c.status| => (ToLower(c.status[i]), c.id))
  }

  /** The table lookups of a whole pass: every visible creature's statuses, in list order. */
  function VisitOrder(cs: seq<Creature>): seq<Key> {
    if cs == [] then []
    else VisitOrder(cs[..|cs| - 1]) + (if cs[|cs| - 1].hidden then [] else StatusKeys(cs[|cs| - 1]))
  }

  /** Some visible creature has a status, so the catalog is consulted. */
  predicate NeedsCatalog(cs: seq<Creature>) {
    if cs == [] then false
    else NeedsCatalog(cs[..|cs| - 1]) || (!cs[|cs| - 1].hidden && cs[|cs| - 1].status != [])
  }

  /** The table has an identifier for every status of `c`. */
  ghost predicate Covers(t: Table, c: Creature) {
    forall i :: 0 <= i < |c.status| ==> Has(t, ToLower(c.status[i]), c.id)
  }

  ghost predicate CoversAll(t: Table, cs: seq<Creature>) {
    forall k :: 0 <= k < |cs| ==> Covers(t, cs[k])
  }

  /** The identifier the table holds for a pair (0 when it holds none, which a covered pass never meets). */
  function IdOf(t: Table, k: Key): Uuid {
    if Has(t, k.0, k.1) then t[k.0][k.1] else 0
  }

  /** The payload for one status of creature `id`. */
  function Payload(id: string, status: string, system: string, t: Table): ConditionPayload {
    var key := ToLower(status);
    ConditionPayload(if KnownSystem(system) then Lookup(system, key) else None, IdOf(t, (key, id)))
  }

  /** `creature.status.map(...)`: one payload per status, in order. */
  function Conditions(c: Creature, system: string, t: Table): (ps: seq<ConditionPayload>)
    ensures |ps| == |c.status|
  {
    seq(|c.status|, j requires 0 <= j < |c.status| => Payload(c.id, c.status[j], system, t))
  }

  /** A display name replaces the name only when it is a non-empty string (JavaScript truthiness). */
  function CustomName(display: Option<string>): Option<string> {
    if display.Some? && display.value != "" then display else None
  }

  /** The row built for one visible creature, before ordinals are assigned. */
  function ProjectRow(c: Creature, system: string, t: Table): Row {
    Row(
      c.name,
      CustomName(c.display),
      c.initiative,
      c.active,
      if c.player then RawHp(c.currentHP, c.currentMaxHP) else Wounded(WoundLevel(c.currentHP, c.currentMaxHP)),
      Conditions(c, system, t),
      None)
  }

  function RowsOf(vs: seq<Creature>, system: string, t: Table): (rows: seq<Row>)
    ensures |rows| == |vs|
  {
    seq(|vs|, k requires 0 <= k < |vs| => ProjectRow(vs[k], system, t))
  }

  /** How many rows carry `name`. */
  function Occurrences(rows: seq<Row>, name: string): (n: nat)
    ensures n <= |rows|
  {
    if rows == [] then 0
    else Occurrences(rows[..|rows| - 1], name) + (if rows[|rows| - 1].name == name then 1 else 0)
  }

  /** `creatureOrds` after the pass: each name seen, flagged when it is seen twice or more. */
  function DuplicateFlags(rows: seq<Row>): map<string, bool> {
    map n | n in (set r | r in rows :: r.name) :: Occurrences(rows, n) >= 2
  }

  /** `.filter((v) => v !== null)` after hidden creatures mapped to null: exactly the creatures not hidden survive, in order. */
  lemma {:induction false} VisibleIsFilter(cs: seq<Creature>)
    ensures forall c :: c in Visible(cs) <==> c in cs && !c.hidden
    ensures |Visible(cs)| == |cs| - HiddenCount(cs)
  {
    if cs != [] {
      var init := cs[..|cs| - 1];
      VisibleIsFilter(init);
      assert cs == init + [cs[|cs| - 1]];
    }
  }

  // ----- facts the row builder relies on -----

  lemma PrefixStep(cs: seq<Creature>, k: int)
    requires 0 <= k < |cs|
    ensures Visible(cs[..k + 1]) == Visible(cs[..k]) + (if cs[k].hidden then [] else [cs[k]])
    ensures VisitOrder(cs[..k + 1]) == VisitOrder(cs[..k]) + (if cs[k].hidden then [] else StatusKeys(cs[k]))
    ensures NeedsCatalog(cs[..k + 1]) == (NeedsCatalog(cs[..k]) || (!cs[k].hidden && cs[k].status != []))
  {
    assert cs[..k + 1][..k] == cs[..k];
  }

  lemma {:induction false} NeedsCatalogPrefix(cs: seq<Creature>, k: int)
    requires 0 <= k <= |cs|
    requires NeedsCatalog(cs[..k])
    ensures NeedsCatalog(cs)
  {
    if k < |cs| {
      assert cs[..|cs| - 1][..k] == cs[..k];
      NeedsCatalogPrefix(cs[..|cs| - 1], k);
    } else {
      assert cs[..k] == cs;
    }
  }

  lemma StatusKeysPrefix(c: Creature, j: int)
    requires 0 <= j < |c.status|
    ensures StatusKeys(c)[..j + 1] == StatusKeys(c)[..j] + [(ToLower(c.status[j]), c.id)]
  {
  }

  lemma {:induction false} OccurrencesAppend(rows: seq<Row>, r: Row, name: string)
    ensures Occurrences(rows + [r], name) == Occurrences(rows, name) + (if r.name == name then 1 else 0)
  {
    assert (rows + [r])[..|rows|] == rows;
  }

  lemma {:induction false} OccurrencesPositive(rows: seq<Row>, name: string)
    ensures Occurrences(rows, name) > 0 <==> exists r :: r in rows && r.name == name
  {
    if rows != [] {
      var init := rows[..|rows| - 1];
      OccurrencesPositive(init, name);
      assert rows == init + [rows[|rows| - 1]];
    }
  }

  /** Appending a row updates `creatureOrds` as the loop body does: unseen -> false -> true. */
  lemma DuplicateFlagsAppend(rows: seq<Row>, r: Row)
    ensures var f := DuplicateFlags(rows);
      DuplicateFlags(rows + [r])
        == if r.name !in f then f[r.name := false] else if !f[r.name] then f[r.name := true] else f
  {
    var f := DuplicateFlags(rows);
    var names := set x | x in rows :: x.name;
    assert (set x | x in rows + [r] :: x.name) == names + {r.name};
    forall n ensures Occurrences(rows + [r], n) == Occurrences(rows, n) + (if r.name == n then 1 else 0) {
      OccurrencesAppend(rows, r, n);
    }
    OccurrencesPositive(rows, r.name);
    assert r.name in f <==> Occurrences(rows, r.name) > 0;
  }

  /** Payloads read from a table stay the same in every table that extends it. */
  lemma RowsOfExtends(vs: seq<Creature>, system: string, t: Table, t': Table)
    requires CoversAll(t, vs) && Extends(t, t')
    ensures CoversAll(t', vs)
    ensures RowsOf(vs, system, t') == RowsOf(vs, system, t)
  {
    forall k, i | 0 <= k < |vs| && 0 <= i < |vs[k].status|
      ensures Has(t', ToLower(vs[k].status[i]), vs[k].id)
      ensures IdOf(t', (ToLower(vs[k].status[i]), vs[k].id)) == IdOf(t, (ToLower(vs[k].status[i]), vs[k].id))
    {
      assert Covers(t, vs[k]);
    }
    forall k | 0 <= k < |vs| ensures Conditions(vs[k], system, t') == Conditions(vs[k], system, t) {
    }
  }

  lemma CoversAllAppend(t: Table, vs: seq<Creature>, c: Creature)
    requires CoversAll(t, vs) && Covers(t, c)
    ensures CoversAll(t, vs + [c])
  {
    forall k | 0 <= k < |vs| + 1 ensures Covers(t, (vs + [c])[k]) {
      if k < |vs| { assert (vs + [c])[k] == vs[k]; }
    }
  }

  lemma RowsOfAppend(vs: seq<Creature>, c: Creature, system: string, t: Table)
    ensures RowsOf(vs + [c], system, t) == RowsOf(vs, system, t) + [ProjectRow(c, system, t)]
  {
    assert forall k :: 0 <= k < |vs| ==> (vs + [c])[k] == vs[k];
  }

  /** `conditions` holds the payloads of the first `j` statuses of `c`, all of them covered by `t`. */
  ghost predicate BuiltPrefix(conditions: seq<ConditionPayload>, c: Creature, j: int, system: string, t: Table) {
    && 0 <= j <= |c.status|
    && |conditions| == j
    && (forall i :: 0 <= i < j ==> Has(t, ToLower(c.status[i]), c.id))
    && (forall i :: 0 <= i < j ==> conditions[i] == Payload(c.id, c.status[i], system, t))
  }

  lemma BuiltPrefixStep(conditions: seq<ConditionPayload>, c: Creature, j: int, system: string,
                        t: Table, t': Table, p: ConditionPayload)
    requires BuiltPrefix(conditions, c, j, system, t) && j < |c.status|
    requires Extends(t, t') && Has(t', ToLower(c.status[j]), c.id)
    requires p == Payload(c.id, c.status[j], system, t')
    ensures BuiltPrefix(conditions + [p], c, j + 1, system, t')
  {
    forall i | 0 <= i < j ensures Payload(c.id, c.status[i], system, t') == Payload(c.id, c.status[i], system, t) {
      assert Has(t, ToLower(c.status[i]), c.id);
    }
  }

  lemma BuiltPrefixDone(conditions: seq<ConditionPayload>, c: Creature, system: string, t: Table)
    requires BuiltPrefix(conditions, c, |c.status|, system, t)
    ensures Covers(t, c) && conditions == Conditions(c, system, t)
  {
  }

  /**
   * The state of the pass after the first `k` creatures: the table has
   * seen those creatures' lookups, and `rows` and `flags` are their rows
   * and their `creatureOrds`.
   */
  ghost predicate PassPrefix(cs: seq<Creature>, k: int, system: string, t0: Table, n0: Uuid,
                             t: Table, n: Uuid, rows: seq<Row>, flags: map<string, bool>) {
    && 0 <= k <= |cs|
    && (NeedsCatalog(cs[..k]) ==> KnownSystem(system))
    && (!NeedsCatalog(cs[..k]) ==> VisitOrder(cs[..k]) == [])
    && (t, n) == VisitAll(t0, n0, VisitOrder(cs[..k]))
    && CoversAll(t, Visible(cs[..k]))
    && rows == RowsOf(Visible(cs[..k]), system, t)
    && flags == DuplicateFlags(rows)
  }

  lemma PassPrefixHidden(cs: seq<Creature>, k: int, system: string, t0: Table, n0: Uuid,
                         t: Table, n: Uuid, rows: seq<Row>, flags: map<string, bool>)
    requires PassPrefix(cs, k, system, t0, n0, t, n, rows, flags) && k < |cs| && cs[k].hidden
    ensures PassPrefix(cs, k + 1, system, t0, n0, t, n, rows, flags)
  {
    PrefixStep(cs, k);
    assert VisitOrder(cs[..k]) + [] == VisitOrder(cs[..k]);
    assert Visible(cs[..k]) + [] == Visible(cs[..k]);
  }

  lemma PassPrefixVisible(cs: seq<Creature>, k: int, system: string, t0: Table, n0: Uuid,
                          t: Table, n: Uuid, rows: seq<Row>, flags: map<string, bool>,
                          t': Table, n': Uuid, out: Row)
    requires PassPrefix(cs, k, system, t0, n0, t, n, rows, flags) && k < |cs| && !cs[k].hidden
    requires KnownSystem(system) || cs[k].status == []
    requires (t', n') == VisitAll(t, n, StatusKeys(cs[k])) && Covers(t', cs[k])
    requires out == ProjectRow(cs[k], system, t')
    ensures var f := if out.name !in flags then flags[out.name := false]
                     else if !flags[out.name] then flags[out.name := true] else flags;
      PassPrefix(cs, k + 1, system, t0, n0, t', n', rows + [out], f)
  {
    var vs := Visible(cs[..k]);
    assert Visible(cs[..k + 1]) == vs + [cs[k]] && NeedsCatalog(cs[..k + 1]) == (NeedsCatalog(cs[..k]) || cs[k].status != [])
      && VisitOrder(cs[..k + 1]) == VisitOrder(cs[..k]) + StatusKeys(cs[k]) by {
      PrefixStep(cs, k);
    }
    assert (t', n') == VisitAll(t0, n0, VisitOrder(cs[..k + 1])) by {
      VisitAllAppend(t0, n0, VisitOrder(cs[..k]), StatusKeys(cs[k]));
    }
    assert CoversAll(t', vs) && RowsOf(vs, system, t') == rows by {
      VisitAllGrows(t, n, StatusKeys(cs[k]));
      RowsOfExtends(vs, system, t, t');
    }
    assert CoversAll(t', vs + [cs[k]]) by {
      CoversAllAppend(t', vs, cs[k]);
    }
    assert RowsOf(vs + [cs[k]], system, t') == rows + [out] by {
      RowsOfAppend(vs, cs[k], system, t');
    }
    DuplicateFlagsAppend(rows, out);
  }

  // ----- the row builder -----

  /**
   * `creature.status.map(...)`: each status is lower-cased, looked up in the
   * catalog (throwing under an unknown ruleset) and given the identifier
   * the session table holds for it and this creature, minted on first sight.
   */
  method BuildConditions(table: ConditionTable, creature: Creature, system: string)
    returns (res: Result<seq<ConditionPayload>, CatalogError>)
    modifies table
    ensures res.Failure? <==> !KnownSystem(system) && creature.status != []
    ensures res.Failure? ==> res.error == UnknownSystem(system)
    ensures (table.ids, table.next) ==
      if res.Failure? then (old(table.ids), old(table.next))
      else VisitAll(old(table.ids), old(table.next), StatusKeys(creature))
    ensures res.Success? ==> Covers(table.ids, creature) && res.value == Conditions(creature, system, table.ids)
  {
    ghost var t0, n0 := table.ids, table.next;
    var conditions: seq<ConditionPayload> := [];
    for j := 0 to |creature.status|
      invariant j > 0 ==> KnownSystem(system)
      invariant (table.ids, table.next) == VisitAll(t0, n0, StatusKeys(creature)[..j])
      invariant BuiltPrefix(conditions, creature, j, system, table.ids)
    {
      var status := ToLower(creature.status[j]);
      var entity := Entity(system, status);
      if entity.Failure? {
        return Failure(entity.error);
      }
      ghost var before, beforeNext := table.ids, table.next;
      var id := table.StableId(status, creature.id);
      VisitFacts(before, beforeNext, (status, creature.id));
      StatusKeysPrefix(creature, j);
      VisitAllStep(t0, n0, StatusKeys(creature)[..j], (status, creature.id));
      BuiltPrefixStep(conditions, creature, j, system, before, table.ids, ConditionPayload(entity.value, id));
      conditions := conditions + [ConditionPayload(entity.value, id)];
    }
    assert StatusKeys(creature)[..|creature.status|] == StatusKeys(creature);
    BuiltPrefixDone(conditions, creature, system, table.ids);
    res := Success(conditions);
  }

  /**
   * `data.creatures.map(...).filter((v) => v !== null)` together with the
   * `creatureOrds` bookkeeping: hidden creatures yield no row; every other
   * creature yields its row, with one payload per status whose identifier
   * comes from the session table. Under a ruleset the catalog does not
   * know, the first status looked up throws, before any table write.
   */
  method BuildRows(table: ConditionTable, creatures: seq<Creature>, system: string)
    returns (res: Result<(seq<Row>, map<string, bool>), CatalogError>)
    modifies table
    ensures res.Failure? <==> !KnownSystem(system) && NeedsCatalog(creatures)
    ensures res.Failure? ==> res.error == UnknownSystem(system)
    ensures (table.ids, table.next) ==
      if res.Failure? then (old(table.ids), old(table.next))
      else VisitAll(old(table.ids), old(table.next), VisitOrder(creatures))
    ensures res.Success? ==>
      && CoversAll(table.ids, Visible(creatures))
      && res.value.0 == RowsOf(Visible(creatures), system, table.ids)
      && res.value.1 == DuplicateFlags(res.value.0)
  {
    ghost var t0, n0 := table.ids, table.next;
    var rows: seq<Row> := [];
    var creatureOrds: map<string, bool> := map[];
    for k := 0 to |creatures|
      invariant PassPrefix(creatures, k, system, t0, n0, table.ids, table.next, rows, creatureOrds)
    {
      var creature := creatures[k];
      if creature.hidden {
        PassPrefixHidden(creatures, k, system, t0, n0, table.ids, table.next, rows, creatureOrds);
        continue;
      }
      ghost var before, beforeNext := table.ids, table.next;
      var conditions := BuildConditions(table, creature, system);
      if conditions.Failure? {
        PrefixStep(creatures, k);
        NeedsCatalogPrefix(creatures, k + 1);
        return Failure(conditions.error);
      }
      var out := Row(
        creature.name,
        if creature.display.Some? && creature.display.value != "" then creature.display else None,
        creature.initiative,
        creature.active,
        if creature.player then RawHp(creature.currentHP, creature.currentMaxHP)
        else Wounded(WoundLevel(creature.currentHP, creature.currentMaxHP)),
        conditions.value,
        None);
      PassPrefixVisible(creatures, k, system, t0, n0, before, beforeNext, rows, creatureOrds,
                        table.ids, table.next, out);
      if out.name !in creatureOrds {
        creatureOrds := creatureOrds[out.name := false];
      } else if !creatureOrds[out.name] {
        creatureOrds := creatureOrds[out.name := true];
      }
      rows := rows + [out];
    }
    assert creatures[..|creatures|] == creatures;
    res := Success((rows, creatureOrds));
  }
}
