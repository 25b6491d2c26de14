/**
 * The broadcast tick of `loadServer`: every 100 ms, each connection that has
 * a data channel is sent one `state` message holding the viewer's snapshot
 * of the host tracker.
 */
module Broadcast {
  import opened Wrappers
  import opened Catalog
  import opened Text
  import opened Wound
  import opened Identity
  import opened Rows
  import opened Ordinals
  import opened Sorting

  /** `head.type`, `head.version` and `data.type` of every message the server sends. */
  const HeadType := "server"
  const ProtocolVersion := "0.0.2"
  const DataType := "state"

  /** `{head: {type, version}, data: {type, payload: {round, rows}}}`, before JSON encoding. */
  datatype Envelope = Envelope(headType: string, version: string, dataType: string, round: int, rows: seq<Row>)

  /** The part of the host tracker's `data.state` the tick reads. */
  datatype TrackerState = TrackerState(creatures: seq<Creature>, round: int)

  /** A peer connection: whether its data channel is open, and the messages sent on it so far. */
  datatype Connection = Connection(hasDataChannel: bool, sent: seq<Envelope>)

  function StateMessage(round: int, rows: seq<Row>): Envelope {
    Envelope(HeadType, ProtocolVersion, DataType, round, rows)
  }

  /** The rows a viewer is sent: visible creatures projected, duplicate names numbered, highest initiative first. */
  function Snapshot(cs: seq<Creature>, system: string, t: Table): (r: seq<Row>)
    ensures |r| == |Visible(cs)|
  {
    var rows := RowsOf(Visible(cs), system, t);
    SortDesc(Numbered(rows, DuplicateFlags(rows)))
  }

  predicate AnyReady(conns: seq<Connection>) {
    exists i :: 0 <= i < |conns| && conns[i].hasDataChannel
  }

  /** Every connection with a data channel gets `e` appended to what it was sent; the rest are untouched. */
  function Deliver(conns: seq<Connection>, e: Envelope): (r: seq<Connection>)
    ensures |r| == |conns|
  {
    seq(|conns|, i requires 0 <= i < |conns| =>
      if conns[i].hasDataChannel then conns[i].(sent := conns[i].sent + [e]) else conns[i])
  }

  // ----- what a snapshot promises -----

  /** The rows arrive sorted by initiative, highest first. */
  lemma SnapshotSorted(cs: seq<Creature>, system: string, t: Table)
    ensures Sorted(Snapshot(cs, system, t))
  {
    var rows := RowsOf(Visible(cs), system, t);
    SortDescSorted(Numbered(rows, DuplicateFlags(rows)));
  }

  /** One row per creature that is not hidden. */
  lemma SnapshotSize(cs: seq<Creature>, system: string, t: Table)
    ensures |Snapshot(cs, system, t)| == |cs| - HiddenCount(cs)
  {
    VisibleIsFilter(cs);
  }

  /** Rows that are permutations of each other carry the same ordinals per name. */
  lemma OrdinalSetPermuted(a: seq<Row>, b: seq<Row>, name: string)
    requires multiset(a) == multiset(b)
    ensures OrdinalSet(a, name) == OrdinalSet(b, name)
  {
    forall r ensures r in a <==> r in b {
      assert r in multiset(a) <==> r in multiset(b);
    }
  }

  /** Every row of the numbered rows is, up to its ordinal, the row at the same place before. */
  lemma NumberedRowsFrom(rows: seq<Row>, names: set<string>, r: Row)
    requires r in NumberedBy(rows, names)
    ensures exists j :: 0 <= j < |rows| && r.(ordinal := rows[j].ordinal) == rows[j]
  {
    var j :| 0 <= j < |rows| && NumberedBy(rows, names)[j] == r;
    NumberingKeepsFields(rows, names, j);
  }

  /** The sort neither adds nor drops rows. */
  lemma SortKeepsMembers(s: seq<Row>, r: Row)
    ensures r in SortDesc(s) <==> r in s
  {
    SortDescPermutes(s);
    assert r in multiset(SortDesc(s)) <==> r in multiset(s);
  }

  /**
   * Every row of a snapshot is, up to its ordinal, the projection of a
   * creature that is not hidden: a hidden creature contributes nothing, and
   * a non-player row carries a wound level instead of hit points.
   */
  lemma SnapshotRowsFromVisible(cs: seq<Creature>, system: string, t: Table, r: Row)
    requires r in Snapshot(cs, system, t)
    ensures exists c :: c in cs && !c.hidden && r.(ordinal := None) == ProjectRow(c, system, t)
  {
    var vs := Visible(cs);
    var rows := RowsOf(vs, system, t);
    var names := Flagged(DuplicateFlags(rows));
    SortKeepsMembers(NumberedBy(rows, names), r);
    NumberedRowsFrom(rows, names, r);
    var j :| 0 <= j < |rows| && r.(ordinal := rows[j].ordinal) == rows[j];
    VisibleIsFilter(cs);
    assert vs[j] in vs;
  }

  /** Every creature that is not hidden has its row, up to the ordinal, in the snapshot. */
  lemma SnapshotShowsVisible(cs: seq<Creature>, system: string, t: Table, c: Creature)
    requires c in cs && !c.hidden
    ensures exists r :: r in Snapshot(cs, system, t) && r.(ordinal := None) == ProjectRow(c, system, t)
  {
    var vs := Visible(cs);
    var rows := RowsOf(vs, system, t);
    var names := Flagged(DuplicateFlags(rows));
    VisibleIsFilter(cs);
    var j :| 0 <= j < |vs| && vs[j] == c;
    NumberingKeepsFields(rows, names, j);
    SortKeepsMembers(NumberedBy(rows, names), NumberedBy(rows, names)[j]);
  }

  /**
   * What a viewer learns from a row about creature `c`: its name, initiative
   * and turn flag; its display name only when that is a non-empty string; raw
   * hit points only for a player, otherwise a wound level; and one condition
   * per status, in order, each with the catalog entry of the lower-cased key
   * and the identifier the table holds for it.
   */
  ghost predicate Shows(r: Row, c: Creature, system: string, t: Table)
  {
    && r.name == c.name && r.initiative == c.initiative && r.isActive == c.active
    && (r.customName.Some? <==> c.display.Some? && c.display.value != "")
    && (r.customName.Some? ==> r.customName == c.display)
    && (r.hp.RawHp? <==> c.player)
    && (c.player ==> r.hp == RawHp(c.currentHP, c.currentMaxHP))
    && (!c.player ==> r.hp == Wounded(WoundLevel(c.currentHP, c.currentMaxHP)) && -1 <= r.hp.hpWoundLevel <= 3)
    && |r.conditions| == |c.status|
    && (forall i :: 0 <= i < |c.status| ==>
          && r.conditions[i].entity == (if KnownSystem(system) then Lookup(system, ToLower(c.status[i])) else None)
          && r.conditions[i].id == IdOf(t, (ToLower(c.status[i]), c.id)))
  }

  lemma ProjectRowShows(c: Creature, system: string, t: Table, r: Row)
    requires r.(ordinal := None) == ProjectRow(c, system, t)
    ensures Shows(r, c, system, t)
  {
    assert r.conditions == Conditions(c, system, t);
  }

  /** Every row of the snapshot shows one visible creature, and hides the rest. */
  lemma SnapshotRowFields(cs: seq<Creature>, system: string, t: Table, r: Row)
    requires r in Snapshot(cs, system, t)
    ensures exists c :: c in cs && !c.hidden && Shows(r, c, system, t)
  {
    SnapshotRowsFromVisible(cs, system, t, r);
    var c :| c in cs && !c.hidden && r.(ordinal := None) == ProjectRow(c, system, t);
    ProjectRowShows(c, system, t, r);
  }

  /**
   * After sorting, a name the snapshot holds k >= 2 times still carries
   * exactly the ordinals 1..k, and a name it holds once carries none.
   */
  lemma SnapshotOrdinals(cs: seq<Creature>, system: string, t: Table, name: string)
    ensures var rows := RowsOf(Visible(cs), system, t);
      Occurrences(rows, name) >= 2 ==>
        forall i :: i in OrdinalSet(Snapshot(cs, system, t), name) <==> 1 <= i <= Occurrences(rows, name)
    ensures Occurrences(RowsOf(Visible(cs), system, t), name) < 2 ==> OrdinalSet(Snapshot(cs, system, t), name) == {}
  {
    var rows := RowsOf(Visible(cs), system, t);
    var numbered := Numbered(rows, DuplicateFlags(rows));
    assert Snapshot(cs, system, t) == SortDesc(numbered);
    SortDescPermutes(numbered);
    OrdinalSetPermuted(Snapshot(cs, system, t), numbered, name);
    if Occurrences(rows, name) >= 2 {
      DuplicatesNumberedOneToK(rows, name);
    } else {
      UniqueNamesUnnumbered(rows, name);
    }
  }

  /**
   * A second pass over the same creatures finds every identifier in place:
   * the table, and so the snapshot, comes out unchanged.
   */
  lemma PassIdempotent(t: Table, next: Uuid, cs: seq<Creature>)
    ensures var r := VisitAll(t, next, VisitOrder(cs));
      VisitAll(r.0, r.1, VisitOrder(cs)) == r
  {
    var ks := VisitOrder(cs);
    forall i | 0 <= i < |ks| ensures Has(VisitAll(t, next, ks).0, ks[i].0, ks[i].1) {
      VisitAllCovers(t, next, ks, i);
    }
    VisitAllCovered(VisitAll(t, next, ks).0, VisitAll(t, next, ks).1, ks);
  }

  /** From the start state or the completed one, a pass over `cs` ends in the completed state. */
  lemma PassCompletes(start: (Table, Uuid), now: (Table, Uuid), cs: seq<Creature>)
    requires now == start || now == VisitAll(start.0, start.1, VisitOrder(cs))
    ensures VisitAll(now.0, now.1, VisitOrder(cs)) == VisitAll(start.0, start.1, VisitOrder(cs))
  {
    PassIdempotent(start.0, start.1, cs);
  }

  lemma DeliverNoneReady(conns: seq<Connection>, e: Envelope)
    requires !AnyReady(conns)
    ensures Deliver(conns, e) == conns
  {
  }

  lemma DeliverStep(conns: seq<Connection>, c: int, e: Envelope)
    requires 0 <= c < |conns|
    ensures Deliver(conns[..c + 1], e) == Deliver(conns[..c], e) + [Deliver([conns[c]], e)[0]]
    ensures AnyReady(conns[..c + 1]) == (AnyReady(conns[..c]) || conns[c].hasDataChannel)
  {
    assert conns[..c + 1][c] == conns[c];
    if AnyReady(conns[..c]) {
      var i :| 0 <= i < c && conns[..c][i].hasDataChannel;
      assert conns[..c + 1][i].hasDataChannel;
    }
  }

  /**
   * Tick loop state after the first `c` connections: those with a data
   * channel have been sent `e`, and the table state is `done` exactly when
   * one of them had a channel (`start` otherwise); `ok` says the catalog
   * lookups succeed.
   */
  ghost predicate TickPrefix(conns0: seq<Connection>, conns: seq<Connection>, c: int, e: Envelope,
                             start: (Table, Uuid), done: (Table, Uuid), now: (Table, Uuid), ok: bool) {
    && 0 <= c <= |conns0|
    && conns == Deliver(conns0[..c], e) + conns0[c..]
    && now == (if AnyReady(conns0[..c]) then done else start)
    && (AnyReady(conns0[..c]) ==> ok)
  }

  lemma TickSkip(conns0: seq<Connection>, conns: seq<Connection>, c: int, e: Envelope,
                 start: (Table, Uuid), done: (Table, Uuid), now: (Table, Uuid), ok: bool)
    requires TickPrefix(conns0, conns, c, e, start, done, now, ok) && c < |conns0|
    requires !conns[c].hasDataChannel
    ensures TickPrefix(conns0, conns, c + 1, e, start, done, now, ok)
  {
    DeliverStep(conns0, c, e);
    assert conns[c] == conns0[c];
    assert conns0[c..] == [conns0[c]] + conns0[c + 1..];
  }

  lemma TickSend(conns0: seq<Connection>, conns: seq<Connection>, c: int, e: Envelope,
                 start: (Table, Uuid), done: (Table, Uuid), now: (Table, Uuid), ok: bool)
    requires TickPrefix(conns0, conns, c, e, start, done, now, ok) && c < |conns0|
    requires conns[c].hasDataChannel && ok
    ensures TickPrefix(conns0, conns[c := conns[c].(sent := conns[c].sent + [e])], c + 1, e, start, done, done, ok)
  {
    DeliverStep(conns0, c, e);
    assert conns[c] == conns0[c];
    assert conns0[c..] == [conns0[c]] + conns0[c + 1..];
  }

  /**
   * One connection served, whether or not it has a data channel; `e` and
   * `e'` are the messages built from the table before and after.
   */
  lemma TickStep(conns0: seq<Connection>, before: seq<Connection>, after: seq<Connection>, c: int,
                 e: Envelope, e': Envelope, start: (Table, Uuid), done: (Table, Uuid),
                 now: (Table, Uuid), now': (Table, Uuid), ok: bool, cs: seq<Creature>)
    requires TickPrefix(conns0, before, c, e, start, done, now, ok) && c < |conns0| == |before|
    requires done == VisitAll(start.0, start.1, VisitOrder(cs))
    requires now' == now ==> e' == e
    requires !before[c].hasDataChannel ==> after == before && now' == now
    requires before[c].hasDataChannel ==>
      && ok && now' == VisitAll(now.0, now.1, VisitOrder(cs))
      && after == before[c := before[c].(sent := before[c].sent + [e'])]
    ensures TickPrefix(conns0, after, c + 1, e', start, done, now', ok)
  {
    if before[c].hasDataChannel {
      PassCompletes(start, now, cs);
      if !AnyReady(conns0[..c]) {
        DeliverNoneReady(conns0[..c], e);
        DeliverNoneReady(conns0[..c], e');
      }
      assert TickPrefix(conns0, before, c, e', start, done, now, ok);
      TickSend(conns0, before, c, e', start, done, now, ok);
    } else {
      TickSkip(conns0, before, c, e, start, done, now, ok);
    }
  }

  lemma TickAbort(conns0: seq<Connection>, conns: seq<Connection>, c: int, e: Envelope,
                  start: (Table, Uuid), done: (Table, Uuid), now: (Table, Uuid))
    requires TickPrefix(conns0, conns, c, e, start, done, now, false) && c < |conns0|
    requires conns[c].hasDataChannel
    ensures conns == conns0 && now == start && AnyReady(conns0)
  {
    DeliverNoneReady(conns0[..c], e);
    assert conns0 == conns0[..c] + conns0[c..];
    assert conns0[c] == conns[c];
  }

  lemma TickDone(conns0: seq<Connection>, conns: seq<Connection>, e: Envelope,
                 start: (Table, Uuid), done: (Table, Uuid), now: (Table, Uuid), ok: bool)
    requires TickPrefix(conns0, conns, |conns0|, e, start, done, now, ok)
    ensures conns == Deliver(conns0, e)
    ensures now == if AnyReady(conns0) then done else start
    ensures AnyReady(conns0) ==> ok
  {
    assert conns0[..|conns0|] == conns0;
    assert conns0[|conns0|..] == [];
  }

  // ----- the imperative tick -----

  /**
   * The body of the per-connection callback up to the send: build the rows,
   * number duplicate names in place, then sort them in place.
   */
  method BuildSnapshot(table: ConditionTable, state: TrackerState, system: string)
    returns (res: Result<seq<Row>, CatalogError>)
    modifies table
    ensures res.Failure? <==> !KnownSystem(system) && NeedsCatalog(state.creatures)
    ensures res.Failure? ==> res.error == UnknownSystem(system)
    ensures (table.ids, table.next) ==
      if res.Failure? then (old(table.ids), old(table.next))
      else VisitAll(old(table.ids), old(table.next), VisitOrder(state.creatures))
    ensures res.Success? ==> res.value == Snapshot(state.creatures, system, table.ids)
  {
    var built := BuildRows(table, state.creatures, system);
    if built.Failure? {
      return Failure(built.error);
    }
    var (rows, creatureOrds) := built.value;
    var a := new Row[|rows|](i requires 0 <= i < |rows| => rows[i]);
    assert a[..] == rows;
    AssignOrdinals(a, creatureOrds);
    SortByInitiative(a);
    res := Success(a[..]);
  }

  /** The plugin's server side: the session identifier table and the peer connections. */
  class Server {
    const conditions: ConditionTable
    var connections: seq<Connection>

    ghost predicate Valid()
      reads this, conditions
    {
      conditions.Valid()
    }

    /** `loadServer` before the first tick: a fresh, empty identifier table and no peers yet. */
    constructor ()
      ensures Valid() && fresh(conditions)
      ensures conditions.ids == map[] && connections == []
    {
      conditions := new ConditionTable();
      connections := [];
    }

    /**
     * The `forEach` callback for connection `c`: with a data channel, build
     * the snapshot and send it; without one, do nothing.
     */
    method Serve(c: nat, state: TrackerState, system: string) returns (thrown: Option<CatalogError>)
      requires Valid() && c < |connections|
      modifies this, conditions
      ensures Valid()
      ensures thrown.Some? <==>
        old(connections[c].hasDataChannel) && !KnownSystem(system) && NeedsCatalog(state.creatures)
      ensures thrown.Some? ==> thrown.value == UnknownSystem(system)
      ensures thrown.Some? || !old(connections[c].hasDataChannel) ==>
        connections == old(connections) && conditions.ids == old(conditions.ids) && conditions.next == old(conditions.next)
      ensures thrown.None? && old(connections[c].hasDataChannel) ==>
        && (conditions.ids, conditions.next) == VisitAll(old(conditions.ids), old(conditions.next), VisitOrder(state.creatures))
        && connections == old(connections)[c := old(connections[c]).(sent :=
             old(connections[c]).sent + [StateMessage(state.round, Snapshot(state.creatures, system, conditions.ids))])]
    {
      var conn := connections[c];
      thrown := None;
      if conn.hasDataChannel {
        ghost var t, n := conditions.ids, conditions.next;
        var snapshot := BuildSnapshot(conditions, state, system);
        if snapshot.Failure? {
          return Some(snapshot.error);
        }
        VisitAllValid(t, n, VisitOrder(state.creatures));
        connections := connections[c := conn.(sent := conn.sent + [StateMessage(state.round, snapshot.value)])];
      }
    }

    /**
     * One run of the interval callback. Each connection with a data channel
     * rebuilds the snapshot and is sent it; the rebuild after the first
     * finds the table complete, so all of them receive the same message.
     * Under a ruleset the catalog does not know, the first rebuild throws
     * before any table write or send, and the rest of the tick is lost.
     */
    method Tick(state: TrackerState, system: string) returns (thrown: Option<CatalogError>)
      requires Valid()
      modifies this, conditions
      ensures Valid()
      ensures thrown.Some? <==> AnyReady(old(connections)) && !KnownSystem(system) && NeedsCatalog(state.creatures)
      ensures thrown.Some? ==>
        && thrown.value == UnknownSystem(system)
        && connections == old(connections)
        && conditions.ids == old(conditions.ids) && conditions.next == old(conditions.next)
      ensures thrown.None? ==>
        && (conditions.ids, conditions.next) ==
          (if AnyReady(old(connections)) then VisitAll(old(conditions.ids), old(conditions.next), VisitOrder(state.creatures))
           else (old(conditions.ids), old(conditions.next)))
        && connections == Deliver(old(connections), StateMessage(state.round, Snapshot(state.creatures, system, conditions.ids)))
    {
      ghost var conns0 := connections;
      ghost var cs := state.creatures;
      ghost var ok := KnownSystem(system) || !NeedsCatalog(cs);
      ghost var start := (conditions.ids, conditions.next);
      ghost var done := VisitAll(start.0, start.1, VisitOrder(cs));
      VisitAllValid(start.0, start.1, VisitOrder(cs));
      var c := 0;
      while c < |connections|
        invariant 0 <= c <= |conns0| == |connections|
        invariant TickPrefix(conns0, connections, c, StateMessage(state.round, Snapshot(cs, system, conditions.ids)),
                             start, done, (conditions.ids, conditions.next), ok)
        invariant Valid()
      {
        ghost var now, before := (conditions.ids, conditions.next), connections;
        ghost var e := StateMessage(state.round, Snapshot(cs, system, now.0));
        var served := Serve(c, state, system);
        if served.Some? {
          TickAbort(conns0, before, c, e, start, done, now);
          return served;
        }
        TickStep(conns0, before, connections, c, e, StateMessage(state.round, Snapshot(cs, system, conditions.ids)),
                 start, done, now, (conditions.ids, conditions.next), ok, cs);
        c := c + 1;
      }
      assert c == |conns0|;
      TickDone(conns0, connections, StateMessage(state.round, Snapshot(cs, system, conditions.ids)),
               start, done, (conditions.ids, conditions.next), ok);
      thrown := None;
    }
  }

  // ----- the scenario of two goblins and a hero -----

  const GoblinA := Creature("g1", "Goblin", None, 15.0, false, false, false, 7, 7, [])
  const GoblinB := Creature("g2", "Goblin", None, 10.0, false, false, false, 0, 7, [])
  const Hero := Creature("h", "Hero", Some("Aria"), 20.0, true, false, true, 12, 30, [])
  const RowA := Row("Goblin", None, 15.0, false, Wounded(0), [], None)
  const RowB := Row("Goblin", None, 10.0, false, Wounded(3), [], None)
  const RowHero := Row("Hero", Some("Aria"), 20.0, true, RawHp(12, 30), [], None)

  lemma ScenarioRows(t: Table)
    ensures RowsOf(Visible([GoblinA, GoblinB, Hero]), "dnd5e", t) == [RowA, RowB, RowHero]
  {
    var cs := [GoblinA, GoblinB, Hero];
    assert Visible([GoblinA]) == [GoblinA] by { assert [GoblinA][..0] == []; }
    assert Visible([GoblinA, GoblinB]) == [GoblinA, GoblinB] by { assert [GoblinA, GoblinB][..1] == [GoblinA]; }
    assert Visible(cs) == cs by { assert cs[..2] == [GoblinA, GoblinB]; }
    WoundLevelThresholds(7, 7);
    WoundLevelThresholds(0, 7);
  }

  lemma ScenarioFlags()
    ensures Flagged(DuplicateFlags([RowA, RowB, RowHero])) == {"Goblin"}
  {
    var rows := [RowA, RowB, RowHero];
    assert rows[..2] == [RowA, RowB] && [RowA, RowB][..1] == [RowA] && [RowA][..0] == [];
    assert Occurrences([RowA], "Goblin") == 1 && Occurrences([RowA], "Hero") == 0;
    assert Occurrences([RowA, RowB], "Goblin") == 2 && Occurrences([RowA, RowB], "Hero") == 0;
    assert Occurrences(rows, "Goblin") == 2;
    assert Occurrences(rows, "Hero") == 1;
    assert (set r | r in rows :: r.name) == {"Goblin", "Hero"};
  }

  lemma ScenarioNumbered()
    ensures NumberedBy([RowA, RowB, RowHero], {"Goblin"}) ==
      [RowA.(ordinal := Some(1)), RowB.(ordinal := Some(2)), RowHero]
  {
    var rows := [RowA, RowB, RowHero];
    assert rows[..0] == [] && rows[..1] == [RowA];
    assert [RowA][..0] == [];
  }

  lemma ScenarioSorted()
    ensures SortDesc([RowA.(ordinal := Some(1)), RowB.(ordinal := Some(2)), RowHero]) ==
      [RowHero, RowA.(ordinal := Some(1)), RowB.(ordinal := Some(2))]
  {
    var a, b := RowA.(ordinal := Some(1)), RowB.(ordinal := Some(2));
    assert [a, b, RowHero][..2] == [a, b] && [a, b][..1] == [a] && [a][..0] == [];
    assert SortDesc([a]) == [a];
    assert InsertDesc([a], b) == [a, b] by { assert [a][1..] == []; }
    assert SortDesc([a, b]) == [a, b];
  }

  /**
   * Two goblins and a hero: the goblins are numbered in list order and the
   * hero, with the highest initiative, comes first, showing raw hit points
   * and its display name.
   */
  lemma TwoGoblinsAndAHero(t: Table)
    ensures Snapshot([GoblinA, GoblinB, Hero], "dnd5e", t) == [
      Row("Hero", Some("Aria"), 20.0, true, RawHp(12, 30), [], None),
      Row("Goblin", None, 15.0, false, Wounded(0), [], Some(1)),
      Row("Goblin", None, 10.0, false, Wounded(3), [], Some(2))]
  {
    ScenarioRows(t);
    ScenarioFlags();
    ScenarioNumbered();
    ScenarioSorted();
  }
}
