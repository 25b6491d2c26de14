# Web initiative tracker: the broadcast tick, in Dafny

The Obsidian plugin `obsidian-web-init-tracker` shares the state of the host
initiative tracker with browser viewers over peer-to-peer data channels.
Every 100 ms its `loadServer` interval callback walks the server's
connections. For each connection that has a data channel, it reads the
tracker's creatures and round and turns them into a viewer's snapshot. The
snapshot steps are:

1. drop hidden creatures;
2. copy each remaining creature's name, initiative and turn flag, and its
   display name when that is non-empty;
3. show raw hit points for players and only a coarse wound level for
   everyone else;
4. give each status effect its catalog entry and a session identifier that
   stays the same across ticks;
5. number rows whose names repeat (1, 2, …);
6. sort stably by initiative, highest first.

The snapshot is then wrapped in a versioned `state` envelope and sent on
that connection.

This project models that callback, the wound classifier `_getWoundLevel`
and the `conditionData` catalog. It proves what the source promises about
each of them.

| module | file | what it models |
|---|---|---|
| `Wrappers` | `wrappers.dfy` | `Option` and `Result` |
| `Text` | `text.dfy` | `String.prototype.toLowerCase` on ASCII letters |
| `Catalog` | `catalog.dfy` | the `conditionData` table and `conditionData[system][key]` |
| `Wound` | `wound.dfy` | `_getWoundLevel`, with `Math.round`, `Math.max`/`Math.min` and division by zero written out |
| `Identity` | `identity.dfy` | the class `ConditionTable` for `this.conditions`, with `uuidv4` replaced by a counter |
| `Rows` | `rows.dfy` | the creature and row records, the `map`/`filter` pass and `creatureOrds` |
| `Ordinals` | `ordinals.dfy` | the in-place numbering loop over `rows` |
| `Sorting` | `sorting.dfy` | `rows.sort((a, b) => b.initiative - a.initiative)` as an in-place stable insertion sort |
| `Broadcast` | `broadcast.dfy` | the envelope, the snapshot, and the class `Server` with the per-connection `Serve` and the whole `Tick` |

Each step the source performs by mutation is a method on Dafny state:
- the identifier table is a class;
- numbering and sorting work on an `array<Row>`;
- the connections are a field of `Server`.

Each such method is proved to produce what a pure specification function
gives:
- `VisitAll` for the table;
- `Numbered` for the ordinals;
- `SortDesc` for the sort;
- `Snapshot` and `Deliver` for a tick.

The lemmas then state the source's promises about those functions.

Decisions that shape the model:
- **Unknown ruleset.** `settings.system` is a string input. Reading a
  status under a ruleset that is not `dnd5e` or `pf2e` indexes `undefined`
  and throws. This happens at the first visible status, before that
  status's table entry is written and before anything is sent. The model
  returns `UnknownSystem`. `Tick` then leaves the connections and the
  table as they were.
- **Per-connection rebuild.** The snapshot and the table updates are
  recomputed for every ready connection (main.ts:95-100). The first
  rebuild completes the table, so the rebuilds after it change nothing
  and every ready connection gets the same message. This is
  `Broadcast.PassIdempotent`, and the postcondition of `Tick` states it.
- **Order of `Object.entries`.** The numbering loop visits the names in
  `creatureOrds` in an order the model leaves open (`:|`). The result is
  proved to be the same for every order.
- **Unknown conditions are kept.** A status with no catalog entry keeps
  its payload, with `entity` absent. Under `pf2e` every entity is absent,
  because that catalog is empty (main.ts:72-74).
- **Ordinals follow `name`.** Ordinals are keyed on `creature.name`, not
  on the display name.

## Model

| member | source | states |
|---|---|---|
| Catalog.Entity | main.ts:5-75 | `conditionData[system][key]` throws exactly when the ruleset is neither `dnd5e` nor `pf2e`; `pf2e` has no entries; under `dnd5e` an entry exists exactly for the listed keys and is the listed definition |
| Catalog.Lookup | main.ts:123 | under a known ruleset, the lookup finds a definition only under `dnd5e`, only for a listed key, and then the listed one |
| Catalog.EntriesMap | main.ts:5-71 | the catalog's keys are exactly the keys written in the object literal |
| Catalog.EntriesMapListed | main.ts:5-71 | every key of the catalog maps to the definition written beside it |
| Catalog.Dnd5eEntriesMatchNames | main.ts:6-71 | every `dnd5e` entry's key is its display name lower-cased |
| Catalog.Dnd5eKeysAreLowerCasedNames | main.ts:6-71 | every `dnd5e` key is lower case and equals its definition's lower-cased name |
| Catalog.Dnd5eLookupByDisplayName | main.ts:122-123 | under `dnd5e` a status finds a definition exactly when, lower-cased, it equals the lower-cased display name of some entry |
| Text.ToLower | main.ts:122 | lower-casing keeps the length, maps each `A`–`Z` to its lower-case letter, leaves other characters alone and yields a lower-case string |
| Text.ToLowerIdempotent | main.ts:122 | lower-casing twice is lower-casing once |
| Wound.Round | main.ts:211 | `Math.round` returns the integer `n` with `n <= x + 0.5 < n + 1` |
| Wound.Clamp | main.ts:211 | `Math.max(Math.min(x, 100), 0)` lies in 0..100, keeps values inside it and saturates at both ends |
| Wound.Percent | main.ts:211 | the rounded, clamped percentage is NaN exactly for `0/0` and otherwise lies in 0..100 |
| Wound.WoundLevel | main.ts:210-218 | the level lies in -1..3 and is -1 exactly when hit points and maximum are both 0 |
| Wound.WoundLevelThresholds | main.ts:210-218 | for a non-zero maximum the level depends only on the exact ratio: 0 from 99.5% up (rounds to 100), 1 from 50.5%, 2 from 0.5%, 3 below (including negative hit points), stated as integer inequalities on `cur` and `max` |
| Wound.WoundLevelZeroMax | main.ts:211-217 | with maximum 0: positive hit points give 0 (+Infinity clamps to 100), negative give 3, zero gives -1 |
| Wound.WoundLevelSamples | main.ts:210-218 | (100,100)→0, (51,100)→1, (50,100)→2, (1,100)→2, (0,100)→3, (5,0)→0, (0,0)→-1, (199,200)→0, (1,300)→3 |
| Identity.Insert | main.ts:125-131 | after the write, the table holds `id` under (status, creature) |
| Identity.InsertPairs | main.ts:125-131 | a write adds exactly its own (status, creature) pair |
| Identity.InsertFresh | main.ts:130 | writing the next fresh identifier for a missing pair keeps every identifier in the table distinct and below the counter, and changes no other pair |
| Identity.Visit | main.ts:125-131 | after visiting (status, creature), the pair is present |
| Identity.VisitAllAppend | main.ts:125-131 | visiting `a + b` is visiting `a` and then `b` |
| Identity.VisitAllGrows | main.ts:125-131 | a pass only adds entries: earlier identifiers are unchanged, and the new pairs are exactly the visited ones that were missing |
| Identity.VisitAllValid | main.ts:125-131 | a pass keeps identifiers distinct and below the counter |
| Identity.VisitAllCovers | main.ts:125-131 | every visited pair is present after the pass |
| Identity.VisitAllCovered | main.ts:125-131 | a pass over pairs that are all present changes nothing |
| Identity.ExtendsTransitive | main.ts:125-131 | growth of the table across ticks composes |
| Identity.ConditionTable.constructor | main.ts:92 | `this.conditions = {}`: a valid, empty table |
| Identity.ConditionTable.StableId | main.ts:125-135 | returns the stored identifier when (status, creature) is present; otherwise stores and returns a fresh one; keeps the table valid |
| Rows.Visible | main.ts:100-147 | the filtered list is no longer than the creature list |
| Rows.VisibleIsFilter | main.ts:100-147 | exactly the non-hidden creatures survive, and the hidden ones are all that is removed |
| Rows.Conditions | main.ts:121-138 | one payload per status, in order |
| Rows.RowsOf | main.ts:100-147 | one row per visible creature |
| Rows.OccurrencesPositive | main.ts:140-144 | a name counts at least once exactly when some row carries it |
| Rows.DuplicateFlagsAppend | main.ts:140-144 | `creatureOrds[name]` goes from missing to false on the first row with that name and to true on the second, and stays true afterwards |
| Rows.RowsOfExtends | main.ts:125-131 | once a table covers the visible creatures, later growth of the table changes none of their rows |
| Rows.BuildConditions | main.ts:121-138 | maps one creature's statuses: fails exactly under an unknown ruleset with a non-empty status list; otherwise visits the table in status order and returns the payloads with the stored identifiers |
| Rows.BuildRows | main.ts:100-147 | the `map`/`filter` pass: fails exactly under an unknown ruleset when some visible creature has a status; otherwise visits the table in creature and status order and returns the rows for the visible creatures and the `creatureOrds` flags |
| Ordinals.AssignOrdinals | main.ts:149-162 | the numbering loop, over `Object.entries` in any order, leaves the array equal to `Numbered` of the rows and the flags |
| Ordinals.DuplicatesNumberedOneToK | main.ts:140-162 | a name carried by k ≥ 2 rows gets exactly the ordinals 1..k |
| Ordinals.UniqueNamesUntouched | main.ts:149-152 | a row whose name occurs once is left as it was |
| Ordinals.UniqueNamesUnnumbered | main.ts:149-152 | a name that occurs once receives no ordinal |
| Ordinals.OrdinalsFollowListOrder | main.ts:155-160 | among rows with the same numbered name, an earlier row gets the smaller ordinal |
| Ordinals.NumberingKeepsFields | main.ts:157-158 | numbering changes only the `ordinal` field |
| Sorting.SortByInitiative | main.ts:164-166 | the in-place sort leaves the array equal to `SortDesc` of its old contents |
| Sorting.SortDescPermutes | main.ts:164-166 | the sorted rows are a permutation of the input |
| Sorting.SortDescSorted | main.ts:164-166 | the sorted rows are in non-increasing initiative order |
| Sorting.SortDescStable | main.ts:164-166 | rows of equal initiative keep their relative order |
| Sorting.SortDescIsStableSort | main.ts:164-166 | `SortDesc` is a stable descending sort |
| Sorting.StableSortUnique | main.ts:164-166 | any sorted list whose equal-initiative groups are those of the input is `SortDesc` of it, so every stable sort this comparator allows gives the same rows |
| Sorting.SortedTiesDetermine | main.ts:164-166 | two sorted lists with the same equal-initiative groups are equal |
| Broadcast.Snapshot | main.ts:97-166 | the snapshot has one row per visible creature |
| Broadcast.SnapshotSize | main.ts:100-147 | the snapshot has as many rows as there are creatures, less the hidden ones |
| Broadcast.SnapshotSorted | main.ts:164-166 | the snapshot is sorted by initiative, highest first |
| Broadcast.SnapshotRowsFromVisible | main.ts:100-147 | every row sent is the projection of some visible creature, up to its ordinal |
| Broadcast.SnapshotShowsVisible | main.ts:100-147 | every visible creature has its projection among the rows sent |
| Broadcast.SnapshotRowFields | main.ts:105-138 | every row sent shows a visible creature: name, initiative and turn flag copied; a display name only when non-empty; raw hit points exactly for players and otherwise a wound level in -1..3; one condition per status, in order, with the catalog entry of the lower-cased key and the stored identifier |
| Broadcast.SnapshotOrdinals | main.ts:140-166 | after the sort, a name on k ≥ 2 visible rows carries exactly the ordinals 1..k, and a name on one row carries none |
| Broadcast.SortKeepsMembers | main.ts:164-166 | a row is in the sorted list exactly when it is in the unsorted one |
| Broadcast.PassIdempotent | main.ts:95-131 | a second pass over the same creatures, right after the first, changes nothing in the table |
| Broadcast.Deliver | main.ts:95-180 | delivery keeps one entry per connection |
| Broadcast.DeliverNoneReady | main.ts:95-96 | with no ready connection, nothing is sent |
| Broadcast.BuildSnapshot | main.ts:97-166 | builds rows, numbers them in an array and sorts it: fails exactly when `BuildRows` does; otherwise leaves the table as `VisitAll` and returns `Snapshot` under the new table |
| Broadcast.Server.constructor | main.ts:89-92 | a new server has an empty identifier table and no connections |
| Broadcast.Server.Serve | main.ts:95-180 | the callback for one connection: without a data channel nothing changes; with one it throws exactly under an unknown ruleset (changing nothing), or else it completes the table and appends exactly one `{server, 0.0.2, state, round, rows}` envelope to that connection only |
| Broadcast.Server.Tick | main.ts:94-182 | one interval tick throws exactly when a connection is ready and the ruleset is unknown (changing nothing); otherwise every ready connection is sent exactly one envelope with the snapshot under the final table, the others nothing, and the table grows by one pass exactly when some connection was ready |
| Broadcast.TwoGoblinsAndAHero | main.ts:94-180 | two visible goblins and a player hero come out as Hero, Goblin 1, Goblin 2: the hero with raw hit points, the goblins with wound levels 0 and 3 |

## Left out

- The Obsidian plugin lifecycle, the settings and the settings tab (main.ts:192-263) are host framework and persistence glue. `settings.system` is a string input to `Tick`.
- The peer transport `PeerVeServer` (main.ts:2, 89-90) is not part of this model. A connection is a record with a data-channel flag and the list of envelopes sent on it. Connections are added and removed by the transport, outside the tick.
- `setInterval` and `registerInterval` (main.ts:94, 183-185) are left out. One run of the callback is one call of `Tick`.
- `uuidv4` (main.ts:130) is replaced by a counter, so fresh identifiers are distinct by construction. Random collisions are out of scope.
- `JSON.stringify` (main.ts:168) is left out. The envelope is the `Envelope` datatype, and the fields that are always `[]` or `null` (`rowStatColData`, `rounds`) are not carried.
- IEEE floating point is not modelled:
  - hit points are integers and initiatives exact reals;
  - `Math.round` is floor(x + 0.5);
  - division by zero gives the three JavaScript outcomes as explicit cases;
  - NaN or infinite initiatives, for which the comparator is not consistent, are not representable.
- JavaScript objects used as dictionaries (`creatureOrds`, `this.conditions`, `conditionData`) are maps. A key that names an inherited property, such as `constructor` or `__proto__`, does not behave specially here.
- `Text.ToLower`: does not model `toLowerCase` beyond ASCII. Letters outside `A`–`Z` are left unchanged.
- The host initiative tracker's object graph (main.ts:97) is an input: a sequence of creature records and a round number. The state does not change between connections within a tick, because the source runs the whole tick synchronously.
- A compact key schema, a delayed per-peer handshake, and dropping malformed creatures or unknown conditions do not exist in main.ts and are not modelled. Unknown conditions are kept with their entity absent.
