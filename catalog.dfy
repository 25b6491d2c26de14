/**
 * The static condition catalog `conditionData`: for each ruleset, the
 * conditions it knows by lower-case key, with a display name and a colour.
 */
module Catalog {
  import opened Wrappers
  import opened Text

  datatype ConditionDef = ConditionDef(name: string, color: string)

  /** Thrown when a ruleset has no catalog: indexing `undefined` raises a TypeError. */
  datatype CatalogError = UnknownSystem(system: string)

  /** The dnd5e entries in the order the catalog lists them. */
  const Dnd5eEntries: seq<(string, ConditionDef)> := [
    ("blinded", ConditionDef("Blinded", "#525252")),
    ("charmed", ConditionDef("Charmed", "#f01789")),
    ("concentration", ConditionDef("Concentration", "#009f7a")),
    ("exhaustion", ConditionDef("Exhaustion", "#947a47")),
    ("deafened", ConditionDef("Deafened", "#ababab")),
    ("frightened", ConditionDef("Frightened", "#c9ca18")),
    ("grappled", ConditionDef("Grappled", "#8784a0")),
    ("incapacitated", ConditionDef("Incapacitated", "#3165a0")),
    ("invisible", ConditionDef("Invisible", "#7ad2d6")),
    ("paralyzed", ConditionDef("Paralyzed", "#c00900")),
    ("petrified", ConditionDef("Petrified", "#a0a0a0")),
    ("poisoned", ConditionDef("Poisoned", "#4dc200")),
    ("prone", ConditionDef("Prone", "#5e60a0")),
    ("restrained", ConditionDef("Restrained", "#d98000")),
    ("stunned", ConditionDef("Stunned", "#a23bcb")),
    ("unconscious", ConditionDef("Unconscious", "#3a40ad"))
  ]

  /** The dictionary an object literal with these properties denotes (a later property wins). */
  function EntriesMap(es: seq<(string, ConditionDef)>): (m: map<string, ConditionDef>)
    ensures m.Keys == set i | 0 <= i < |es| :: es[i].0
  {
    if es == [] then map[] else
      var last := es[|es| - 1];
      var m := EntriesMap(es[..|es| - 1])[last.0 := last.1];
      assert forall i :: 0 <= i < |es| - 1 ==> es[..|es| - 1][i] == es[i];
      m
  }

  const Dnd5e: map<string, ConditionDef> := EntriesMap(Dnd5eEntries)

  /** The Pathfinder 2e catalog is empty, so every lookup in it misses. */
  const Pf2e: map<string, ConditionDef> := map[]

  const ConditionData: map<string, map<string, ConditionDef>> := map["dnd5e" := Dnd5e, "pf2e" := Pf2e]

  /** The rulesets `conditionData` has a catalog for. */
  predicate KnownSystem(system: string) {
    system in ConditionData
  }

  /**
   * `conditionData[system][key]`: a miss in a known ruleset is `undefined`
   * (None); an unknown ruleset throws.
   */
  function Entity(system: string, key: string): (r: Result<Option<ConditionDef>, CatalogError>)
    ensures r.Failure? <==> !KnownSystem(system)
    ensures KnownSystem(system) <==> system == "dnd5e" || system == "pf2e"
    ensures r.Failure? ==> r.error == UnknownSystem(system)
    ensures system == "pf2e" ==> r == Success(None)
    ensures system == "dnd5e" ==> r.Success? && (r.value.Some? <==> key in Dnd5e)
    ensures r.Success? && r.value.Some? ==> r.value.value == Dnd5e[key]
  {
    if system in ConditionData then
      Success(if key in ConditionData[system] then Some(ConditionData[system][key]) else None)
    else
      Failure(UnknownSystem(system))
  }

  /** The catalog entry a condition payload carries: absent on a miss. */
  function Lookup(system: string, key: string): (e: Option<ConditionDef>)
    requires KnownSystem(system)
    ensures e.Some? ==> system == "dnd5e" && key in Dnd5e && e.value == Dnd5e[key]
    ensures system == "dnd5e" && key in Dnd5e ==> e == Some(Dnd5e[key])
  {
    Entity(system, key).value
  }

  /** A key agrees with its entry's display name up to the case of the first letter. */
  predicate KeyMatchesName(k: string, d: ConditionDef) {
    && IsLower(k) && |k| > 0 && |d.name| == |k|
    && LowerChar(d.name[0]) == k[0] && d.name[1..] == k[1..]
  }

  lemma KeyMatchesNameLowers(k: string, d: ConditionDef)
    requires KeyMatchesName(k, d)
    ensures ToLower(d.name) == k
  {
    forall i | 0 <= i < |k| ensures ToLower(d.name)[i] == k[i] {
      if i > 0 {
        assert d.name[i] == d.name[1..][i - 1] == k[1..][i - 1] == k[i];
      }
    }
  }

  /** Every value of the map built from `es` is the definition listed beside its key. */
  lemma {:induction false} EntriesMapListed(es: seq<(string, ConditionDef)>, k: string)
    requires k in EntriesMap(es)
    ensures exists i :: 0 <= i < |es| && es[i] == (k, EntriesMap(es)[k])
  {
    var last := es[|es| - 1];
    if last.0 != k {
      EntriesMapListed(es[..|es| - 1], k);
      var i :| 0 <= i < |es| - 1 && es[..|es| - 1][i] == (k, EntriesMap(es[..|es| - 1])[k]);
      assert es[i] == (k, EntriesMap(es)[k]);
    } else {
      assert es[|es| - 1] == (k, EntriesMap(es)[k]);
    }
  }

  /** The display name of the entry at `i` lower-cases to its key. */
  predicate EntryMatchesName(i: int)
    requires 0 <= i < |Dnd5eEntries|
  {
    KeyMatchesName(Dnd5eEntries[i].0, Dnd5eEntries[i].1)
  }

  // One entry per lemma: checking several literal entries in one proof costs the solver far more.
  lemma EntryMatches0() ensures EntryMatchesName(0) { }
  lemma EntryMatches1() ensures EntryMatchesName(1) { }
  lemma EntryMatches2() ensures EntryMatchesName(2) { }
  lemma EntryMatches3() ensures EntryMatchesName(3) { }
  lemma EntryMatches4() ensures EntryMatchesName(4) { }
  lemma EntryMatches5() ensures EntryMatchesName(5) { }
  lemma EntryMatches6() ensures EntryMatchesName(6) { }
  lemma EntryMatches7() ensures EntryMatchesName(7) { }
  lemma EntryMatches8() ensures EntryMatchesName(8) { }
  lemma EntryMatches9() ensures EntryMatchesName(9) { }
  lemma EntryMatches10() ensures EntryMatchesName(10) { }
  lemma EntryMatches11() ensures EntryMatchesName(11) { }
  lemma EntryMatches12() ensures EntryMatchesName(12) { }
  lemma EntryMatches13() ensures EntryMatchesName(13) { }
  lemma EntryMatches14() ensures EntryMatchesName(14) { }
  lemma EntryMatches15() ensures EntryMatchesName(15) { }

  /** The first `n` entries all pass EntryMatchesName. */
  predicate MatchUpTo(n: int)
    requires 0 <= n <= |Dnd5eEntries|
  {
    forall i :: 0 <= i < n ==> EntryMatchesName(i)
  }

  lemma MatchExtend(n: int)
    requires 0 <= n < |Dnd5eEntries| && MatchUpTo(n) && EntryMatchesName(n)
    ensures MatchUpTo(n + 1)
  {
  }

  lemma Dnd5eEntriesMatchNames()
    ensures forall i :: 0 <= i < |Dnd5eEntries| ==> KeyMatchesName(Dnd5eEntries[i].0, Dnd5eEntries[i].1)
  {
    EntryMatches0(); MatchExtend(0);
    EntryMatches1(); MatchExtend(1);
    EntryMatches2(); MatchExtend(2);
    EntryMatches3(); MatchExtend(3);
    EntryMatches4(); MatchExtend(4);
    EntryMatches5(); MatchExtend(5);
    EntryMatches6(); MatchExtend(6);
    EntryMatches7(); MatchExtend(7);
    EntryMatches8(); MatchExtend(8);
    EntryMatches9(); MatchExtend(9);
    EntryMatches10(); MatchExtend(10);
    EntryMatches11(); MatchExtend(11);
    EntryMatches12(); MatchExtend(12);
    EntryMatches13(); MatchExtend(13);
    EntryMatches14(); MatchExtend(14);
    EntryMatches15(); MatchExtend(15);
    assert MatchUpTo(16);
  }

  /**
   * Every dnd5e key is lower-case and is the lower-cased display name of its
   * entry, so a status spelled like the display name ("Blinded") finds it.
   */
  lemma Dnd5eKeysAreLowerCasedNames()
    ensures forall k :: k in Dnd5e ==> IsLower(k) && ToLower(Dnd5e[k].name) == k
  {
    Dnd5eEntriesMatchNames();
    forall k | k in Dnd5e
      ensures IsLower(k) && ToLower(Dnd5e[k].name) == k
    {
      EntriesMapListed(Dnd5eEntries, k);
      var i :| 0 <= i < |Dnd5eEntries| && Dnd5eEntries[i] == (k, Dnd5e[k]);
      KeyMatchesNameLowers(k, Dnd5e[k]);
    }
  }

  /** A status is found in dnd5e exactly when its lower-casing names a catalog entry's display name. */
  lemma Dnd5eLookupByDisplayName(status: string)
    ensures Entity("dnd5e", ToLower(status)).value.Some?
        <==> exists k :: k in Dnd5e && ToLower(Dnd5e[k].name) == ToLower(status)
  {
    Dnd5eKeysAreLowerCasedNames();
  }
}
