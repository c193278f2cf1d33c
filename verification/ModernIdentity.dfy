/** Encounter runs under the modern GUIDs that the proxy gives to the units it sees. */
module ModernIdentities {
  import opened Bytes
  import opened Guids
  import opened EncounterRuns
  import opened ModernGuids

  ghost function Identities(mapId: uint16): uint64 -> Guid128 {
    (g: uint64) => ModernLegacyGuid(g, mapId)
  }

  /** Units with a well-formed GUID: no two of them share a modern one. */
  ghost function WellFormedUnits(): iset<uint64> {
    iset g: uint64 | g != 0 && WellFormed(g)
  }

  /** Well-formed units have modern GUIDs of their own, none of them zero. */
  lemma OwnIdentities(mapId: uint16)
    ensures OneToOneOn(Identities(mapId), WellFormedUnits())
  {
    forall g | g in WellFormedUnits()
      ensures Identities(mapId)(g) != NO_GUID
    {
      NoIdentityIff(g, mapId);
    }
    forall g, h | g in WellFormedUnits() && h in WellFormedUnits() && Identities(mapId)(g) == Identities(mapId)(h)
      ensures g == h
    {
      InjectiveOnWellFormed(g, h, mapId);
    }
  }

  /** The map is passed along, but no identity depends on it. */
  lemma OnAnyMap(step: Step, here: uint16, there: uint16, units: iset<uint64>)
    requires AnswersBy(step, Identities(here), units)
    ensures AnswersBy(step, Identities(there), units)
  {
    forall g | ResolverOf(step)(g).Some?
      ensures g in units && ResolverOf(step)(g).value == Identities(there)(g)
    {
      assert Identities(here)(g) == Identities(there)(g);
    }
  }

  /** In every run whose resolvers know well-formed units only, by their modern GUIDs, all stay in step, on whatever maps. */
  lemma ProxyRunsInStep(steps: seq<Step>, maps: nat -> uint16)
    requires forall i :: 0 <= i < |steps| ==> AnswersBy(steps[i], Identities(maps(i)), WellFormedUnits())
    ensures NoCollisions(steps) && AllKept(steps) && KeysAlwaysAgree(steps) && InStep(Run(steps))
  {
    forall i | 0 <= i < |steps|
      ensures AnswersBy(steps[i], Identities(0), WellFormedUnits())
    {
      OnAnyMap(steps[i], maps(i), 0, WellFormedUnits());
    }
    OwnIdentities(0);
    FixedIdentities(steps, Identities(0), WellFormedUnits());
    RunKeysIff(steps);
    RunInStep(steps);
  }

  /** Two items of the two item families do collide: no resolver that knows both keeps them apart. */
  lemma ItemsAreNotOwn(mapId: uint16)
    ensures !OneToOneOn(Identities(mapId), iset{0x4000_0000_0000_0001, 0x4700_0000_0000_0001})
  {
    ItemsCollide(mapId);
    var id, a, b := Identities(mapId), 0x4000_0000_0000_0001, 0x4700_0000_0000_0001;
    assert id(a) == id(b);
  }
}
