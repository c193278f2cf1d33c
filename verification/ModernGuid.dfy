/**
 The 128-bit identity the modern client knows a legacy GUID under. Shifts are multiplications and divisions
 by powers of two, masks are remainders. Fields that are joined have no bit in common, so they add up.
 */
module ModernGuids {
  import opened Arithmetic
  import opened Bytes
  import opened Guids

  const TWO_20: nat := 0x10_0000
  const TWO_23: nat := 0x80_0000
  const TWO_24: nat := 0x100_0000
  const TWO_38: nat := 0x40_0000_0000
  const REALM: nat := 0x400_0000_0000 // bit 42
  const TWO_48: nat := 0x1_0000_0000_0000
  const TWO_58: nat := 0x400_0000_0000_0000

  const PLAYER: nat := 2
  const ITEM: nat := 3
  const TRANSPORT: nat := 6
  const PLAYER_HIGH: uint64 := 2 * 0x400_0000_0000_0000 + 0x400_0000_0000
  const ITEM_HIGH: uint64 := 3 * 0x400_0000_0000_0000 + 0x400_0000_0000

  const LEGACY_ITEM: nat := 0x4000
  const LEGACY_ITEM_2: nat := 0x4700
  const LEGACY_TRANSPORT: nat := 0xf120
  const LEGACY_MO_TRANSPORT: nat := 0x1fc0
  const PLAYER_ZERO: uint64 := 0x1_0000_0000 // a player GUID whose low 32 bits are zero
  const MISSING_ENTRY: nat := 0xffff_ffff

  function Family(guid: uint64): (f: nat)
    ensures f < 0x1_0000
  {
    guid / TWO_48
  }

  function Entry(guid: uint64): (e: nat)
    ensures e < TWO_24
  {
    guid / TWO_24 % TWO_24
  }

  function Counter(guid: uint64): (c: nat)
    ensures c < TWO_24
  {
    guid % TWO_24
  }

  function ModernPlayerGuid(guid: uint64): Guid128 {
    Guid128(Truncate32(guid), PLAYER_HIGH)
  }

  /** The modern type of the families that carry an entry, 0 for a family that is not known. */
  function ModernType(family: nat): (t: nat)
    ensures t < 16
  {
    match family
    case 0xf130 => 8
    case 0xf150 => 9
    case 0xf140 => 10
    case 0xf110 => 11
    case 0xf100 => 12
    case 0xf101 => 14
    case _ => 0
  }

  function TransportHigh(counter: nat, entry: nat): uint64
    requires counter < TWO_20 && entry <= MISSING_ENTRY
  {
    TRANSPORT * TWO_58 + counter * TWO_38 + entry
  }

  function EntryHigh(type_: nat, entry: nat): uint64
    requires type_ < 16 && entry < TWO_23
  {
    type_ * TWO_58 + REALM + entry * 64
  }

  /** A transport without an entry gets the missing-entry sentinel. */
  function TransportEntry(entry: nat): (e: nat)
    requires entry < TWO_24
    ensures 0 < e <= MISSING_ENTRY
  {
    if entry == 0 then MISSING_ENTRY else entry
  }

  /** The map is taken and used by no branch. */
  function ModernLegacyGuid(guid: uint64, mapId: uint16): Guid128 {
    if guid == 0 then NO_GUID
    else
      var family := Family(guid);
      if family == 0 then ModernPlayerGuid(guid)
      else if family == LEGACY_ITEM || family == LEGACY_ITEM_2 then Guid128(Truncate32(guid), ITEM_HIGH)
      else if family == LEGACY_TRANSPORT then
        Guid128(0, TransportHigh(Counter(guid) % TWO_20, TransportEntry(Entry(guid))))
      else if family == LEGACY_MO_TRANSPORT then Guid128(0, TransportHigh(Truncate32(guid) % TWO_20, 0))
      else if ModernType(family) == 0 then NO_GUID
      else Guid128(Counter(guid), EntryHigh(ModernType(family), Entry(guid) % TWO_23))
  }

  // ---------- a legacy GUID as its parts ----------

  function Legacy(family: nat, entry: nat, counter: nat): uint64
    requires family < 0x1_0000 && entry < TWO_24 && counter < TWO_24
  {
    family * TWO_48 + entry * TWO_24 + counter
  }

  lemma PartsOf(guid: uint64)
    ensures guid == Legacy(Family(guid), Entry(guid), Counter(guid))
  {
  }

  lemma OfParts(family: nat, entry: nat, counter: nat)
    requires family < 0x1_0000 && entry < TWO_24 && counter < TWO_24
    ensures var guid := Legacy(family, entry, counter);
            Family(guid) == family && Entry(guid) == entry && Counter(guid) == counter
  {
    var guid := Legacy(family, entry, counter);
    DivUnique(guid, TWO_48, family, entry * TWO_24 + counter);
    DivUnique(guid, TWO_24, family * TWO_24 + entry, counter);
    DivUnique(family * TWO_24 + entry, TWO_24, family, entry);
  }

  /** Twenty bits of the low 32 are twenty bits of the counter. */
  lemma LowBits(guid: uint64)
    ensures Truncate32(guid) % TWO_20 == Counter(guid) % TWO_20
  {
    SameRemainder(guid, Truncate32(guid), TWO_20, 0x1000 * (guid / TWO_32));
    SameRemainder(guid, Counter(guid), TWO_20, 0x10 * (guid / TWO_24));
  }

  // ---------- what is kept ----------

  /** The families that are known but for players: items, two kinds of transport, those that carry an entry. */
  predicate IsItem(family: nat) {
    family == LEGACY_ITEM || family == LEGACY_ITEM_2
  }

  predicate UnknownFamily(family: nat) {
    family != 0 && !IsItem(family) && family != LEGACY_TRANSPORT && family != LEGACY_MO_TRANSPORT && ModernType(family) == 0
  }

  function CanonicalPlayer(low: uint32, zero: bool): uint64 {
    if low == 0 && !zero then PLAYER_ZERO else low
  }

  function ItemGuid(low: uint32): uint64 {
    LEGACY_ITEM * TWO_48 + low
  }

  /** The one GUID that stands for all that become the same modern identity. */
  function Canonical(guid: uint64): uint64 {
    var family := Family(guid);
    if family == 0 then CanonicalPlayer(Truncate32(guid), guid == 0)
    else if IsItem(family) then ItemGuid(Truncate32(guid))
    else if family == LEGACY_TRANSPORT then Legacy(family, Entry(guid), Counter(guid) % TWO_20)
    else if family == LEGACY_MO_TRANSPORT then Legacy(family, 0, Counter(guid) % TWO_20)
    else if ModernType(family) == 0 then 0
    else Legacy(family, Entry(guid) % TWO_23, Counter(guid))
  }

  /** The legacy family of a modern type that carries an entry. */
  function LegacyFamily(type_: nat): (f: nat)
    ensures f < 0x1_0000
  {
    match type_
    case 8 => 0xf130
    case 9 => 0xf150
    case 10 => 0xf140
    case 11 => 0xf110
    case 12 => 0xf100
    case _ => 0xf101
  }

  function TransportOf(counter: nat, entry: nat): uint64
    requires counter < TWO_20 && entry <= MISSING_ENTRY
  {
    if entry == 0 then Legacy(LEGACY_MO_TRANSPORT, 0, counter)
    else Legacy(LEGACY_TRANSPORT, (if entry == MISSING_ENTRY then 0 else entry % TWO_24), counter)
  }

  /** Back from a modern identity. */
  function LegacyOf(m: Guid128): uint64 {
    var type_ := m.high / TWO_58;
    if m == NO_GUID then 0
    else if type_ == PLAYER then CanonicalPlayer(Truncate32(m.low), false)
    else if type_ == ITEM then ItemGuid(Truncate32(m.low))
    else if type_ == TRANSPORT then TransportOf(m.high / TWO_38 % TWO_20, Truncate32(m.high))
    else Legacy(LegacyFamily(type_), m.high / 64 % TWO_23, m.low % TWO_24)
  }

  // ---------- back to the canonical GUID ----------

  lemma TransportFields(counter: nat, entry: nat)
    requires counter < TWO_20 && entry <= MISSING_ENTRY
    ensures var high := TransportHigh(counter, entry);
            high / TWO_58 == TRANSPORT && high / TWO_38 % TWO_20 == counter && Truncate32(high) == entry
  {
    var high, upper := TransportHigh(counter, entry), TRANSPORT * TWO_20 + counter;
    DivUnique(high, TWO_58, TRANSPORT, counter * TWO_38 + entry);
    DivUnique(high, TWO_38, upper, entry);
    DivUnique(upper, TWO_20, TRANSPORT, counter);
    DivUnique(high, TWO_32, 64 * upper, entry);
  }

  lemma EntryFields(type_: nat, entry: nat)
    requires type_ < 16 && entry < TWO_23
    ensures EntryHigh(type_, entry) / TWO_58 == type_ && EntryHigh(type_, entry) / 64 % TWO_23 == entry
  {
    var high, upper := EntryHigh(type_, entry), type_ * (TWO_58 / 64) + REALM / 64 + entry;
    DivUnique(high, TWO_58, type_, REALM + entry * 64);
    DivUnique(high, 64, upper, 0);
    DivUnique(upper, TWO_23, type_ * (TWO_58 / 64 / TWO_23) + REALM / 64 / TWO_23, entry);
  }

  lemma Types(family: nat)
    requires ModernType(family) != 0
    ensures 6 < ModernType(family) && LegacyFamily(ModernType(family)) == family
  {
  }

  lemma TransportBack(counter: nat, entry: nat)
    requires counter < TWO_20 && entry <= MISSING_ENTRY
    ensures LegacyOf(Guid128(0, TransportHigh(counter, entry))) == TransportOf(counter, entry)
  {
    TransportFields(counter, entry);
  }

  lemma EntryBack(family: nat, entry: nat, counter: nat)
    requires family < 0x1_0000 && ModernType(family) != 0 && entry < TWO_23 && counter < TWO_24
    ensures LegacyOf(Guid128(counter, EntryHigh(ModernType(family), entry))) == Legacy(family, entry, counter)
  {
    Types(family);
    EntryFields(ModernType(family), entry);
  }

  lemma BackFromTransport(guid: uint64, mapId: uint16)
    requires Family(guid) == LEGACY_TRANSPORT
    ensures LegacyOf(ModernLegacyGuid(guid, mapId)) == Canonical(guid)
  {
    TransportBack(Counter(guid) % TWO_20, TransportEntry(Entry(guid)));
  }

  lemma BackFromMoTransport(guid: uint64, mapId: uint16)
    requires Family(guid) == LEGACY_MO_TRANSPORT
    ensures LegacyOf(ModernLegacyGuid(guid, mapId)) == Canonical(guid)
  {
    LowBits(guid);
    TransportBack(Truncate32(guid) % TWO_20, 0);
  }

  lemma BackFromEntry(guid: uint64, mapId: uint16)
    requires ModernType(Family(guid)) != 0
    ensures LegacyOf(ModernLegacyGuid(guid, mapId)) == Canonical(guid)
  {
    EntryBack(Family(guid), Entry(guid) % TWO_23, Counter(guid));
  }

  lemma BackFromLow(guid: uint64, mapId: uint16)
    requires Family(guid) == 0 || IsItem(Family(guid))
    ensures LegacyOf(ModernLegacyGuid(guid, mapId)) == Canonical(guid)
  {
  }

  /** Going to the modern identity and back gives the GUID that stands for it. */
  lemma BackToCanonical(guid: uint64, mapId: uint16)
    ensures LegacyOf(ModernLegacyGuid(guid, mapId)) == Canonical(guid)
  {
    var family := Family(guid);
    if family == 0 || IsItem(family) {
      BackFromLow(guid, mapId);
    } else if family == LEGACY_TRANSPORT {
      BackFromTransport(guid, mapId);
    } else if family == LEGACY_MO_TRANSPORT {
      BackFromMoTransport(guid, mapId);
    } else if ModernType(family) != 0 {
      BackFromEntry(guid, mapId);
    }
  }

  // ---------- the canonical GUID has the same identity ----------

  lemma ItemParts(low: uint32)
    ensures Family(ItemGuid(low)) == LEGACY_ITEM && Truncate32(ItemGuid(low)) == low
  {
  }

  lemma TransportStands(guid: uint64, mapId: uint16)
    requires Family(guid) == LEGACY_TRANSPORT
    ensures ModernLegacyGuid(Canonical(guid), mapId) == ModernLegacyGuid(guid, mapId)
  {
    OfParts(LEGACY_TRANSPORT, Entry(guid), Counter(guid) % TWO_20);
  }

  lemma MoTransportStands(guid: uint64, mapId: uint16)
    requires Family(guid) == LEGACY_MO_TRANSPORT
    ensures ModernLegacyGuid(Canonical(guid), mapId) == ModernLegacyGuid(guid, mapId)
  {
    OfParts(LEGACY_MO_TRANSPORT, 0, Counter(guid) % TWO_20);
    LowBits(guid);
    LowBits(Canonical(guid));
  }

  lemma EntryStands(guid: uint64, mapId: uint16)
    requires ModernType(Family(guid)) != 0
    ensures ModernLegacyGuid(Canonical(guid), mapId) == ModernLegacyGuid(guid, mapId)
  {
    OfParts(Family(guid), Entry(guid) % TWO_23, Counter(guid));
  }

  /** A GUID and the one that stands for it have the same modern identity. */
  lemma CanonicalStands(guid: uint64, mapId: uint16)
    ensures ModernLegacyGuid(Canonical(guid), mapId) == ModernLegacyGuid(guid, mapId)
  {
    var family := Family(guid);
    if IsItem(family) {
      ItemParts(Truncate32(guid));
    } else if family == LEGACY_TRANSPORT {
      TransportStands(guid, mapId);
    } else if family == LEGACY_MO_TRANSPORT {
      MoTransportStands(guid, mapId);
    } else if ModernType(family) != 0 {
      EntryStands(guid, mapId);
    }
  }

  // ---------- the main results ----------

  /** Two legacy GUIDs share a modern identity iff one GUID stands for both. */
  lemma SameIdentityIff(a: uint64, b: uint64, mapId: uint16)
    ensures ModernLegacyGuid(a, mapId) == ModernLegacyGuid(b, mapId) <==> Canonical(a) == Canonical(b)
  {
    BackToCanonical(a, mapId);
    BackToCanonical(b, mapId);
    CanonicalStands(a, mapId);
    CanonicalStands(b, mapId);
  }

  /** No bit that the modern identity has no room for. */
  predicate WellFormed(guid: uint64) {
    var family := Family(guid);
    if family == 0 then guid < TWO_32
    else if family == LEGACY_ITEM then guid / TWO_32 % 0x1_0000 == 0
    else if family == LEGACY_TRANSPORT then Counter(guid) < TWO_20
    else if family == LEGACY_MO_TRANSPORT then guid % TWO_48 < TWO_20
    else ModernType(family) != 0 && Entry(guid) < TWO_23
  }

  lemma ItemItself(guid: uint64)
    ensures ItemGuid(Truncate32(guid)) == guid <==> Family(guid) == LEGACY_ITEM && guid / TWO_32 % 0x1_0000 == 0
  {
  }

  lemma MoTransportItself(guid: uint64)
    ensures guid % TWO_48 < TWO_20 <==> Entry(guid) == 0 && Counter(guid) < TWO_20
  {
  }

  lemma OneForm(f: nat, e: nat, c: nat, e': nat, c': nat)
    requires f < 0x1_0000 && e < TWO_24 && c < TWO_24 && e' < TWO_24 && c' < TWO_24
    ensures Legacy(f, e, c) == Legacy(f, e', c') <==> e == e' && c == c'
  {
    OfParts(f, e, c);
    OfParts(f, e', c');
  }

  /** Exactly the well-formed GUIDs stand for themselves; the players with low bits zero need one beyond them. */
  lemma StandsForItselfIff(guid: uint64)
    ensures Canonical(guid) == guid <==> WellFormed(guid) || guid == PLAYER_ZERO
  {
    var family := Family(guid);
    PartsOf(guid);
    if IsItem(family) {
      ItemItself(guid);
    } else if family == LEGACY_TRANSPORT {
      OneForm(family, Entry(guid), Counter(guid), Entry(guid), Counter(guid) % TWO_20);
    } else if family == LEGACY_MO_TRANSPORT {
      OneForm(family, Entry(guid), Counter(guid), 0, Counter(guid) % TWO_20);
      MoTransportItself(guid);
    } else if ModernType(family) != 0 {
      OneForm(family, Entry(guid), Counter(guid), Entry(guid) % TWO_23, Counter(guid));
    }
  }

  /** Well-formed GUIDs, of one family or of two, have different modern identities. */
  lemma InjectiveOnWellFormed(a: uint64, b: uint64, mapId: uint16)
    requires WellFormed(a) && WellFormed(b)
    ensures ModernLegacyGuid(a, mapId) == ModernLegacyGuid(b, mapId) <==> a == b
  {
    SameIdentityIff(a, b, mapId);
    StandsForItselfIff(a);
    StandsForItselfIff(b);
  }

  /** No identity at all: the empty GUID and the families the client does not know. */
  lemma NoIdentityIff(guid: uint64, mapId: uint16)
    ensures ModernLegacyGuid(guid, mapId) == NO_GUID <==> guid == 0 || UnknownFamily(Family(guid))
  {
  }

  // ---------- two families ----------

  /** The family of the GUID that stands for others: their own, but for the second item family and those unknown. */
  function StandingFamily(family: nat): nat {
    if family == LEGACY_ITEM_2 then LEGACY_ITEM else if UnknownFamily(family) then 0 else family
  }

  lemma FamilyStands(guid: uint64)
    ensures Family(Canonical(guid)) == StandingFamily(Family(guid))
  {
    var family := Family(guid);
    if IsItem(family) {
      ItemParts(Truncate32(guid));
    } else if family == LEGACY_TRANSPORT {
      OfParts(family, Entry(guid), Counter(guid) % TWO_20);
    } else if family == LEGACY_MO_TRANSPORT {
      OfParts(family, 0, Counter(guid) % TWO_20);
    } else if ModernType(family) != 0 {
      OfParts(family, Entry(guid) % TWO_23, Counter(guid));
    }
  }

  lemma NoOtherFamilies(a: uint64, b: uint64, mapId: uint16)
    requires Family(a) != Family(b) && !(IsItem(Family(a)) && IsItem(Family(b)))
    requires ModernLegacyGuid(a, mapId) == ModernLegacyGuid(b, mapId)
    ensures ModernLegacyGuid(a, mapId) == NO_GUID
  {
    SameIdentityIff(a, b, mapId);
    FamilyStands(a);
    FamilyStands(b);
    NoIdentityIff(a, mapId);
    NoIdentityIff(b, mapId);
  }

  /** GUIDs of two families share an identity iff neither has one, or both are items with one counter. */
  lemma FamiliesCollideIff(a: uint64, b: uint64, mapId: uint16)
    requires Family(a) != Family(b)
    ensures ModernLegacyGuid(a, mapId) == ModernLegacyGuid(b, mapId)
            <==> ModernLegacyGuid(a, mapId) == ModernLegacyGuid(b, mapId) == NO_GUID
                 || (IsItem(Family(a)) && IsItem(Family(b)) && Truncate32(a) == Truncate32(b))
  {
    if IsItem(Family(a)) && IsItem(Family(b)) {
      NoIdentityIff(a, mapId);
    } else if ModernLegacyGuid(a, mapId) == ModernLegacyGuid(b, mapId) {
      NoOtherFamilies(a, b, mapId);
    }
  }

  /** The two item families do collide. */
  lemma ItemsCollide(mapId: uint16)
    ensures ModernLegacyGuid(0x4000_0000_0000_0001, mapId) == ModernLegacyGuid(0x4700_0000_0000_0001, mapId)
  {
  }

  // ---------- items ----------

  function LegacyItemGuidFromModern(m: Guid128): uint64 {
    if m.low == 0 || m.high != ITEM_HIGH then 0 else ItemGuid(Truncate32(m.low))
  }

  lemma ItemHighIff(guid: uint64, mapId: uint16)
    ensures ModernLegacyGuid(guid, mapId).high == ITEM_HIGH <==> IsItem(Family(guid))
  {
    var family := Family(guid);
    if family == LEGACY_TRANSPORT {
      TransportFields(Counter(guid) % TWO_20, TransportEntry(Entry(guid)));
    } else if family == LEGACY_MO_TRANSPORT {
      TransportFields(Truncate32(guid) % TWO_20, 0);
    } else if ModernType(family) != 0 {
      EntryFields(ModernType(family), Entry(guid) % TWO_23);
      Types(family);
    }
  }

  /** The item GUID comes back exactly for the items of the usual family with a counter and no middle bits, and for no GUID. */
  lemma ItemRoundTripIff(guid: uint64, mapId: uint16)
    ensures LegacyItemGuidFromModern(ModernLegacyGuid(guid, mapId)) == guid
            <==> guid == 0 || (Family(guid) == LEGACY_ITEM && WellFormed(guid) && Truncate32(guid) != 0)
  {
    ItemHighIff(guid, mapId);
    ItemItself(guid);
  }

  /** And the other way: the modern items with a counter of 32 bits. */
  lemma ItemBackIff(m: Guid128, mapId: uint16)
    ensures ModernLegacyGuid(LegacyItemGuidFromModern(m), mapId) == m
            <==> m == NO_GUID || (m.high == ITEM_HIGH && 0 < m.low < TWO_32)
  {
    ItemParts(Truncate32(m.low));
  }
}
