/** The modern identity of every legacy GUID, field by field. */
module ModernGuidFields {
  import opened Arithmetic
  import opened Bytes
  import opened Guids
  import opened ModernGuids

  /** A legacy GUID: a family of 16 bits, an entry of 24, a counter of 24. */
  function LegacyGuid(family: uint16, entry: nat, counter: nat): uint64
    requires entry < 0x100_0000 && counter < 0x100_0000
  {
    (family as int) * 0x1_0000_0000_0000 + entry * 0x100_0000 + counter
  }

  /** The lower 32 bits: the counter, and 8 bits of the entry. */
  function Low32(entry: nat, counter: nat): uint64
    requires entry < 0x100_0000 && counter < 0x100_0000
  {
    entry % 0x100 * 0x100_0000 + counter
  }

  /** The families whose modern identity keeps the entry, and the modern type of each. */
  predicate CarriesEntry(family: uint16, typ: nat) {
    (family, typ) in {(0xf130, 8), (0xf150, 9), (0xf140, 10), (0xf110, 11), (0xf100, 12), (0xf101, 14)}
  }

  /**
   The type is in bits 58 to 63. Bit 42 is the realm; the entry is in bits 6 to 28, or, of a transport, in the lowest 32,
   under its counter in bits 38 to 57.
   */
  ghost predicate IdentityIs(m: Guid128, family: uint16, entry: nat, counter: nat)
    requires entry < 0x100_0000 && counter < 0x100_0000
  {
    if family == 0 && entry == 0 && counter == 0 then m.low == 0 && m.high == 0
    else if family == 0 then m.low == Low32(entry, counter) && m.high == 0x0800_0400_0000_0000
    else if family in {0x4000, 0x4700} then m.low == Low32(entry, counter) && m.high == 0x0C00_0400_0000_0000
    else if family == 0xf120 then
      && m.low == 0
      && m.high == 0x1800_0000_0000_0000 + counter % 0x10_0000 * 0x40_0000_0000 + (if entry == 0 then 0xffff_ffff else entry)
    else if family == 0x1fc0 then
      m.low == 0 && m.high == 0x1800_0000_0000_0000 + counter % 0x10_0000 * 0x40_0000_0000
    else
      && (forall typ: nat :: CarriesEntry(family, typ) ==>
            && m.low == counter
            && m.high == typ * 0x0400_0000_0000_0000 + 0x400_0000_0000 + entry % 0x80_0000 * 0x40)
      && ((forall typ: nat :: !CarriesEntry(family, typ)) ==> m.low == 0 && m.high == 0)
  }

  lemma LowerHalf(family: uint16, entry: nat, counter: nat)
    requires entry < 0x100_0000 && counter < 0x100_0000
    ensures Truncate32(LegacyGuid(family, entry, counter)) == Low32(entry, counter)
  {
    var guid, low := LegacyGuid(family, entry, counter), Low32(entry, counter);
    DivUnique(guid, 0x1_0000_0000, (family as int) * 0x1_0000 + entry / 0x100, low);
  }

  lemma TypeOf(family: uint16, typ: nat)
    ensures CarriesEntry(family, typ) <==> ModernType(family) == typ && typ != 0
  {
  }

  lemma IdentityMeaning(family: uint16, entry: nat, counter: nat, mapId: uint16)
    requires entry < 0x100_0000 && counter < 0x100_0000
    ensures IdentityIs(ModernLegacyGuid(LegacyGuid(family, entry, counter), mapId), family, entry, counter)
  {
    var guid := LegacyGuid(family, entry, counter);
    OfParts(family, entry, counter);
    LowerHalf(family, entry, counter);
    LowBits(guid);
    TypeOf(family, ModernType(family));
    forall typ: nat | CarriesEntry(family, typ)
      ensures ModernType(family) == typ
    {
      TypeOf(family, typ);
    }
  }
}
