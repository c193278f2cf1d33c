/** Descriptor bits of parallel arrays, from array order to element order. */
module ValuesOrder {
  import opened Arithmetic

  /** Parallel arrays behind one another: arrays of them, slots elements each, from bit start on. */
  datatype Group = Group(start: int, slots: int, arrays: int) {
    predicate Valid() {
      0 < slots && 0 < arrays
    }

    predicate Has(bit: int)
      requires Valid()
    {
      start <= bit < start + slots * arrays
    }

    function Transposed(): Group {
      Group(start, arrays, slots)
    }
  }

  function InterleavedOrder(bit: int, start: int, slots: int, arrays: int): int
    requires start <= bit && 0 < slots && 0 < arrays
  {
    start + (bit - start) % slots * arrays + (bit - start) / slots
  }

  lemma Monotone(n: int, a: int, b: int)
    requires n > 0
    ensures a >= b ==> n * a >= n * b
  {
  }

  lemma Products(a: int, b: int, n: int, m: int)
    requires 0 <= a < n && 0 <= b < m
    ensures 0 <= a * m + b < n * m
  {
    Monotone(m, n, a + 1);
    Monotone(m, a, 0);
    assert m * (a + 1) == m * a + m;
    assert a * m == m * a && n * m == m * n;
  }

  /** A bit of the group is element e of array a. */
  lemma ElementOf(g: Group, bit: int)
    requires g.Valid() && g.Has(bit)
    ensures var (a, e) := ((bit - g.start) / g.slots, (bit - g.start) % g.slots);
            0 <= a < g.arrays && 0 <= e < g.slots && bit == g.start + a * g.slots + e
  {
  }

  /** Element e of array a comes to place a of row e. */
  lemma PlaceOf(g: Group, a: int, e: int)
    requires g.Valid() && 0 <= a < g.arrays && 0 <= e < g.slots
    ensures var bit := g.start + a * g.slots + e;
            && g.Has(bit)
            && InterleavedOrder(bit, g.start, g.slots, g.arrays) == g.start + e * g.arrays + a
  {
    var d := a * g.slots + e;
    Products(a, e, g.arrays, g.slots);
    assert g.arrays * g.slots == g.slots * g.arrays && g.slots * a == a * g.slots;
    DivUnique(d, g.slots, a, e);
  }

  /** The order stays in the group, and transposing back undoes it. */
  lemma TransposeTwice(g: Group, bit: int)
    requires g.Valid() && g.Has(bit)
    ensures var placed := InterleavedOrder(bit, g.start, g.slots, g.arrays);
            && g.Has(placed) && g.Transposed().Has(placed)
            && InterleavedOrder(placed, g.start, g.arrays, g.slots) == bit
  {
    var a, e := (bit - g.start) / g.slots, (bit - g.start) % g.slots;
    ElementOf(g, bit);
    PlaceOf(g, a, e);
    PlaceOf(g.Transposed(), e, a);
    assert g.arrays * g.slots == g.slots * g.arrays;
  }

  /** All arrays' element e come before any element behind it, those of one element in the order of the arrays. */
  lemma ElementsFirst(g: Group, a: int, e: int, a': int, e': int)
    requires g.Valid() && 0 <= a < g.arrays && 0 <= a' < g.arrays && 0 <= e < g.slots && 0 <= e' < g.slots
    ensures g.Has(g.start + a * g.slots + e) && g.Has(g.start + a' * g.slots + e')
    ensures InterleavedOrder(g.start + a * g.slots + e, g.start, g.slots, g.arrays)
            < InterleavedOrder(g.start + a' * g.slots + e', g.start, g.slots, g.arrays)
            <==> e < e' || (e == e' && a < a')
  {
    PlaceOf(g, a, e);
    PlaceOf(g, a', e');
    if e < e' {
      RowBefore(g.arrays, a, e, e');
    } else if e' < e {
      RowBefore(g.arrays, a', e', e);
    }
  }

  lemma RowBefore(arrays: int, a: int, e: int, e': int)
    requires 0 <= a < arrays && e < e'
    ensures e * arrays + a < e' * arrays
  {
    assert (e' - e - 1) * arrays >= 0;
    assert e' * arrays == e * arrays + arrays + (e' - e - 1) * arrays;
  }

  // ---------- the tables ----------

  const UNIT_GROUPS: seq<Group> := [Group(117, 10, 5), Group(175, 5, 3), Group(191, 7, 3), Group(213, 7, 2)]
  const ACTIVE_GROUPS: seq<Group> := [Group(270, 7, 4), Group(550, 12, 2), Group(1513, 6, 2)]

  ghost predicate AllValid(groups: seq<Group>) {
    forall i :: 0 <= i < |groups| ==> groups[i].Valid()
  }

  ghost predicate Disjoint(groups: seq<Group>)
    requires AllValid(groups)
  {
    forall i, j, bit :: 0 <= i < j < |groups| && groups[i].Has(bit) ==> !groups[j].Has(bit)
  }

  /** The first group that has the bit interleaves it; a bit of no group stays. */
  function DeltaOrder(groups: seq<Group>, bit: int): int
    requires AllValid(groups)
  {
    if groups == [] then bit
    else if groups[0].Has(bit) then InterleavedOrder(bit, groups[0].start, groups[0].slots, groups[0].arrays)
    else DeltaOrder(groups[1..], bit)
  }

  function TransposedAll(groups: seq<Group>): (r: seq<Group>)
    ensures |r| == |groups|
    ensures AllValid(groups) ==> AllValid(r)
  {
    seq(|groups|, i requires 0 <= i < |groups| => groups[i].Transposed())
  }

  ghost predicate InNone(groups: seq<Group>, bit: int)
    requires AllValid(groups)
  {
    forall i :: 0 <= i < |groups| ==> !groups[i].Has(bit)
  }

  lemma {:induction false} OutsideStays(groups: seq<Group>, bit: int)
    requires AllValid(groups) && InNone(groups, bit)
    ensures DeltaOrder(groups, bit) == bit
  {
    if groups != [] {
      OutsideStays(groups[1..], bit);
    }
  }

  /** A bit of group k stays in group k and is placed by it. */
  lemma {:induction false} InsideGroup(groups: seq<Group>, k: nat, bit: int)
    requires AllValid(groups) && Disjoint(groups) && k < |groups| && groups[k].Has(bit)
    ensures DeltaOrder(groups, bit) == InterleavedOrder(bit, groups[k].start, groups[k].slots, groups[k].arrays)
    ensures groups[k].Has(DeltaOrder(groups, bit))
  {
    TransposeTwice(groups[k], bit);
    if k > 0 {
      assert !groups[0].Has(bit) by {
        assert 0 <= 0 < k < |groups|;
      }
      DisjointTail(groups);
      InsideGroup(groups[1..], k - 1, bit);
    }
  }

  lemma DisjointTail(groups: seq<Group>)
    requires groups != [] && AllValid(groups) && Disjoint(groups)
    ensures AllValid(groups[1..]) && Disjoint(groups[1..])
  {
  }

  lemma SameBits(g: Group, bit: int)
    requires g.Valid()
    ensures g.Transposed().Has(bit) <==> g.Has(bit)
  {
  }

  lemma TransposedDisjoint(groups: seq<Group>)
    requires AllValid(groups) && Disjoint(groups)
    ensures Disjoint(TransposedAll(groups))
  {
    var other := TransposedAll(groups);
    forall i, j, bit | 0 <= i < j < |other| && other[i].Has(bit)
      ensures !other[j].Has(bit)
    {
      SameBits(groups[i], bit);
      SameBits(groups[j], bit);
    }
  }

  /** The order with the groups transposed undoes it: a permutation of all integers that moves only bits of the groups. */
  lemma OrderUndone(groups: seq<Group>, bit: int)
    requires AllValid(groups) && Disjoint(groups)
    ensures DeltaOrder(TransposedAll(groups), DeltaOrder(groups, bit)) == bit
    ensures InNone(groups, bit) ==> DeltaOrder(groups, bit) == bit
  {
    var other := TransposedAll(groups);
    if InNone(groups, bit) {
      OutsideStays(groups, bit);
      forall i | 0 <= i < |other|
        ensures !other[i].Has(bit)
      {
        SameBits(groups[i], bit);
      }
      OutsideStays(other, bit);
    } else {
      var k :| 0 <= k < |groups| && groups[k].Has(bit);
      InsideGroup(groups, k, bit);
      TransposeTwice(groups[k], bit);
      TransposedDisjoint(groups);
      InsideGroup(other, k, DeltaOrder(groups, bit));
    }
  }

  lemma TransposedBack(groups: seq<Group>)
    ensures TransposedAll(TransposedAll(groups)) == groups
  {
  }

  function UnitDeltaOrder(bit: int): int {
    DeltaOrder(UNIT_GROUPS, bit)
  }

  function ActiveDeltaOrder(bit: int): int {
    DeltaOrder(ACTIVE_GROUPS, bit)
  }

  lemma TablesDisjoint()
    ensures AllValid(UNIT_GROUPS) && Disjoint(UNIT_GROUPS)
    ensures AllValid(ACTIVE_GROUPS) && Disjoint(ACTIVE_GROUPS)
  {
  }

  /** Every integer is the place of exactly one bit. */
  lemma UnitOrderPermutes(place: int)
    ensures exists bit :: UnitDeltaOrder(bit) == place
    ensures forall a, b :: UnitDeltaOrder(a) == UnitDeltaOrder(b) ==> a == b
    ensures InNone(UNIT_GROUPS, place) ==> UnitDeltaOrder(place) == place
  {
    TablesDisjoint();
    OrderPermutes(UNIT_GROUPS, place);
    var bit :| DeltaOrder(UNIT_GROUPS, bit) == place;
    assert UnitDeltaOrder(bit) == place;
  }

  lemma ActiveOrderPermutes(place: int)
    ensures exists bit :: ActiveDeltaOrder(bit) == place
    ensures forall a, b :: ActiveDeltaOrder(a) == ActiveDeltaOrder(b) ==> a == b
    ensures InNone(ACTIVE_GROUPS, place) ==> ActiveDeltaOrder(place) == place
  {
    TablesDisjoint();
    OrderPermutes(ACTIVE_GROUPS, place);
    var bit :| DeltaOrder(ACTIVE_GROUPS, bit) == place;
    assert ActiveDeltaOrder(bit) == place;
  }

  lemma OrderPermutes(groups: seq<Group>, place: int)
    requires AllValid(groups) && Disjoint(groups)
    ensures exists bit :: DeltaOrder(groups, bit) == place
    ensures forall a, b :: DeltaOrder(groups, a) == DeltaOrder(groups, b) ==> a == b
    ensures InNone(groups, place) ==> DeltaOrder(groups, place) == place
  {
    var other := TransposedAll(groups);
    TransposedDisjoint(groups);
    TransposedBack(groups);
    OrderUndone(other, place);
    OrderUndone(groups, place);
    assert DeltaOrder(groups, DeltaOrder(other, place)) == place;
    forall a, b | DeltaOrder(groups, a) == DeltaOrder(groups, b)
      ensures a == b
    {
      OrderUndone(groups, a);
      OrderUndone(groups, b);
    }
  }

  // ---------- the places of both tables ----------

  /** Element e of array a of parallel arrays from bit start on comes to row e, place a. */
  predicate RowMajor(order: int -> int, start: int, slots: int, arrays: int) {
    forall a, e :: 0 <= a < arrays && 0 <= e < slots ==> order(start + slots * a + e) == start + arrays * e + a
  }

  lemma GroupPlaces(groups: seq<Group>, k: nat, a: int, e: int)
    requires AllValid(groups) && Disjoint(groups) && k < |groups| && 0 <= a < groups[k].arrays && 0 <= e < groups[k].slots
    ensures var g := groups[k]; DeltaOrder(groups, g.start + g.slots * a + e) == g.start + g.arrays * e + a
  {
    var g := groups[k];
    PlaceOf(g, a, e);
    assert g.slots * a == a * g.slots && g.arrays * e == e * g.arrays;
    InsideGroup(groups, k, g.start + a * g.slots + e);
  }

  lemma GroupIsRowMajor(groups: seq<Group>, k: nat, order: int -> int)
    requires AllValid(groups) && Disjoint(groups) && k < |groups| && forall bit :: order(bit) == DeltaOrder(groups, bit)
    ensures RowMajor(order, groups[k].start, groups[k].slots, groups[k].arrays)
  {
    var g := groups[k];
    forall a, e | 0 <= a < g.arrays && 0 <= e < g.slots
      ensures order(g.start + g.slots * a + e) == g.start + g.arrays * e + a
    {
      GroupPlaces(groups, k, a, e);
    }
  }

  /** Units: five arrays of ten, three of five, three of seven, two of seven; no other bit moves. */
  lemma UnitPlaces(bit: int)
    ensures RowMajor(UnitDeltaOrder, 117, 10, 5) && RowMajor(UnitDeltaOrder, 175, 5, 3)
    ensures RowMajor(UnitDeltaOrder, 191, 7, 3) && RowMajor(UnitDeltaOrder, 213, 7, 2)
    ensures !(117 <= bit < 167 || 175 <= bit < 190 || 191 <= bit < 212 || 213 <= bit < 227) ==> UnitDeltaOrder(bit) == bit
  {
    TablesDisjoint();
    GroupIsRowMajor(UNIT_GROUPS, 0, UnitDeltaOrder);
    GroupIsRowMajor(UNIT_GROUPS, 1, UnitDeltaOrder);
    GroupIsRowMajor(UNIT_GROUPS, 2, UnitDeltaOrder);
    GroupIsRowMajor(UNIT_GROUPS, 3, UnitDeltaOrder);
    if InNone(UNIT_GROUPS, bit) {
      OutsideStays(UNIT_GROUPS, bit);
    }
  }

  /** Active players: four arrays of seven, two of twelve, two of six; no other bit moves. */
  lemma ActivePlaces(bit: int)
    ensures RowMajor(ActiveDeltaOrder, 270, 7, 4) && RowMajor(ActiveDeltaOrder, 550, 12, 2)
    ensures RowMajor(ActiveDeltaOrder, 1513, 6, 2)
    ensures !(270 <= bit < 298 || 550 <= bit < 574 || 1513 <= bit < 1525) ==> ActiveDeltaOrder(bit) == bit
  {
    TablesDisjoint();
    GroupIsRowMajor(ACTIVE_GROUPS, 0, ActiveDeltaOrder);
    GroupIsRowMajor(ACTIVE_GROUPS, 1, ActiveDeltaOrder);
    GroupIsRowMajor(ACTIVE_GROUPS, 2, ActiveDeltaOrder);
    if InNone(ACTIVE_GROUPS, bit) {
      OutsideStays(ACTIVE_GROUPS, bit);
    }
  }
}
