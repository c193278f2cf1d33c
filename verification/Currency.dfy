/** Currency quantities: collected from items and player fields, sent as differences. */
module Currencies {
  import opened Wrappers
  import opened Bytes
  import opened Sorting

  const ARENA: uint32 := 1900
  const HONOR: uint32 := 1901

  const OBJECT_ENTRY: int := 3
  const ITEM_OWNER: int := 6
  const ITEM_STACK_COUNT: int := 14
  const PLAYER_HONOR: int := 1277
  const PLAYER_ARENA: int := 1278

  const CURRENCY_BY_ITEM: map<uint32, uint32> := map[
    29434 := 42, 41596 := 61, 43016 := 81, 40752 := 101, 40753 := 102, 20560 := 121, 20559 := 122, 29024 := 123,
    42425 := 124, 20558 := 125, 43589 := 126, 43228 := 161, 37836 := 201, 45624 := 221, 44990 := 241, 47241 := 301,
    47395 := 321, 49426 := 341]

  type Fields = map<int, uint32>
  type Quantities = map<uint32, uint32>

  /** The fields of an item, None for a nil map. */
  type Item = Option<Fields>

  predicate Has(item: Item, i: int) {
    item.Some? && i in item.value
  }

  function Field(item: Item, i: int): uint32 {
    if Has(item, i) then item.value[i] else 0
  }

  function Quantity(q: Quantities, id: uint32): uint32 {
    if id in q then q[id] else 0
  }

  // ---------- collecting ----------

  datatype Stack = Stack(id: uint32, count: uint32)

  /** Without owner fields an item is taken for the owner's; a nil map is nobody's. */
  predicate OwnedBy(item: Item, owner: uint64) {
    if item.None? then false
    else if !Has(item, ITEM_OWNER) && !Has(item, ITEM_OWNER + 1) then true
    else OwnerIn(item) == 0 || OwnerIn(item) == owner
  }

  /** The owner's GUID, its halves in two fields. */
  function OwnerIn(item: Item): nat {
    Field(item, ITEM_OWNER) + (Field(item, ITEM_OWNER + 1) as int) * TWO_32
  }

  /** An item that carries both halves of a GUID is the owner's iff that GUID is, or is zero. */
  lemma OwnedByHalves(item: Item, guid: uint64, owner: uint64)
    requires Has(item, ITEM_OWNER) && Field(item, ITEM_OWNER) == Truncate32(guid)
    requires Has(item, ITEM_OWNER + 1) && Field(item, ITEM_OWNER + 1) == guid / TWO_32
    ensures OwnedBy(item, owner) <==> guid == 0 || guid == owner
  {
    assert OwnerIn(item) == guid;
  }

  /** What one item adds: a stack of a currency, owned, not empty. A missing count is one. */
  function Counted(item: Item, owner: uint64): Option<Stack> {
    var entry := Field(item, OBJECT_ENTRY);
    if (owner != 0 && !OwnedBy(item, owner)) || entry !in CURRENCY_BY_ITEM then None
    else
      var count := if Has(item, ITEM_STACK_COUNT) then Field(item, ITEM_STACK_COUNT) else 1;
      if count == 0 then None else Some(Stack(CURRENCY_BY_ITEM[entry], count))
  }

  function CountIn(id: uint32, s: Option<Stack>): nat {
    if s.Some? && s.value.id == id then s.value.count else 0
  }

  /** The sum of the stacks of one currency. */
  function Total(id: uint32, stacks: seq<Option<Stack>>): nat {
    if stacks == [] then 0 else Total(id, stacks[..|stacks| - 1]) + CountIn(id, stacks[|stacks| - 1])
  }

  predicate HasStack(id: uint32, stacks: seq<Option<Stack>>) {
    exists i :: 0 <= i < |stacks| && stacks[i].Some? && stacks[i].value.id == id
  }

  function CountedAll(items: seq<Item>, owner: uint64): (r: seq<Option<Stack>>)
    ensures |r| == |items|
  {
    seq(|items|, i requires 0 <= i < |items| => Counted(items[i], owner))
  }

  /** Exactly the currencies that some stack counts for, each with its sum modulo 2^32. */
  ghost predicate Sums(q: Quantities, stacks: seq<Option<Stack>>) {
    && (forall id :: id in q <==> HasStack(id, stacks))
    && (forall id :: id in q ==> q[id] == Truncate32(Total(id, stacks)))
  }

  /** The item sums, and over them the honor and arena fields that are present. */
  ghost predicate Collected(q: Quantities, stacks: seq<Option<Stack>>, player: Fields) {
    forall id ::
      if id == ARENA && PLAYER_ARENA in player then id in q && q[id] == player[PLAYER_ARENA]
      else if id == HONOR && PLAYER_HONOR in player then id in q && q[id] == player[PLAYER_HONOR]
      else (id in q <==> HasStack(id, stacks)) && (id in q ==> q[id] == Truncate32(Total(id, stacks)))
  }

  lemma OneMore(id: uint32, stacks: seq<Option<Stack>>, s: Option<Stack>)
    ensures Total(id, stacks + [s]) == Total(id, stacks) + CountIn(id, s)
    ensures HasStack(id, stacks + [s]) <==> HasStack(id, stacks) || (s.Some? && s.value.id == id)
  {
  }

  lemma {:induction false} NoStackNoTotal(id: uint32, stacks: seq<Option<Stack>>)
    requires !HasStack(id, stacks)
    ensures Total(id, stacks) == 0
  {
    if stacks != [] {
      var init, last := stacks[..|stacks| - 1], stacks[|stacks| - 1];
      assert stacks == init + [last];
      OneMore(id, init, last);
      NoStackNoTotal(id, init);
    }
  }

  lemma TruncateSum(a: nat, b: nat)
    ensures Truncate32(Truncate32(a) + b) == Truncate32(a + b)
  {
  }

  lemma AddStack(q: Quantities, stacks: seq<Option<Stack>>, s: Stack)
    requires Sums(q, stacks)
    ensures Sums(q[s.id := Truncate32(Quantity(q, s.id) + s.count)], stacks + [Some(s)])
  {
    forall id
      ensures Total(id, stacks + [Some(s)]) == Total(id, stacks) + CountIn(id, Some(s))
      ensures HasStack(id, stacks + [Some(s)]) <==> HasStack(id, stacks) || id == s.id
    {
      OneMore(id, stacks, Some(s));
    }
    if !HasStack(s.id, stacks) {
      NoStackNoTotal(s.id, stacks);
    }
    TruncateSum(Total(s.id, stacks), s.count);
  }

  lemma SkipStack(q: Quantities, stacks: seq<Option<Stack>>)
    requires Sums(q, stacks)
    ensures Sums(q, stacks + [None])
  {
    forall id
      ensures Total(id, stacks + [None]) == Total(id, stacks) && (HasStack(id, stacks + [None]) <==> HasStack(id, stacks))
    {
      OneMore(id, stacks, None);
    }
  }

  method LegacyItemOwnedBy(item: Item, owner: uint64) returns (owned: bool)
    ensures owned == OwnedBy(item, owner)
  {
    if item.None? {
      return false;
    }
    var low, high := Field(item, ITEM_OWNER), Field(item, ITEM_OWNER + 1);
    if !Has(item, ITEM_OWNER) && !Has(item, ITEM_OWNER + 1) {
      return true;
    }
    var guid: nat := low + (high as int) * TWO_32;
    return guid == 0 || guid == owner;
  }

  /** The body of the item loop: the stack to add, if any. */
  method CountItem(item: Item, owner: uint64) returns (s: Option<Stack>)
    ensures s == Counted(item, owner)
  {
    if owner != 0 {
      var owned := LegacyItemOwnedBy(item, owner);
      if !owned {
        return None;
      }
    }
    var entry := Field(item, OBJECT_ENTRY);
    if entry !in CURRENCY_BY_ITEM {
      return None;
    }
    var count := 1;
    if Has(item, ITEM_STACK_COUNT) {
      count := Field(item, ITEM_STACK_COUNT);
    }
    if count == 0 {
      return None;
    }
    return Some(Stack(CURRENCY_BY_ITEM[entry], count));
  }

  /** One item of the loop: its stack is added, with the wrap of 32 bits, or the item is passed over. */
  method AddItem(before: Quantities, item: Item, owner: uint64, ghost stacks: seq<Option<Stack>>) returns (next: Quantities)
    requires Sums(before, stacks)
    ensures Sums(next, stacks + [Counted(item, owner)])
  {
    next := before;
    var s := CountItem(item, owner);
    if s.None? {
      SkipStack(before, stacks);
    } else {
      AddStack(before, stacks, s.value);
      next := next[s.value.id := Truncate32(Quantity(next, s.value.id) + s.value.count)];
    }
  }

  lemma CountedNext(items: seq<Item>, i: nat, owner: uint64)
    requires i < |items|
    ensures CountedAll(items[..i + 1], owner) == CountedAll(items[..i], owner) + [Counted(items[i], owner)]
  {
  }

  method SumItems(owner: uint64, items: seq<Item>) returns (next: Quantities)
    ensures Sums(next, CountedAll(items, owner))
  {
    next := map[];
    for i := 0 to |items|
      invariant Sums(next, CountedAll(items[..i], owner))
    {
      CountedNext(items, i, owner);
      next := AddItem(next, items[i], owner, CountedAll(items[..i], owner));
    }
    assert items[..|items|] == items;
  }

  method CollectCurrencies(owner: uint64, player: Fields, items: seq<Item>) returns (next: Quantities)
    ensures Collected(next, CountedAll(items, owner), player)
  {
    next := SumItems(owner, items);
    if PLAYER_HONOR in player {
      next := next[HONOR := player[PLAYER_HONOR]];
    }
    if PLAYER_ARENA in player {
      next := next[ARENA := player[PLAYER_ARENA]];
    }
  }

  // ---------- the order of the items ----------

  lemma OneLess(stacks: seq<Option<Stack>>, j: nat)
    requires j < |stacks|
    ensures var (init, last) := (stacks[..|stacks| - 1], stacks[|stacks| - 1]);
            && stacks == init + [last]
            && if j == |init| then stacks[..j] + stacks[j + 1..] == init
               else stacks[..j] + stacks[j + 1..] == (init[..j] + init[j + 1..]) + [last]
  {
  }

  lemma {:induction false} TotalWithout(id: uint32, stacks: seq<Option<Stack>>, j: nat)
    requires j < |stacks|
    ensures Total(id, stacks) == Total(id, stacks[..j] + stacks[j + 1..]) + CountIn(id, stacks[j])
  {
    var init, last := stacks[..|stacks| - 1], stacks[|stacks| - 1];
    OneLess(stacks, j);
    OneMore(id, init, last);
    if j < |init| {
      TotalWithout(id, init, j);
      OneMore(id, init[..j] + init[j + 1..], last);
    }
  }

  lemma TakeOut<T>(a: seq<T>, b: seq<T>) returns (j: nat)
    requires multiset(a) == multiset(b) && a != []
    ensures j < |b| && b[j] == a[|a| - 1]
    ensures multiset(b[..j] + b[j + 1..]) == multiset(a[..|a| - 1])
  {
    var n := |a| - 1;
    assert a == a[..n] + [a[n]];
    assert a[n] in multiset(b);
    j :| 0 <= j < |b| && b[j] == a[n];
    assert b == b[..j] + [b[j]] + b[j + 1..];
    assert multiset(a) == multiset(a[..n]) + multiset{a[n]};
    assert multiset(b) == multiset(b[..j]) + multiset{b[j]} + multiset(b[j + 1..]);
    assert multiset(b[..j] + b[j + 1..]) == multiset(b) - multiset{a[n]};
    assert multiset(a[..n]) == multiset(a) - multiset{a[n]};
  }

  lemma SamePermuted<T>(a: seq<T>, b: seq<T>)
    requires multiset(a) == multiset(b)
    ensures |a| == |b|
  {
    assert |multiset(a)| == |a| && |multiset(b)| == |b|;
  }

  lemma CountedWithout(items: seq<Item>, j: nat, owner: uint64)
    requires j < |items|
    ensures CountedAll(items[..j] + items[j + 1..], owner)
            == CountedAll(items, owner)[..j] + CountedAll(items, owner)[j + 1..]
  {
  }

  /** Items in another order make up the same sums. */
  lemma {:induction false} TotalPermuted(id: uint32, a: seq<Item>, b: seq<Item>, owner: uint64)
    requires multiset(a) == multiset(b)
    ensures Total(id, CountedAll(a, owner)) == Total(id, CountedAll(b, owner))
    decreases |a|
  {
    SamePermuted(a, b);
    if a != [] {
      var n := |a| - 1;
      var j := TakeOut(a, b);
      TotalPermuted(id, a[..n], b[..j] + b[j + 1..], owner);
      CountedWithout(b, j, owner);
      TotalWithout(id, CountedAll(b, owner), j);
      CountedNext(a, n, owner);
      assert a[..n + 1] == a;
      OneMore(id, CountedAll(a[..n], owner), Counted(a[n], owner));
    }
  }

  lemma HasStackPermuted(id: uint32, a: seq<Item>, b: seq<Item>, owner: uint64)
    requires multiset(a) == multiset(b) && HasStack(id, CountedAll(a, owner))
    ensures HasStack(id, CountedAll(b, owner))
  {
    var stacks := CountedAll(a, owner);
    var i :| 0 <= i < |stacks| && stacks[i].Some? && stacks[i].value.id == id;
    assert a[i] in multiset(b);
    var j :| 0 <= j < |b| && b[j] == a[i];
    assert CountedAll(b, owner)[j] == stacks[i];
  }

  /** What is collected does not depend on the order in which the items come. */
  lemma CollectedForAnyOrder(q: Quantities, r: Quantities, owner: uint64, player: Fields, a: seq<Item>, b: seq<Item>)
    requires multiset(a) == multiset(b)
    requires Collected(q, CountedAll(a, owner), player) && Collected(r, CountedAll(b, owner), player)
    ensures q == r
  {
    forall id
      ensures Total(id, CountedAll(a, owner)) == Total(id, CountedAll(b, owner))
      ensures HasStack(id, CountedAll(a, owner)) <==> HasStack(id, CountedAll(b, owner))
    {
      TotalPermuted(id, a, b, owner);
      if HasStack(id, CountedAll(a, owner)) {
        HasStackPermuted(id, a, b, owner);
      }
      if HasStack(id, CountedAll(b, owner)) {
        HasStackPermuted(id, b, a, owner);
      }
    }
  }

  // ---------- differences ----------

  datatype Record = Record(currency: uint32, quantity: uint32)

  function TypeOf(r: Record): nat {
    r.currency
  }

  /** The client has to be told: the quantity differs, or is new and not zero, or is gone. */
  predicate Changed(prev: Quantities, next: Quantities, id: uint32) {
    if id in next then if id in prev then prev[id] != next[id] else next[id] != 0
    else id in prev
  }

  function Changes(prev: Quantities, next: Quantities): set<Record> {
    set id | id in prev.Keys + next.Keys && Changed(prev, next, id) :: Record(id, Quantity(next, id))
  }

  lemma ChangesDistinct(prev: Quantities, next: Quantities)
    ensures Distinguishes(Changes(prev, next), TypeOf)
  {
  }

  /** One record for each change, ascending by type. */
  function Difference(prev: Quantities, next: Quantities): (r: seq<Record>)
    ensures AscendingBy(r, TypeOf)
    ensures forall x :: x in r <==> x in Changes(prev, next)
  {
    ChangesDistinct(prev, next);
    SortedOf(Changes(prev, next), TypeOf)
  }

  ghost predicate RecordsFor(records: seq<Record>, prev: Quantities, next: Quantities, done: set<uint32>) {
    && DistinctBy(records, TypeOf)
    && forall r :: r in records
              <==> r.currency in done && Changed(prev, next, r.currency) && r.quantity == Quantity(next, r.currency)
  }

  function Ids(order: seq<uint32>): set<uint32> {
    set id | id in order
  }

  lemma NextId(order: seq<uint32>, i: nat)
    requires i < |order|
    ensures Ids(order[..i + 1]) == Ids(order[..i]) + {order[i]}
    ensures NoRepeats(order) ==> order[i] !in Ids(order[..i])
  {
  }

  lemma OneMoreRecord(records: seq<Record>, prev: Quantities, next: Quantities, done: set<uint32>, id: uint32)
    requires RecordsFor(records, prev, next, done) && id !in done
    ensures Changed(prev, next, id) ==> RecordsFor(records + [Record(id, Quantity(next, id))], prev, next, done + {id})
    ensures !Changed(prev, next, id) ==> RecordsFor(records, prev, next, done + {id})
  {
  }

  /** The changes of the currencies in the next snapshot, in the order the map gives them. */
  method ChangedRecords(prev: Quantities, next: Quantities) returns (records: seq<Record>, seen: set<uint32>)
    ensures seen == next.Keys && RecordsFor(records, prev, next, seen)
  {
    var order := KeysOf(next);
    records, seen := [], {};
    for i := 0 to |order|
      invariant seen == Ids(order[..i]) && RecordsFor(records, prev, next, seen)
    {
      var id := order[i];
      NextId(order, i);
      OneMoreRecord(records, prev, next, seen, id);
      assert id in order;
      seen := seen + {id};
      if id in prev && prev[id] == next[id] {
        continue;
      }
      if id !in prev && next[id] == 0 {
        continue;
      }
      records := records + [Record(id, next[id])];
    }
    assert order[..|order|] == order;
  }

  /** And those of the currencies that are gone. */
  method GoneRecords(prev: Quantities, next: Quantities, before: seq<Record>, seen: set<uint32>) returns (records: seq<Record>)
    requires seen == next.Keys && RecordsFor(before, prev, next, seen)
    ensures RecordsFor(records, prev, next, next.Keys + prev.Keys)
  {
    var order := KeysOf(prev);
    records := before;
    for i := 0 to |order|
      invariant RecordsFor(records, prev, next, seen + Ids(order[..i]))
    {
      var id := order[i];
      NextId(order, i);
      assert id in order;
      assert seen + Ids(order[..i + 1]) == seen + Ids(order[..i]) + {id};
      if id in seen {
        assert seen + Ids(order[..i + 1]) == seen + Ids(order[..i]);
        continue;
      }
      OneMoreRecord(records, prev, next, seen + Ids(order[..i]), id);
      records := records + [Record(id, 0)];
    }
    assert order[..|order|] == order;
    assert seen + Ids(order) == next.Keys + prev.Keys;
  }

  method DiffCurrencies(prev: Quantities, next: Quantities) returns (records: seq<Record>)
    ensures records == Difference(prev, next)
  {
    var seen;
    records, seen := ChangedRecords(prev, next);
    records := GoneRecords(prev, next, records, seen);
    records := SortBy(records, TypeOf);
    ChangesDistinct(prev, next);
    SortedOfUnique(records, Changes(prev, next), TypeOf);
  }

  // ---------- what the client holds ----------

  /** The client takes each record as the quantity it now has. */
  function Applied(client: Quantities, records: seq<Record>): Quantities {
    if records == [] then client
    else
      var last := records[|records| - 1];
      Applied(client, records[..|records| - 1])[last.currency := last.quantity]
  }

  /** The same quantities, an absent one being zero. */
  ghost predicate SameQuantities(a: Quantities, b: Quantities) {
    forall id :: Quantity(a, id) == Quantity(b, id)
  }

  lemma AppliedLast(client: Quantities, records: seq<Record>, last: Record, id: uint32)
    ensures Quantity(Applied(client, records + [last]), id)
            == if last.currency == id then last.quantity else Quantity(Applied(client, records), id)
  {
    assert (records + [last])[..|records|] == records;
  }

  /** A currency some record is for has that record's quantity, every other the one it had. */
  lemma {:induction false} AppliedValue(client: Quantities, records: seq<Record>, id: uint32)
    requires DistinctBy(records, TypeOf)
    ensures forall r :: r in records && r.currency == id ==> Quantity(Applied(client, records), id) == r.quantity
    ensures (forall r :: r in records ==> r.currency != id) ==> Quantity(Applied(client, records), id) == Quantity(client, id)
  {
    if records != [] {
      var init, last := records[..|records| - 1], records[|records| - 1];
      AppliedValue(client, init, id);
      assert records == init + [last];
      AppliedLast(client, init, last, id);
      forall r | r in init
        ensures r.currency != last.currency
      {
        var i :| 0 <= i < |init| && init[i] == r;
        assert TypeOf(records[i]) != TypeOf(records[|init|]);
      }
    }
  }

  /** Whatever held the previous quantities holds the next after the difference. */
  lemma DifferenceApplies(client: Quantities, prev: Quantities, next: Quantities)
    requires SameQuantities(client, prev)
    ensures SameQuantities(Applied(client, Difference(prev, next)), next)
  {
    var records := Difference(prev, next);
    forall id
      ensures Quantity(Applied(client, records), id) == Quantity(next, id)
    {
      AppliedValue(client, records, id);
      if Changed(prev, next, id) {
        assert Record(id, Quantity(next, id)) in Changes(prev, next);
      }
    }
  }

  function Latest(snapshots: seq<Quantities>): Quantities {
    if snapshots == [] then map[] else snapshots[|snapshots| - 1]
  }

  /** The client after every snapshot was sent as a difference from the one before. */
  function ClientOver(snapshots: seq<Quantities>): Quantities {
    if snapshots == [] then map[]
    else
      var before := snapshots[..|snapshots| - 1];
      Applied(ClientOver(before), Difference(Latest(before), Latest(snapshots)))
  }

  /** Over any run of snapshots the client holds the latest. */
  lemma {:induction false} ClientHoldsLatest(snapshots: seq<Quantities>)
    ensures SameQuantities(ClientOver(snapshots), Latest(snapshots))
  {
    if snapshots != [] {
      var before := snapshots[..|snapshots| - 1];
      ClientHoldsLatest(before);
      DifferenceApplies(ClientOver(before), Latest(before), Latest(snapshots));
    }
  }

  /** A record the client would not need: it holds that quantity already. */
  predicate Redundant(client: Quantities, r: Record) {
    Quantity(client, r.currency) == r.quantity
  }

  /** Some currency is gone that was known as zero. */
  ghost predicate ZeroGone(prev: Quantities, next: Quantities) {
    exists id :: id in prev && prev[id] == 0 && id !in next
  }

  /** No record is redundant, unless a currency is gone that was known as zero. */
  lemma RedundantIff(client: Quantities, prev: Quantities, next: Quantities)
    requires SameQuantities(client, prev)
    ensures (exists r :: r in Difference(prev, next) && Redundant(client, r)) <==> ZeroGone(prev, next)
  {
    if ZeroGone(prev, next) {
      var id :| id in prev && prev[id] == 0 && id !in next;
      assert Quantity(client, id) == Quantity(prev, id);
      assert Record(id, 0) in Changes(prev, next);
      assert Record(id, 0) in Difference(prev, next) && Redundant(client, Record(id, 0));
    }
    forall r | r in Difference(prev, next) && Redundant(client, r)
      ensures ZeroGone(prev, next)
    {
      assert r in Changes(prev, next);
      assert Quantity(client, r.currency) == Quantity(prev, r.currency);
    }
  }

  /** A record of zero for a currency the client was never told of. */
  ghost predicate Introduces(snapshots: seq<Quantities>, next: Quantities, id: uint32) {
    Record(id, 0) in Difference(Latest(snapshots), next) && id !in ClientOver(snapshots)
  }

  /**
   A currency the client was never told of is introduced as zero iff it was known as zero and is gone:
   the source's comment rules this out, its code does not.
   */
  lemma IntroducedIff(snapshots: seq<Quantities>, next: Quantities, id: uint32)
    ensures Introduces(snapshots, next, id)
            <==> id in Latest(snapshots) && Latest(snapshots)[id] == 0 && id !in next && id !in ClientOver(snapshots)
  {
    ClientHoldsLatest(snapshots);
    assert Quantity(ClientOver(snapshots), id) == Quantity(Latest(snapshots), id);
    if Introduces(snapshots, next, id) {
      assert Record(id, 0) in Changes(Latest(snapshots), next);
    } else if id in Latest(snapshots) && Latest(snapshots)[id] == 0 && id !in next {
      assert Record(id, 0) in Changes(Latest(snapshots), next);
    }
  }

  /** Honor known as zero from the start, then not known: the client, told nothing so far, is told zero. */
  lemma IntroducedExample()
    ensures ClientOver([map[HONOR := 0]]) == map[] && Introduces([map[HONOR := 0]], map[], HONOR)
  {
    var snapshots: seq<Quantities> := [map[HONOR := 0]];
    assert snapshots[..0] == [];
    NothingChanged(map[], map[HONOR := 0]);
    IntroducedIff(snapshots, map[], HONOR);
  }

  lemma NothingChanged(prev: Quantities, next: Quantities)
    requires forall id :: id in prev || id in next ==> !Changed(prev, next, id)
    ensures Difference(prev, next) == []
  {
    HasElement(Difference(prev, next));
    assert Changes(prev, next) == {};
  }
}
