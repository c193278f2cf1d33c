/** Which items count for which currency, and what is collected from them, field by field. */
module CurrencyItems {
  import opened Wrappers
  import opened Bytes
  import opened Currencies

  /** Emblems, marks and other tokens by item entry, and the currency each stands for. */
  predicate IsToken(entry: uint32, currency: uint32) {
    (entry, currency) in {
      (29434, 42), (41596, 61), (43016, 81), (40752, 101), (40753, 102), (20560, 121), (20559, 122), (29024, 123),
      (42425, 124), (20558, 125), (43589, 126), (43228, 161), (37836, 201), (45624, 221), (44990, 241), (47241, 301),
      (47395, 321), (49426, 341)}
  }

  /** Fields 6 and 7 are the owner's GUID, lower half first; without either, or with zero, an item is anyone's. */
  predicate Belongs(fields: Fields, owner: uint64) {
    || (6 !in fields && 7 !in fields)
    || var low := if 6 in fields then fields[6] else 0;
       var high := if 7 in fields then fields[7] else 0;
       (low == 0 && high == 0) || (low == owner % 0x1_0000_0000 && high == owner / 0x1_0000_0000)
  }

  /** Field 3 is the entry; an owner of zero takes every item. */
  predicate Counts(item: Item, owner: uint64, currency: uint32) {
    && item.Some? && 3 in item.value && IsToken(item.value[3], currency)
    && (owner == 0 || Belongs(item.value, owner))
  }

  /** Field 14 is the count, one when it is missing. */
  function Amount(item: Item, owner: uint64, currency: uint32): uint32 {
    if !Counts(item, owner, currency) then 0
    else if 14 in item.value then item.value[14]
    else 1
  }

  function AmountOfAll(items: seq<Item>, owner: uint64, currency: uint32): nat {
    if items == [] then 0
    else AmountOfAll(items[..|items| - 1], owner, currency) + Amount(items[|items| - 1], owner, currency)
  }

  // ---------- one item ----------

  lemma OneCurrency(entry: uint32, currency: uint32)
    ensures IsToken(entry, currency) <==> entry in CURRENCY_BY_ITEM && CURRENCY_BY_ITEM[entry] == currency
  {
  }

  lemma Halves(low: uint32, high: uint32, owner: uint64)
    ensures low + high * 0x1_0000_0000 == owner <==> low == owner % 0x1_0000_0000 && high == owner / 0x1_0000_0000
    ensures low + high * 0x1_0000_0000 == 0 <==> low == 0 && high == 0
  {
    assert owner == owner / 0x1_0000_0000 * 0x1_0000_0000 + owner % 0x1_0000_0000;
  }

  lemma OwnedIs(fields: Fields, owner: uint64)
    ensures OwnedBy(Some(fields), owner) <==> Belongs(fields, owner)
  {
    Halves(if 6 in fields then fields[6] else 0, if 7 in fields then fields[7] else 0, owner);
  }

  /** The stack of an item, as far as a currency is concerned. */
  lemma CountedIs(item: Item, owner: uint64, currency: uint32)
    ensures CountIn(currency, Counted(item, owner)) == Amount(item, owner, currency)
    ensures Counted(item, owner).Some? && Counted(item, owner).value.id == currency <==> Amount(item, owner, currency) > 0
  {
    OneCurrency(Field(item, OBJECT_ENTRY), currency);
    if item.Some? {
      OwnedIs(item.value, owner);
    }
  }

  // ---------- all of them ----------

  lemma {:induction false} TotalIs(items: seq<Item>, owner: uint64, currency: uint32)
    ensures Total(currency, CountedAll(items, owner)) == AmountOfAll(items, owner, currency)
  {
    if items != [] {
      var n := |items| - 1;
      TotalIs(items[..n], owner, currency);
      assert items[..n + 1] == items;
      CountedNext(items, n, owner);
      OneMore(currency, CountedAll(items[..n], owner), Counted(items[n], owner));
      CountedIs(items[n], owner, currency);
    }
  }

  lemma HasStackIs(items: seq<Item>, owner: uint64, currency: uint32)
    ensures HasStack(currency, CountedAll(items, owner))
            <==> exists i :: 0 <= i < |items| && Amount(items[i], owner, currency) > 0
  {
    var stacks := CountedAll(items, owner);
    forall i | 0 <= i < |items|
      ensures stacks[i].Some? && stacks[i].value.id == currency <==> Amount(items[i], owner, currency) > 0
    {
      CountedIs(items[i], owner, currency);
    }
  }

  /** The currency is there iff some item adds to it, with the sum of all, modulo 2^32. */
  ghost predicate FromItems(q: Quantities, items: seq<Item>, owner: uint64, currency: uint32) {
    && (currency in q <==> exists i :: 0 <= i < |items| && Amount(items[i], owner, currency) > 0)
    && (currency in q ==> q[currency] == AmountOfAll(items, owner, currency) % 0x1_0000_0000)
  }

  /** Honor (1901) is player field 1277 and arena points (1900) are 1278 where present; all else comes from the items. */
  lemma CollectedMeaning(q: Quantities, items: seq<Item>, owner: uint64, player: Fields, currency: uint32)
    requires Collected(q, CountedAll(items, owner), player)
    ensures if currency == 1901 && 1277 in player then currency in q && q[currency] == player[1277]
            else if currency == 1900 && 1278 in player then currency in q && q[currency] == player[1278]
            else FromItems(q, items, owner, currency)
  {
    TotalIs(items, owner, currency);
    HasStackIs(items, owner, currency);
  }
}
