/**
 * The inventory page: lots ranked by expiry (first expired, first out),
 * the expiry status of a lot, the "Sell First" flag and adding a lot
 * (components/InventoryManagement.tsx).
 */
module InventoryManagement {
  import opened Types
  import opened Seqs
  import opened StableSort
  import opened Dates

  /**
   * `sortedInventory`: a stable sort of a copy by expiry date, earliest
   * first; lots with the same expiry keep their input order.
   */
  function SortedInventory(inventory: seq<InventoryItem>): (r: seq<InventoryItem>)
    ensures multiset(r) == multiset(inventory)
    ensures forall i, j :: 0 <= i < j < |r| ==> r[i].expiryDate <= r[j].expiryDate
    ensures forall d :: WithKey(r, ExpiryKey, d) == WithKey(inventory, ExpiryKey, d)
  {
    SortByCorrect(inventory, ExpiryKey);
    SortBy(inventory, ExpiryKey)
  }

  /** `Math.ceil((expiry - now) / 86400000)`: whole days left, rounded up. */
  function DaysLeft(expiry: int, now: int): (d: int)
    ensures (d - 1) * DAY < expiry - now <= d * DAY
  {
    CeilDiv(expiry - now, DAY)
  }

  /** What `getStatus` returns for a lot. */
  datatype StatusInfo = StatusInfo(status: ItemStatus, labelText: string, color: string, daysLeft: int)

  /**
   * `getStatus`: a negative day count is Expired, up to three days is
   * Expiring Soon, more is Fresh. Because the day count is rounded up, a
   * lot becomes Expired only once a full day has passed since its expiry.
   */
  function GetStatus(expiry: int, now: int): (r: StatusInfo)
    ensures r.daysLeft == DaysLeft(expiry, now)
    ensures r.status == Expired <==> expiry - now <= -DAY
    ensures r.status == ExpiringSoon <==> -DAY < expiry - now <= 3 * DAY
    ensures r.status == Fresh <==> 3 * DAY < expiry - now
    ensures r.status == Expired <==> r.labelText == "Expired"
    ensures r.status == ExpiringSoon <==> r.labelText == "Expiring Soon"
    ensures r.status == Fresh <==> r.labelText == "Fresh"
  {
    var d := DaysLeft(expiry, now);
    if d < 0 then StatusInfo(Expired, "Expired", "bg-red-200 text-red-800", d)
    else if d <= 3 then StatusInfo(ExpiringSoon, "Expiring Soon", "bg-yellow-200 text-yellow-800", d)
    else StatusInfo(Fresh, "Fresh", "bg-green-200 text-green-800", d)
  }

  /** The status read off the rounded day count, as the page states it. */
  lemma StatusByDaysLeft(expiry: int, now: int)
    ensures var s := GetStatus(expiry, now);
            && (s.status == Expired <==> s.daysLeft < 0)
            && (s.status == ExpiringSoon <==> 0 <= s.daysLeft <= 3)
            && (s.status == Fresh <==> 3 < s.daysLeft)
  {
  }

  /** The boundaries: three days ahead is still Expiring Soon, four days is Fresh, a lot past its expiry by less than a day is not yet Expired. */
  lemma StatusBoundaries(now: int)
    ensures GetStatus(now + 3 * DAY, now).status == ExpiringSoon
    ensures GetStatus(now + 3 * DAY + 1, now).status == Fresh
    ensures GetStatus(now + 4 * DAY, now).status == Fresh
    ensures GetStatus(now, now).status == ExpiringSoon && GetStatus(now, now).daysLeft == 0
    ensures GetStatus(now - 1, now).status == ExpiringSoon && GetStatus(now - 1, now).daysLeft == 0
    ensures GetStatus(now - DAY + 1, now).status == ExpiringSoon
    ensures GetStatus(now - DAY, now).status == Expired && GetStatus(now - DAY, now).daysLeft == -1
  {
  }

  /** The order Expired < Expiring Soon < Fresh. */
  function Rank(s: ItemStatus): nat
  {
    match s
    case Expired => 0
    case ExpiringSoon => 1
    case Fresh => 2
  }

  /** A later expiry, or an earlier clock, never gives a worse status. */
  lemma StatusMonotone(e1: int, e2: int, now1: int, now2: int)
    requires e1 <= e2 && now2 <= now1
    ensures Rank(GetStatus(e1, now1).status) <= Rank(GetStatus(e2, now2).status)
  {
  }

  /**
   * `isFefo`: the row at `index` of the ranked list gets the Sell First
   * flag. Only the head row can have it, and the head has it exactly when
   * it is not Expired.
   */
  predicate IsFefo(sorted: seq<InventoryItem>, index: nat, now: int): (r: bool)
    requires index < |sorted|
    ensures r ==> index == 0
    ensures index == 0 ==> (r <==> GetStatus(sorted[0].expiryDate, now).status != Expired)
  {
    index == 0 && GetStatus(sorted[index].expiryDate, now).status != Expired
  }

  /**
   * At most one lot is flagged: the first of the ranked list, which expires
   * no later than any lot of the inventory and is not Expired; and it is
   * flagged whenever it is not Expired.
   */
  lemma SellFirstOnlyAtHead(inventory: seq<InventoryItem>, now: int)
    ensures var s := SortedInventory(inventory);
            forall i | 0 <= i < |s| && IsFefo(s, i, now) ::
              && i == 0
              && GetStatus(s[i].expiryDate, now).status != Expired
              && (forall x | x in inventory :: s[i].expiryDate <= x.expiryDate)
    ensures var s := SortedInventory(inventory);
            |s| > 0 && GetStatus(s[0].expiryDate, now).status != Expired ==> IsFefo(s, 0, now)
  {
    var s := SortedInventory(inventory);
    forall x | x in inventory && |s| > 0 ensures s[0].expiryDate <= x.expiryDate {
      assert x in multiset(s);
      var j :| 0 <= j < |s| && s[j] == x;
      if j > 0 {
        assert s[0].expiryDate <= s[j].expiryDate;
      }
    }
  }

  /**
   * When the earliest lot is Expired nothing is flagged, even if later
   * lots are still sellable: the flag never moves down the list.
   */
  lemma ExpiredHeadFlagsNothing(inventory: seq<InventoryItem>, now: int)
    requires var s := SortedInventory(inventory);
             |s| > 0 && GetStatus(s[0].expiryDate, now).status == Expired
    ensures var s := SortedInventory(inventory);
            forall i | 0 <= i < |s| :: !IsFefo(s, i, now)
  {
  }

  /** Four lots expiring in 2, 6, -1 and 4 days: ranked -1, 2, 4, 6, and no lot is flagged. */
  lemma FefoExample(now: int)
    ensures var a := InventoryItem("a", "Tomatoes", "", "L1", 10, Kg, now, now + 2 * DAY);
            var b := InventoryItem("b", "Apples", "", "L2", 10, Kg, now, now + 6 * DAY);
            var c := InventoryItem("c", "Potatoes", "", "L3", 10, Kg, now, now - DAY);
            var d := InventoryItem("d", "Onions", "", "L4", 10, Kg, now, now + 4 * DAY);
            var s := SortedInventory([a, b, c, d]);
            && s == [c, a, d, b]
            && (forall i | 0 <= i < |s| :: !IsFefo(s, i, now))
            && GetStatus(a.expiryDate, now).status == ExpiringSoon
  {
    var a := InventoryItem("a", "Tomatoes", "", "L1", 10, Kg, now, now + 2 * DAY);
    var b := InventoryItem("b", "Apples", "", "L2", 10, Kg, now, now + 6 * DAY);
    var c := InventoryItem("c", "Potatoes", "", "L3", 10, Kg, now, now - DAY);
    var d := InventoryItem("d", "Onions", "", "L4", 10, Kg, now, now + 4 * DAY);
    SortFour(a, b, c, d);
  }

  lemma SortThree(a: InventoryItem, b: InventoryItem, c: InventoryItem)
    requires c.expiryDate < a.expiryDate < b.expiryDate
    ensures SortBy([a, b, c], ExpiryKey) == [c, a, b]
  {
    assert [a, b, c][..2] == [a, b];
    assert [a, b][..1] == [a];
    assert [a][..0] == [];
    assert SortBy([a], ExpiryKey) == Insert(a, [], ExpiryKey) == [a];
    assert Insert(b, [], ExpiryKey) == [b];
    assert Insert(b, [a], ExpiryKey) == [a, b];
    assert SortBy([a, b], ExpiryKey) == [a, b];
    assert Insert(c, [b], ExpiryKey) == [c, b];
  }

  lemma SortFour(a: InventoryItem, b: InventoryItem, c: InventoryItem, d: InventoryItem)
    requires c.expiryDate < a.expiryDate < d.expiryDate < b.expiryDate
    ensures SortBy([a, b, c, d], ExpiryKey) == [c, a, d, b]
  {
    SortThree(a, b, c);
    assert [a, b, c, d][..3] == [a, b, c];
    assert Insert(d, [b], ExpiryKey) == [d, b];
    assert Insert(d, [a, b], ExpiryKey) == [a, d, b];
  }

  /**
   * `handleAddItem`: the new lot goes at the end of the list, with today as
   * its purchase date; nothing else changes.
   */
  function HandleAddItem(inventory: seq<InventoryItem>, id: string, name: string, variant: string,
                         lotNumber: string, quantity: int, unit: Unit, now: int, expiry: int)
    : (r: seq<InventoryItem>)
    ensures |r| == |inventory| + 1 && r[..|inventory|] == inventory
    ensures r[|inventory|] == InventoryItem(id, name, variant, lotNumber, quantity, unit, now, expiry)
  {
    inventory + [InventoryItem(id, name, variant, lotNumber, quantity, unit, now, expiry)]
  }

  /** The ranked view after an addition holds the old lots plus the new one, and nothing else. */
  lemma AddedItemIsRanked(inventory: seq<InventoryItem>, id: string, name: string, variant: string,
                          lotNumber: string, quantity: int, unit: Unit, now: int, expiry: int)
    ensures var item := InventoryItem(id, name, variant, lotNumber, quantity, unit, now, expiry);
            var after := SortedInventory(HandleAddItem(inventory, id, name, variant, lotNumber, quantity, unit, now, expiry));
            && multiset(after) == multiset(SortedInventory(inventory)) + multiset{item}
            && item in after
  {
    var item := InventoryItem(id, name, variant, lotNumber, quantity, unit, now, expiry);
    var after := SortedInventory(HandleAddItem(inventory, id, name, variant, lotNumber, quantity, unit, now, expiry));
    assert multiset(after)[item] > 0;
  }
}
