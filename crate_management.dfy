/**
 * The returnable-crate ledger: the per-customer summary, the running balance
 * written onto each entry in date order, the view filter and the edits
 * (components/CrateManagement.tsx).
 */
module CrateManagement {
  import opened Types
  import opened Seqs
  import opened StableSort

  /** The tabs of the ledger view. */
  datatype CrateView = All | IssuedOnly | ReturnedOnly

  /** Which button opened the entry form. */
  datatype CrateModal = Issue | Return

  /** One row of the per-customer summary. */
  datatype CrateSummary = CrateSummary(customer: Customer, balance: int)

  /** What entry `e` adds to the crates customer `id` owes. */
  function NetShare(id: string): CrateLedgerEntry -> int
  {
    (e: CrateLedgerEntry) => if e.customerId == id then e.cratesIssued - e.cratesReturned else 0
  }

  /** Crates issued to minus crates returned by customer `id` over `entries`. */
  function Net(entries: seq<CrateLedgerEntry>, id: string): int
  {
    SumBy(entries, NetShare(id))
  }

  function ForCustomer(id: string): CrateLedgerEntry -> bool
  {
    (e: CrateLedgerEntry) => e.customerId == id
  }

  function Issued(e: CrateLedgerEntry): int { e.cratesIssued }
  function Returned(e: CrateLedgerEntry): int { e.cratesReturned }

  /** `customerCrateSummary`: per customer, total issued minus total returned over its entries. */
  function CustomerCrateSummary(customers: seq<Customer>, ledger: seq<CrateLedgerEntry>): (r: seq<CrateSummary>)
    ensures |r| == |customers|
    ensures forall i :: 0 <= i < |r| ==> r[i].customer == customers[i]
  {
    seq(|customers|, i requires 0 <= i < |customers| =>
      var entries := Filter(ledger, ForCustomer(customers[i].id));
      CrateSummary(customers[i], SumBy(entries, Issued) - SumBy(entries, Returned)))
  }

  lemma {:induction false} IssuedMinusReturned(ledger: seq<CrateLedgerEntry>, id: string)
    ensures var entries := Filter(ledger, ForCustomer(id));
            SumBy(entries, Issued) - SumBy(entries, Returned) == Net(ledger, id)
  {
    if ledger != [] {
      var init, last := ledger[..|ledger| - 1], ledger[|ledger| - 1];
      IssuedMinusReturned(init, id);
      var kept := if last.customerId == id then [last] else [];
      SumByAppend(Filter(init, ForCustomer(id)), kept, Issued);
      SumByAppend(Filter(init, ForCustomer(id)), kept, Returned);
    }
  }

  /** Each summary row holds its customer's net crate debt over the whole ledger; no entries means 0. */
  lemma SummaryIsNet(customers: seq<Customer>, ledger: seq<CrateLedgerEntry>, i: nat)
    requires i < |customers|
    ensures CustomerCrateSummary(customers, ledger)[i].balance == Net(ledger, customers[i].id)
    ensures (forall j :: 0 <= j < |ledger| ==> ledger[j].customerId != customers[i].id)
            ==> CustomerCrateSummary(customers, ledger)[i].balance == 0
  {
    IssuedMinusReturned(ledger, customers[i].id);
    if forall j :: 0 <= j < |ledger| ==> ledger[j].customerId != customers[i].id {
      SumByZero(ledger, NetShare(customers[i].id));
    }
  }

  /** A customer's net debt does not depend on the order of the ledger. */
  lemma NetPermutation(a: seq<CrateLedgerEntry>, b: seq<CrateLedgerEntry>, id: string)
    requires multiset(a) == multiset(b)
    ensures Net(a, id) == Net(b, id)
  {
    SumByPermutation(a, b, NetShare(id));
  }

  /**
   * The declarative meaning of the running balance: entry `i` of the
   * chronological ledger `s` carries the net debt of its customer over
   * the entries up to and including position `i`.
   */
  function Annotated(s: seq<CrateLedgerEntry>): (r: seq<CrateLedgerEntry>)
    ensures |r| == |s|
    ensures forall i :: 0 <= i < |s| ==> r[i].(balance := s[i].balance) == s[i]
  {
    seq(|s|, i requires 0 <= i < |s| => s[i].(balance := Net(s[..i + 1], s[i].customerId)))
  }

  /** The tab filter. */
  function InView(view: CrateView): CrateLedgerEntry -> bool
  {
    (e: CrateLedgerEntry) => match view
         case IssuedOnly => e.cratesIssued > 0
         case ReturnedOnly => e.cratesReturned > 0
         case All => true
  }

  /** The accumulator map holds each customer's net debt over the first `i` entries; a missing key means 0. */
  ghost predicate Tracks(s: seq<CrateLedgerEntry>, i: nat, balances: map<string, int>)
    requires i <= |s|
  {
    forall k :: Net(s[..i], k) == if k in balances then balances[k] else 0
  }

  /** One accumulator step: the entry's running balance, and the map for one more entry. */
  lemma TracksStep(s: seq<CrateLedgerEntry>, i: nat, balances: map<string, int>)
    requires i < |s| && Tracks(s, i, balances)
    ensures var e := s[i];
            var current := (if e.customerId in balances then balances[e.customerId] else 0) + e.cratesIssued - e.cratesReturned;
            && current == Net(s[..i + 1], e.customerId)
            && Tracks(s, i + 1, balances[e.customerId := current])
  {
    assert s[..i + 1][..i] == s[..i];
    forall k ensures Net(s[..i + 1], k) == Net(s[..i], k) + NetShare(k)(s[i]) {
      assert s[..i + 1][..i] == s[..i];
    }
  }

  /** The annotated prefix grows by the next entry carrying its running balance. */
  lemma AnnotatedPrefix(s: seq<CrateLedgerEntry>, i: nat)
    requires i < |s|
    ensures Annotated(s)[..i + 1] == Annotated(s)[..i] + [s[i].(balance := Net(s[..i + 1], s[i].customerId))]
  {
  }

  /**
   * The accumulator loop of `processedLedger`: a map from customer to the
   * balance so far, written onto each entry of the date-ordered ledger.
   */
  method RunningBalances(base: seq<CrateLedgerEntry>) returns (withBalance: seq<CrateLedgerEntry>)
    ensures withBalance == Annotated(base)
  {
    var balances: map<string, int> := map[];
    withBalance := [];
    for i := 0 to |base|
      invariant withBalance == Annotated(base)[..i]
      invariant Tracks(base, i, balances)
    {
      var entry := base[i];
      var lastBalance := if entry.customerId in balances then balances[entry.customerId] else 0;
      var currentBalance := lastBalance + entry.cratesIssued - entry.cratesReturned;
      TracksStep(base, i, balances);
      AnnotatedPrefix(base, i);
      balances := balances[entry.customerId := currentBalance];
      withBalance := withBalance + [entry.(balance := currentBalance)];
    }
    assert Annotated(base)[..|base|] == Annotated(base);
  }

  /**
   * `processedLedger`: a stable ascending date sort, the running balances,
   * then the tab filter and a stable descending date sort.
   */
  method ProcessedLedger(ledger: seq<CrateLedgerEntry>, view: CrateView) returns (r: seq<CrateLedgerEntry>)
    ensures r == SortBy(Filter(Annotated(SortBy(ledger, EntryDate)), InView(view)), NegEntryDate)
  {
    var base := SortBy(ledger, EntryDate);
    var withBalance := RunningBalances(base);
    var filtered := Filter(withBalance, InView(view));
    r := SortBy(filtered, NegEntryDate);
  }

  /**
   * Before filtering, the ledger is put in date order: a permutation of the
   * input, ascending by date, entries with equal dates in input order; the
   * annotation changes nothing but the balance.
   */
  lemma Chronology(ledger: seq<CrateLedgerEntry>)
    ensures var s := SortBy(ledger, EntryDate);
            && multiset(s) == multiset(ledger)
            && (forall i, j :: 0 <= i < j < |s| ==> s[i].date <= s[j].date)
            && (forall d :: WithKey(s, EntryDate, d) == WithKey(ledger, EntryDate, d))
            && |Annotated(s)| == |s|
            && (forall i :: 0 <= i < |s| ==> Annotated(s)[i].(balance := s[i].balance) == s[i])
  {
    SortByCorrect(ledger, EntryDate);
  }

  /** What the entries after position `i` add for `id`, when none of them is `id`'s. */
  lemma NetTailZero(s: seq<CrateLedgerEntry>, i: nat, id: string)
    requires i < |s|
    requires forall j :: i < j < |s| ==> s[j].customerId != id
    ensures Net(s[..i + 1], id) == Net(s, id)
  {
    assert s == s[..i + 1] + s[i + 1..];
    SumByAppend(s[..i + 1], s[i + 1..], NetShare(id));
    SumByZero(s[i + 1..], NetShare(id));
  }

  /**
   * The last chronological entry of a customer carries that customer's
   * summary balance, total issued minus total returned.
   */
  lemma LastEntryCarriesSummary(customers: seq<Customer>, ledger: seq<CrateLedgerEntry>, c: nat, i: nat)
    requires c < |customers|
    requires var s := SortBy(ledger, EntryDate);
             i < |s| && s[i].customerId == customers[c].id
             && forall j :: i < j < |s| ==> s[j].customerId != customers[c].id
    ensures Annotated(SortBy(ledger, EntryDate))[i].balance == CustomerCrateSummary(customers, ledger)[c].balance
  {
    var s := SortBy(ledger, EntryDate);
    NetTailZero(s, i, customers[c].id);
    SortByPermutation(ledger, EntryDate);
    NetPermutation(s, ledger, customers[c].id);
    SummaryIsNet(customers, ledger, c);
  }

  /**
   * The tab filter drops entries but never changes a balance: 'issued'
   * keeps exactly the entries with crates issued, 'returned' those with
   * crates returned, 'all' everything.
   */
  lemma ViewFilter(annotated: seq<CrateLedgerEntry>, view: CrateView)
    ensures var f := Filter(annotated, InView(view));
            && (forall e :: e in f ==> e in annotated)
            && (view == IssuedOnly ==> forall e :: multiset(f)[e] == if e.cratesIssued > 0 then multiset(annotated)[e] else 0)
            && (view == ReturnedOnly ==> forall e :: multiset(f)[e] == if e.cratesReturned > 0 then multiset(annotated)[e] else 0)
            && (view == All ==> f == annotated)
  {
    FilterSound(annotated, InView(view));
    FilterCounts(annotated, InView(view));
    if view == All {
      FilterAll(annotated, InView(view));
    }
  }

  /** The displayed list is newest first, and holds exactly the filtered entries. */
  lemma DisplayOrder(filtered: seq<CrateLedgerEntry>)
    ensures var r := SortBy(filtered, NegEntryDate);
            && multiset(r) == multiset(filtered)
            && (forall i, j :: 0 <= i < j < |r| ==> r[i].date >= r[j].date)
  {
    SortByCorrect(filtered, NegEntryDate);
    var r := SortBy(filtered, NegEntryDate);
    forall i, j | 0 <= i < j < |r| ensures r[i].date >= r[j].date {
      assert NegEntryDate(r[i]) <= NegEntryDate(r[j]);
    }
  }

  function IdIsNot(id: string): CrateLedgerEntry -> bool
  {
    (e: CrateLedgerEntry) => e.id != id
  }

  /** `handleDelete`: after confirmation, every entry with that id goes and the others stay, in their order. */
  function HandleDelete(ledger: seq<CrateLedgerEntry>, entryId: string, confirmed: bool): (r: seq<CrateLedgerEntry>)
    ensures !confirmed ==> r == ledger
    ensures confirmed ==> forall e :: multiset(r)[e] == if e.id == entryId then 0 else multiset(ledger)[e]
    ensures confirmed ==> r == Filter(ledger, IdIsNot(entryId))
  {
    if confirmed then
      FilterCounts(ledger, IdIsNot(entryId));
      Filter(ledger, IdIsNot(entryId))
    else ledger
  }

  /** Deleting from a ledger split in two deletes from each part and keeps the parts in order. */
  lemma DeleteKeepsOrder(a: seq<CrateLedgerEntry>, b: seq<CrateLedgerEntry>, entryId: string)
    ensures HandleDelete(a + b, entryId, true) == HandleDelete(a, entryId, true) + HandleDelete(b, entryId, true)
  {
    FilterAppend(a, b, IdIsNot(entryId));
  }

  /** The entry the form describes, on top of `base` (the edited entry, or a new one). */
  function FromForm(base: CrateLedgerEntry, modal: CrateModal, customerId: string, quantity: int, date: int): CrateLedgerEntry
  {
    base.(customerId := customerId, date := date,
          cratesIssued := if modal == Issue then quantity else 0,
          cratesReturned := if modal == Return then quantity else 0)
  }

  /**
   * `handleSubmit`. A missing customer or a missing or non-positive quantity
   * is refused. An edit replaces every entry with the edited id, keeping
   * the stored balance of the record being edited; a new entry
   * (id passed in) is appended with balance 0.
   */
  function HandleSubmit(ledger: seq<CrateLedgerEntry>, editing: Option<CrateLedgerEntry>, modal: CrateModal,
                        customerId: string, quantity: Option<int>, date: int, newId: string): (r: Result<seq<CrateLedgerEntry>>)
    ensures r.Err? <==> customerId == "" || quantity.None? || quantity.value <= 0
    ensures r.Ok? && editing.None? ==>
      && |r.value| == |ledger| + 1
      && r.value[..|ledger|] == ledger
      && var e := r.value[|ledger|];
         e.id == newId && e.customerId == customerId && e.date == date && e.balance == 0
         && e.cratesIssued + e.cratesReturned == quantity.value
         && (e.cratesIssued == 0 || e.cratesReturned == 0)
         && (e.cratesIssued > 0 <==> modal == Issue)
    ensures r.Ok? && editing.Some? ==>
      && |r.value| == |ledger|
      && forall i :: 0 <= i < |ledger| ==>
           if ledger[i].id == editing.value.id then
             var e := r.value[i];
             e.id == editing.value.id && e.customerId == customerId && e.date == date
             && e.balance == editing.value.balance
             && e.cratesIssued + e.cratesReturned == quantity.value
             && (e.cratesIssued == 0 || e.cratesReturned == 0)
             && (e.cratesIssued > 0 <==> modal == Issue)
           else r.value[i] == ledger[i]
  {
    if customerId == "" || quantity.None? || quantity.value <= 0 then
      Err("Please select a customer and enter a valid quantity.")
    else
      var q := quantity.value;
      match editing
      case Some(entry) =>
        var updated := FromForm(entry, modal, customerId, q, date);
        Ok(seq(|ledger|, i requires 0 <= i < |ledger| => if ledger[i].id == updated.id then updated else ledger[i]))
      case None =>
        Ok(ledger + [FromForm(CrateLedgerEntry(newId, customerId, date, 0, 0, 0), modal, customerId, q, date)])
  }
}
