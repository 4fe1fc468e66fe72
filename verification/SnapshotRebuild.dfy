/** Rebuild of the daily snapshots from the stock ledger, and the checker that compares the two.

    The rebuild is one INSERT ... SELECT: group the ledger by five columns, attach a unit cost to every group through
    a LEFT JOIN on the item columns only, keep the positive groups, and swap the result in. Result tables are
    sequences; every claim is about their contents as bags. */
module SnapshotRebuild {
  import opened Common
  import opened StockLedger

  /** The GROUP BY columns of `ledger_totals`. */
  datatype GroupKey = GroupKey(
    temple: Id, domain: Domain, storeProduct: Option<Id>, kalavaraItem: Option<Id>, location: Option<Id>)

  datatype Group = Group(key: GroupKey, total: real)

  /** The join columns of `cost_mappings`. SQL's null-safe comparison is equality of options. */
  datatype Item = Item(storeProduct: Option<Id>, kalavaraItem: Option<Id>)

  datatype CostRow = CostRow(item: Item, storeCost: real, kalavaraCost: real)

  /** The lookups behind the two COALESCE expressions: the latest recorded cost of a product or an item, if there is
      one, and the list price of a product that exists. */
  datatype Costs = Costs(storeHistory: map<Id, real>, unitPrice: map<Id, real>, kalavaraHistory: map<Id, real>)

  const DEFAULT_COST: real := 10.0

  /** A snapshot row, without its random id. */
  datatype Snapshot = Snapshot(key: GroupKey, quantity: real, unitCost: Option<real>, value: real, date: int)

  function KeyOf(e: Entry): GroupKey {
    GroupKey(e.temple, e.domain, e.storeProduct, e.kalavaraItem, e.location)
  }

  function ItemOf(k: GroupKey): Item { Item(k.storeProduct, k.kalavaraItem) }

  // ----- GROUP BY -----

  function Find(groups: seq<Group>, k: GroupKey): (j: nat)
    ensures j <= |groups|
    ensures forall i :: 0 <= i < j ==> groups[i].key != k
    ensures j < |groups| ==> groups[j].key == k
  {
    if groups == [] then 0
    else if groups[0].key == k then 0
    else 1 + Find(groups[1..], k)
  }

  function AddTo(groups: seq<Group>, e: Entry): seq<Group> {
    var j := Find(groups, KeyOf(e));
    if j < |groups| then groups[j := groups[j].(total := groups[j].total + e.change)]
    else groups + [Group(KeyOf(e), e.change)]
  }

  /** `ledger_totals`. */
  function Groups(ledger: seq<Entry>): seq<Group> {
    if ledger == [] then []
    else AddTo(Groups(ledger[..|ledger| - 1]), ledger[|ledger| - 1])
  }

  ghost predicate DistinctKeys(groups: seq<Group>) {
    forall i, j :: 0 <= i < j < |groups| ==> groups[i].key != groups[j].key
  }

  function GroupTotal(groups: seq<Group>, on: GroupKey -> bool): real {
    Total(groups, (g: Group) => if on(g.key) then g.total else 0.0)
  }

  function Replay(ledger: seq<Entry>, on: GroupKey -> bool): real {
    Total(ledger, (e: Entry) => if on(KeyOf(e)) then e.change else 0.0)
  }

  function GroupCount(groups: seq<Group>, on: GroupKey -> bool): int {
    Tally(groups, (g: Group) => if on(g.key) then 1 else 0)
  }

  /** Grouping loses nothing: any selection of keys sums to the same over the groups as over the ledger. */
  lemma {:induction false} GroupsReplay(ledger: seq<Entry>, on: GroupKey -> bool)
    ensures GroupTotal(Groups(ledger), on) == Replay(ledger, on)
  {
    if ledger != [] {
      var n := |ledger| - 1;
      var e, groups := ledger[n], Groups(ledger[..n]);
      GroupsReplay(ledger[..n], on);
      var j := Find(groups, KeyOf(e));
      var w := (g: Group) => if on(g.key) then g.total else 0.0;
      if j < |groups| {
        TotalUpdate(groups, j, groups[j].(total := groups[j].total + e.change), w);
      } else {
        TotalAppend(groups, Group(KeyOf(e), e.change), w);
      }
    }
  }

  /** The groups' keys are distinct, and are exactly the keys of the ledger. */
  lemma {:induction false} GroupsCover(ledger: seq<Entry>, k: GroupKey)
    ensures DistinctKeys(Groups(ledger))
    ensures (exists g :: g in Groups(ledger) && g.key == k) <==> (exists e :: e in ledger && KeyOf(e) == k)
  {
    if ledger != [] {
      var n := |ledger| - 1;
      GroupsCover(ledger[..n], k);
      GroupKeys(Groups(ledger[..n]), ledger[n], k);
      assert ledger == ledger[..n] + [ledger[n]];
    }
  }

  lemma GroupKeys(groups: seq<Group>, e: Entry, k: GroupKey)
    requires DistinctKeys(groups)
    ensures DistinctKeys(AddTo(groups, e))
    ensures (exists g :: g in AddTo(groups, e) && g.key == k)
        <==> (KeyOf(e) == k || exists g :: g in groups && g.key == k)
  {
    var j := Find(groups, KeyOf(e));
    var w := AddTo(groups, e);
    assert w[j].key == KeyOf(e) && w[j] in w;
    if g :| g in groups && g.key == k {
      var i :| 0 <= i < |groups| && groups[i] == g;
      assert w[i].key == k && w[i] in w;
    }
    if g :| g in w && g.key == k {
      var i :| 0 <= i < |w| && w[i] == g;
      assert i < |groups| ==> groups[i].key == k && groups[i] in groups;
    }
  }

  // ----- the cost join -----

  function StoreCost(costs: Costs, product: Option<Id>): real {
    if product.Some? && product.value in costs.storeHistory then costs.storeHistory[product.value]
    else if product.Some? && product.value in costs.unitPrice then costs.unitPrice[product.value]
    else DEFAULT_COST
  }

  function KalavaraCost(costs: Costs, item: Option<Id>): real {
    if item.Some? && item.value in costs.kalavaraHistory then costs.kalavaraHistory[item.value] else DEFAULT_COST
  }

  /** `cost_mappings`: one row per group, keyed by the item columns only. */
  function CostRows(groups: seq<Group>, costs: Costs): (rows: seq<CostRow>)
    ensures |rows| == |groups|
  {
    seq(|groups|, i requires 0 <= i < |groups| =>
      var item := ItemOf(groups[i].key);
      CostRow(item, StoreCost(costs, item.storeProduct), KalavaraCost(costs, item.kalavaraItem)))
  }

  function Joined(g: Group, c: CostRow, today: int): Snapshot {
    var cost := if g.key.domain == STORE then c.storeCost else c.kalavaraCost;
    Snapshot(g.key, g.total, Some(cost), g.total * cost, today)
  }

  function Matches(g: Group, rows: seq<CostRow>, today: int): seq<Snapshot> {
    if rows == [] then []
    else
      var front := Matches(g, rows[..|rows| - 1], today);
      var c := rows[|rows| - 1];
      if c.item == ItemOf(g.key) then front + [Joined(g, c, today)] else front
  }

  /** LEFT JOIN: a group without a matching cost row would still appear once, with a NULL cost. */
  function LeftJoin(g: Group, rows: seq<CostRow>, today: int): seq<Snapshot> {
    var matches := Matches(g, rows, today);
    if matches == [] then [Snapshot(g.key, g.total, None, 0.0, today)] else matches
  }

  function JoinAll(groups: seq<Group>, rows: seq<CostRow>, today: int): seq<Snapshot> {
    if groups == [] then []
    else
      var g := groups[|groups| - 1];
      JoinAll(groups[..|groups| - 1], rows, today) + if g.total > 0.0 then LeftJoin(g, rows, today) else []
  }

  /** The whole SELECT. */
  function Rebuilt(ledger: seq<Entry>, costs: Costs, today: int): seq<Snapshot> {
    JoinAll(Groups(ledger), CostRows(Groups(ledger), costs), today)
  }

  // ----- what the join produces -----

  function OfItem(item: Item): GroupKey -> bool { (k: GroupKey) => ItemOf(k) == item }

  lemma OfItemMeans(item: Item, k: GroupKey)
    ensures OfItem(item)(k) <==> ItemOf(k) == item
  {
  }

  function UnitCost(k: GroupKey, costs: Costs): real {
    if k.domain == STORE then StoreCost(costs, k.storeProduct) else KalavaraCost(costs, k.kalavaraItem)
  }

  /** The row a group is meant to have. */
  function RowFor(g: Group, costs: Costs, today: int): Snapshot {
    Snapshot(g.key, g.total, Some(UnitCost(g.key, costs)), g.total * UnitCost(g.key, costs), today)
  }

  /** How many groups share the item of a key. */
  function Sharing(groups: seq<Group>, k: GroupKey): (n: nat) {
    GroupCountNonNegative(groups, OfItem(ItemOf(k)));
    GroupCount(groups, OfItem(ItemOf(k)))
  }

  lemma GroupCountNonNegative(groups: seq<Group>, on: GroupKey -> bool)
    ensures GroupCount(groups, on) >= 0
    ensures GroupCount(groups, on) == 0 <==> forall g :: g in groups ==> !on(g.key)
  {
    TallyNonNegative(groups, (g: Group) => if on(g.key) then 1 else 0);
  }

  /** A group meets one cost row for every group of its item, and all of them say the same. */
  lemma {:induction false} MatchesAreCopies(g: Group, groups: seq<Group>, costs: Costs, today: int)
    ensures Matches(g, CostRows(groups, costs), today) == Copies(RowFor(g, costs, today), Sharing(groups, g.key))
  {
    if groups != [] {
      var n := |groups| - 1;
      MatchesAreCopies(g, groups[..n], costs, today);
      assert CostRows(groups, costs)[..n] == CostRows(groups[..n], costs);
      var m := Sharing(groups[..n], g.key);
      var c := CostRows(groups, costs)[n];
      assert c.item == ItemOf(groups[n].key);
      if c.item == ItemOf(g.key) {
        assert Joined(g, c, today) == RowFor(g, costs, today);
        assert Sharing(groups, g.key) == m + 1;
      } else {
        assert Sharing(groups, g.key) == m;
      }
      assert Copies(RowFor(g, costs, today), m + 1) == Copies(RowFor(g, costs, today), m) + [RowFor(g, costs, today)];
      assert OfItem(ItemOf(g.key))(groups[n].key) <==> ItemOf(groups[n].key) == ItemOf(g.key);
    }
  }

  lemma LeftJoinIsCopies(g: Group, groups: seq<Group>, costs: Costs, today: int)
    requires g in groups
    ensures LeftJoin(g, CostRows(groups, costs), today) == Copies(RowFor(g, costs, today), Sharing(groups, g.key))
    ensures Sharing(groups, g.key) >= 1
  {
    MatchesAreCopies(g, groups, costs, today);
    GroupCountNonNegative(groups, OfItem(ItemOf(g.key)));
  }

  /** Theorem: the exact contents of the rebuilt table: every positive group appears once per ledger group of its item,
      and nothing else appears. */
  lemma RebuiltContents(ledger: seq<Entry>, costs: Costs, today: int, row: Snapshot)
    ensures var groups := Groups(ledger);
      && (forall g :: g in groups && g.total > 0.0 && row == RowFor(g, costs, today)
                      ==> multiset(Rebuilt(ledger, costs, today))[row] == Sharing(groups, g.key) >= 1)
      && ((forall g :: g in groups && g.total > 0.0 ==> row != RowFor(g, costs, today))
          ==> row !in Rebuilt(ledger, costs, today))
  {
    GroupsCover(ledger, row.key);
    var groups := Groups(ledger);
    JoinContents(groups, groups, costs, today, row);
    forall g | g in groups && g.total > 0.0 && row == RowFor(g, costs, today)
      ensures multiset(Rebuilt(ledger, costs, today))[row] == Sharing(groups, g.key) >= 1
    {
      LeftJoinIsCopies(g, groups, costs, today);
    }
  }

  lemma {:induction false} JoinContents(part: seq<Group>, groups: seq<Group>, costs: Costs, today: int, row: Snapshot)
    requires DistinctKeys(part) && forall g :: g in part ==> g in groups
    ensures var rows := JoinAll(part, CostRows(groups, costs), today);
      && (forall g :: g in part && g.total > 0.0 && row == RowFor(g, costs, today)
                      ==> multiset(rows)[row] == Sharing(groups, g.key))
      && ((forall g :: g in part && g.total > 0.0 ==> row != RowFor(g, costs, today)) ==> row !in multiset(rows))
  {
    if part != [] {
      var n := |part| - 1;
      var front, last := part[..n], part[n];
      assert part == front + [last];
      JoinContents(front, groups, costs, today, row);
      LeftJoinIsCopies(last, groups, costs, today);
      CopiesMultiplicity(RowFor(last, costs, today), Sharing(groups, last.key), row);
      assert last !in front;
      assert forall g :: g in front ==> g.key != last.key;
    }
  }

  /** A group's own contribution to a measure of the rebuilt rows. */
  function GroupWeight(weight: Snapshot -> real, costs: Costs, today: int): Group -> real {
    (g: Group) => if g.total > 0.0 then weight(RowFor(g, costs, today)) else 0.0
  }

  /** What any measure of one item's rows adds up to. */
  lemma {:induction false} JoinTotal(part: seq<Group>, groups: seq<Group>, costs: Costs, today: int,
                                     weight: Snapshot -> real, item: Item)
    requires forall g :: g in part ==> g in groups
    requires forall s: Snapshot :: ItemOf(s.key) != item ==> weight(s) == 0.0
    ensures Total(JoinAll(part, CostRows(groups, costs), today), weight)
         == GroupCount(groups, OfItem(item)) as real * Total(part, GroupWeight(weight, costs, today))
  {
    hide CostRows, GroupCount, GroupWeight, Total;
    if part == [] {
      TotalZero<Snapshot>([], weight);
      TotalZero<Group>([], GroupWeight(weight, costs, today));
    } else {
      var n := |part| - 1;
      var front, last := part[..n], part[n];
      assert part == front + [last];
      TotalAppend(front, last, GroupWeight(weight, costs, today));
      JoinTotal(front, groups, costs, today, weight, item);
      JoinOne(front, last, groups, costs, today, weight, item);
      Distribute(GroupCount(groups, OfItem(item)) as real, Total(front, GroupWeight(weight, costs, today)),
                 GroupWeight(weight, costs, today)(last));
    }
  }

  lemma JoinOne(front: seq<Group>, last: Group, groups: seq<Group>, costs: Costs, today: int,
                weight: Snapshot -> real, item: Item)
    requires last in groups
    requires forall s: Snapshot :: ItemOf(s.key) != item ==> weight(s) == 0.0
    ensures var rows := CostRows(groups, costs);
      Total(JoinAll(front, rows, today) + (if last.total > 0.0 then LeftJoin(last, rows, today) else []), weight)
      == Total(JoinAll(front, rows, today), weight)
         + GroupCount(groups, OfItem(item)) as real * GroupWeight(weight, costs, today)(last)
  {
    hide JoinAll, LeftJoin, CostRows, GroupCount;
    var rows := CostRows(groups, costs);
    if last.total > 0.0 {
      LeftJoinIsCopies(last, groups, costs, today);
      TotalCopies(RowFor(last, costs, today), Sharing(groups, last.key), weight);
      TotalConcat(JoinAll(front, rows, today), LeftJoin(last, rows, today), weight);
    } else {
      assert JoinAll(front, rows, today) + [] == JoinAll(front, rows, today);
    }
  }

  lemma Distribute(k: real, a: real, b: real)
    ensures k * (a + b) == k * a + k * b
  {
  }

  function SnapshotTotal(rows: seq<Snapshot>, item: Item): real {
    Total(rows, (s: Snapshot) => if ItemOf(s.key) == item then s.quantity else 0.0)
  }

  function SnapshotValue(rows: seq<Snapshot>, item: Item): real {
    Total(rows, (s: Snapshot) => if ItemOf(s.key) == item then s.value else 0.0)
  }

  function Positive(groups: seq<Group>, item: Item): real {
    Total(groups, (g: Group) => if ItemOf(g.key) == item && g.total > 0.0 then g.total else 0.0)
  }

  function Negative(groups: seq<Group>, item: Item): real {
    Total(groups, (g: Group) => if ItemOf(g.key) == item && g.total < 0.0 then g.total else 0.0)
  }

  function PositiveValue(groups: seq<Group>, costs: Costs, item: Item): real {
    Total(groups, (g: Group) =>
      if ItemOf(g.key) == item && g.total > 0.0 then g.total * UnitCost(g.key, costs) else 0.0)
  }

  lemma MeasuresAppend(groups: seq<Group>, g: Group, item: Item)
    ensures GroupCount(groups + [g], OfItem(item))
         == GroupCount(groups, OfItem(item)) + if ItemOf(g.key) == item then 1 else 0
    ensures Positive(groups + [g], item)
         == Positive(groups, item) + if ItemOf(g.key) == item && g.total > 0.0 then g.total else 0.0
  {
    OfItemMeans(item, g.key);
    assert (groups + [g])[..|groups|] == groups;
  }

  lemma SameTotal<T>(rows: seq<T>, a: T -> real, b: T -> real)
    requires forall i :: 0 <= i < |rows| ==> a(rows[i]) == b(rows[i])
    ensures Total(rows, a) == Total(rows, b)
  {
    TotalCompare(rows, a, b);
  }

  /** Theorem: an item spread over k ledger groups is counted k times over, in quantity and in value. */
  lemma JoinInflates(ledger: seq<Entry>, costs: Costs, today: int, item: Item)
    ensures var groups := Groups(ledger); var k := GroupCount(groups, OfItem(item)) as real;
      && SnapshotTotal(Rebuilt(ledger, costs, today), item) == k * Positive(groups, item)
      && SnapshotValue(Rebuilt(ledger, costs, today), item) == k * PositiveValue(groups, costs, item)
  {
    hide Groups, GroupCount, JoinAll, Total;
    var groups := Groups(ledger);
    var quantity := (s: Snapshot) => if ItemOf(s.key) == item then s.quantity else 0.0;
    var value := (s: Snapshot) => if ItemOf(s.key) == item then s.value else 0.0;
    JoinTotal(groups, groups, costs, today, quantity, item);
    JoinTotal(groups, groups, costs, today, value, item);
    var q := (g: Group) => if ItemOf(g.key) == item && g.total > 0.0 then g.total else 0.0;
    var v := (g: Group) => if ItemOf(g.key) == item && g.total > 0.0 then g.total * UnitCost(g.key, costs) else 0.0;
    forall i | 0 <= i < |groups|
      ensures GroupWeight(quantity, costs, today)(groups[i]) == q(groups[i])
      ensures GroupWeight(value, costs, today)(groups[i]) == v(groups[i])
    {
      var row := RowFor(groups[i], costs, today);
      assert quantity(row) == if ItemOf(groups[i].key) == item then groups[i].total else 0.0;
    }
    SameTotal(groups, GroupWeight(quantity, costs, today), q);
    SameTotal(groups, GroupWeight(value, costs, today), v);
  }

  lemma SignsSplit(groups: seq<Group>, item: Item)
    ensures GroupTotal(groups, OfItem(item)) == Positive(groups, item) + Negative(groups, item)
    ensures Positive(groups, item) >= 0.0 >= Negative(groups, item)
    ensures Positive(groups, item) == 0.0 <==> forall g :: g in groups && ItemOf(g.key) == item ==> g.total <= 0.0
    ensures Negative(groups, item) == 0.0 <==> forall g :: g in groups && ItemOf(g.key) == item ==> g.total >= 0.0
  {
    var whole := (g: Group) => if OfItem(item)(g.key) then g.total else 0.0;
    var positive := (g: Group) => if ItemOf(g.key) == item && g.total > 0.0 then g.total else 0.0;
    var negative := (g: Group) => if ItemOf(g.key) == item && g.total < 0.0 then g.total else 0.0;
    forall i | 0 <= i < |groups| ensures whole(groups[i]) == positive(groups[i]) + negative(groups[i]) {
      assert OfItem(item)(groups[i].key) <==> ItemOf(groups[i].key) == item;
    }
    TotalSplit(groups, whole, positive, negative);
    TotalZero<Group>(groups, g => 0.0);
    TotalCompare(groups, g => 0.0, positive);
    TotalCompare(groups, negative, g => 0.0);
    assert (forall g :: g in groups && ItemOf(g.key) == item ==> g.total <= 0.0)
      <==> forall i :: 0 <= i < |groups| ==> 0.0 == positive(groups[i]);
    assert (forall g :: g in groups && ItemOf(g.key) == item ==> g.total >= 0.0)
      <==> forall i :: 0 <= i < |groups| ==> negative(groups[i]) == 0.0;
  }

  /** Theorem: the rebuilt quantities of an item equal its ledger replay exactly when no group of the item is negative
      and either the item has at most one group or no group of it is positive. */
  lemma RebuildFaithfulIff(ledger: seq<Entry>, costs: Costs, today: int, item: Item)
    ensures var groups := Groups(ledger);
      SnapshotTotal(Rebuilt(ledger, costs, today), item) == Replay(ledger, OfItem(item))
      <==> && (forall g :: g in groups && ItemOf(g.key) == item ==> g.total >= 0.0)
           && (GroupCount(groups, OfItem(item)) <= 1
               || forall g :: g in groups && ItemOf(g.key) == item ==> g.total <= 0.0)
  {
    hide SnapshotTotal, SnapshotValue, Replay, GroupTotal, Positive, Negative, PositiveValue, GroupCount, Rebuilt,
      Groups;
    var groups := Groups(ledger);
    JoinInflates(ledger, costs, today, item);
    GroupsReplay(ledger, OfItem(item));
    SignsSplit(groups, item);
    GroupCountNonNegative(groups, OfItem(item));
    assert GroupCount(groups, OfItem(item)) == 0 ==> forall g :: g in groups ==> ItemOf(g.key) != item by {
      assert forall g :: g in groups && ItemOf(g.key) == item ==> OfItem(item)(g.key);
    }
    OnlyTrivialScaling(GroupCount(groups, OfItem(item)), Positive(groups, item), Negative(groups, item));
  }

  lemma OnlyTrivialScaling(k: int, positive: real, negative: real)
    requires k >= 0 && positive >= 0.0 >= negative
    requires k == 0 ==> positive == 0.0 && negative == 0.0
    ensures k as real * positive == positive + negative <==> negative == 0.0 && (k <= 1 || positive == 0.0)
  {
    if k >= 2 && positive > 0.0 {
      assert (k as real - 1.0) * positive > 0.0;
    }
  }

  // ----- the checker -----

  /** The columns the checker groups and joins by. */
  datatype ItemKey = ItemKey(domain: Domain, storeProduct: Option<Id>, kalavaraItem: Option<Id>)

  function ItemKeyOf(k: GroupKey): ItemKey { ItemKey(k.domain, k.storeProduct, k.kalavaraItem) }

  function OfItemKey(i: ItemKey): GroupKey -> bool { (k: GroupKey) => ItemKeyOf(k) == i }

  /** `latest_snapshots`: DISTINCT ON keeps one row of the latest date per item, whichever it likes. */
  ghost predicate IsLatest(snapshots: seq<Snapshot>, latest: map<ItemKey, Snapshot>) {
    && (forall s :: s in snapshots ==> ItemKeyOf(s.key) in latest)
    && (forall i :: i in latest ==> latest[i] in snapshots && ItemKeyOf(latest[i].key) == i)
    && (forall s :: s in snapshots ==> s.date <= latest[ItemKeyOf(s.key)].date)
  }

  function LedgerItems(ledger: seq<Entry>): set<ItemKey> {
    set e | e in ledger :: ItemKeyOf(KeyOf(e))
  }

  function Drift(ledger: seq<Entry>, latest: map<ItemKey, Snapshot>, i: ItemKey): real {
    Replay(ledger, OfItemKey(i)) - if i in latest then latest[i].quantity else 0.0
  }

  /** The items the full outer join reports. */
  function Reported(ledger: seq<Entry>, latest: map<ItemKey, Snapshot>): set<ItemKey> {
    set i | i in LedgerItems(ledger) + latest.Keys && Abs(Drift(ledger, latest, i)) > TOLERANCE
  }

  /** Every row of the rebuilt table belongs to a positive group, and every positive group has a row. */
  lemma RowsAreGroups(ledger: seq<Entry>, costs: Costs, today: int)
    ensures forall s :: s in Rebuilt(ledger, costs, today) ==>
      exists g :: g in Groups(ledger) && g.total > 0.0 && s == RowFor(g, costs, today)
    ensures forall g :: g in Groups(ledger) && g.total > 0.0 ==>
      RowFor(g, costs, today) in Rebuilt(ledger, costs, today)
  {
    hide Rebuilt, Groups;
    forall s | s in Rebuilt(ledger, costs, today)
      ensures exists g :: g in Groups(ledger) && g.total > 0.0 && s == RowFor(g, costs, today)
    {
      RebuiltContents(ledger, costs, today, s);
    }
    forall g | g in Groups(ledger) && g.total > 0.0 ensures RowFor(g, costs, today) in Rebuilt(ledger, costs, today) {
      RebuiltContents(ledger, costs, today, RowFor(g, costs, today));
      assert RowFor(g, costs, today) in multiset(Rebuilt(ledger, costs, today));
    }
  }

  lemma PositiveGroupHasRow(ledger: seq<Entry>, costs: Costs, today: int, latest: map<ItemKey, Snapshot>, g: Group)
    requires IsLatest(Rebuilt(ledger, costs, today), latest) && g in Groups(ledger)
    ensures g.total > 0.0 ==> ItemKeyOf(g.key) in latest
  {
    hide Rebuilt, Groups;
    RowsAreGroups(ledger, costs, today);
    if g.total > 0.0 {
      assert RowFor(g, costs, today) in Rebuilt(ledger, costs, today);
    }
  }

  function OfItemKeyExcept(i: ItemKey, except: GroupKey): GroupKey -> bool {
    (k: GroupKey) => ItemKeyOf(k) == i && k != except
  }

  lemma OfItemKeyMeans(i: ItemKey, except: GroupKey, k: GroupKey)
    ensures OfItemKey(i)(k) <==> ItemKeyOf(k) == i
    ensures OfItemKeyExcept(i, except)(k) <==> ItemKeyOf(k) == i && k != except
  {
  }

  /** A group's total and its item's other groups make up the item. */
  lemma {:induction false} WithoutGroup(groups: seq<Group>, g: Group, i: ItemKey)
    requires DistinctKeys(groups) && g in groups && ItemKeyOf(g.key) == i
    ensures GroupTotal(groups, OfItemKey(i)) == g.total + GroupTotal(groups, OfItemKeyExcept(i, g.key))
  {
    var whole := (h: Group) => if OfItemKey(i)(h.key) then h.total else 0.0;
    var own := (h: Group) => if h.key == g.key then h.total else 0.0;
    var rest := (h: Group) => if OfItemKeyExcept(i, g.key)(h.key) then h.total else 0.0;
    forall n | 0 <= n < |groups| ensures whole(groups[n]) == own(groups[n]) + rest(groups[n]) {
      OfItemKeyMeans(i, g.key, groups[n].key);
    }
    TotalSplit(groups, whole, own, rest);
    OnlyGroup(groups, g);
  }

  lemma {:induction false} OnlyGroup(groups: seq<Group>, g: Group)
    requires DistinctKeys(groups) && g in groups
    ensures Total(groups, (h: Group) => if h.key == g.key then h.total else 0.0) == g.total
  {
    var own := (h: Group) => if h.key == g.key then h.total else 0.0;
    var n := |groups| - 1;
    if groups[n] == g {
      TotalZero(groups[..n], own);
    } else {
      assert g in groups[..n];
      OnlyGroup(groups[..n], g);
    }
  }

  /** Theorem: right after a rebuild the checker reports an item exactly when its groups other than the one it
      happened to pick add up to more than the tolerance, or, if it has no snapshot, when its replay is below minus
      the tolerance. */
  lemma CheckAfterRebuild(ledger: seq<Entry>, costs: Costs, today: int, latest: map<ItemKey, Snapshot>, i: ItemKey)
    requires IsLatest(Rebuilt(ledger, costs, today), latest)
    ensures i in latest ==>
      && (exists g :: g in Groups(ledger) && g.total > 0.0 && latest[i] == RowFor(g, costs, today))
      && (i in Reported(ledger, latest)
          <==> Abs(GroupTotal(Groups(ledger), OfItemKeyExcept(i, latest[i].key))) > TOLERANCE)
    ensures i !in latest ==>
      (i in Reported(ledger, latest) <==> i in LedgerItems(ledger) && Replay(ledger, OfItemKey(i)) < -TOLERANCE)
  {
    hide Rebuilt, Groups, Replay, GroupTotal;
    RowsAreGroups(ledger, costs, today);
    GroupsReplay(ledger, OfItemKey(i));
    if i in latest {
      var g :| g in Groups(ledger) && g.total > 0.0 && latest[i] == RowFor(g, costs, today);
      GroupsCover(ledger, g.key);
      WithoutGroup(Groups(ledger), g, i);
      assert Drift(ledger, latest, i) == GroupTotal(Groups(ledger), OfItemKeyExcept(i, g.key));
      var e :| e in ledger && KeyOf(e) == g.key;
      assert i in LedgerItems(ledger);
    } else {
      forall g | g in Groups(ledger) && ItemKeyOf(g.key) == i ensures g.total <= 0.0 {
        PositiveGroupHasRow(ledger, costs, today, latest, g);
      }
      NoPositiveGroup(Groups(ledger), i);
    }
  }

  lemma {:induction false} NoPositiveGroup(groups: seq<Group>, i: ItemKey)
    requires forall g :: g in groups && ItemKeyOf(g.key) == i ==> g.total <= 0.0
    ensures GroupTotal(groups, OfItemKey(i)) <= 0.0
  {
    var own := (g: Group) => if OfItemKey(i)(g.key) then g.total else 0.0;
    forall n | 0 <= n < |groups| ensures own(groups[n]) <= 0.0 {
      OfItemKeyMeans(i, groups[n].key, groups[n].key);
    }
    TotalCompare(groups, own, g => 0.0);
    TotalZero<Group>(groups, g => 0.0);
  }

  /** Theorem: if no item is spread over several ledger groups, the checker run after a rebuild reports exactly the
      items whose replay is below minus the tolerance: items that net to zero have no snapshot and still pass. */
  lemma CheckReportsNegativeBalances(ledger: seq<Entry>, costs: Costs, today: int, latest: map<ItemKey, Snapshot>)
    requires IsLatest(Rebuilt(ledger, costs, today), latest)
    requires forall i :: GroupCount(Groups(ledger), OfItemKey(i)) <= 1
    ensures Reported(ledger, latest) == set i | i in LedgerItems(ledger) && Replay(ledger, OfItemKey(i)) < -0.0001
  {
    hide Rebuilt, Groups, Replay, GroupTotal, GroupCount, Reported, LedgerItems, IsLatest;
    forall i
      ensures i in Reported(ledger, latest) <==> i in LedgerItems(ledger) && Replay(ledger, OfItemKey(i)) < -0.0001
    {
      CheckAfterRebuild(ledger, costs, today, latest, i);
      if i in latest {
        var g :| g in Groups(ledger) && g.total > 0.0 && latest[i] == RowFor(g, costs, today);
        SingleGroup(ledger, g, latest, i, costs, today);
      }
    }
  }

  lemma SingleGroup(ledger: seq<Entry>, g: Group, latest: map<ItemKey, Snapshot>, i: ItemKey, costs: Costs, today: int)
    requires IsLatest(Rebuilt(ledger, costs, today), latest) && i in latest
    requires g in Groups(ledger) && g.total > 0.0 && latest[i] == RowFor(g, costs, today)
    requires GroupCount(Groups(ledger), OfItemKey(i)) <= 1
    ensures GroupTotal(Groups(ledger), OfItemKeyExcept(i, latest[i].key)) == 0.0
    ensures Replay(ledger, OfItemKey(i)) > 0.0
  {
    var groups := Groups(ledger);
    GroupsCover(ledger, g.key);
    GroupsReplay(ledger, OfItemKey(i));
    WithoutGroup(groups, g, i);
    NoOtherGroup(groups, g, i);
    TotalZero(groups, (h: Group) => if OfItemKeyExcept(i, g.key)(h.key) then h.total else 0.0);
  }

  lemma NoOtherGroup(groups: seq<Group>, g: Group, i: ItemKey)
    requires g in groups && ItemKeyOf(g.key) == i && GroupCount(groups, OfItemKey(i)) <= 1
    ensures forall n :: 0 <= n < |groups| && ItemKeyOf(groups[n].key) == i ==> groups[n].key == g.key
  {
    var one := (h: Group) => if OfItemKey(i)(h.key) then 1 else 0;
    var own := (h: Group) => if h.key == g.key then 1 else 0;
    var rest := (h: Group) => if OfItemKeyExcept(i, g.key)(h.key) then 1 else 0;
    forall n | 0 <= n < |groups| ensures one(groups[n]) == own(groups[n]) + rest(groups[n]) {
      OfItemKeyMeans(i, g.key, groups[n].key);
    }
    TallySplit(groups, one, own, rest);
    TallyNonNegative(groups, own);
    TallyNonNegative(groups, rest);
    var m :| 0 <= m < |groups| && groups[m] == g;
    assert own(groups[m]) == 1;
    forall n | 0 <= n < |groups| && ItemKeyOf(groups[n].key) == i ensures groups[n].key == g.key {
      assert rest(groups[n]) == 0;
      OfItemKeyMeans(i, g.key, groups[n].key);
    }
  }

  /** Theorem: an item is reported exactly if it occurs in the ledger or has a snapshot, and the sum of its ledger
      changes and the quantity of its latest snapshot, taken as 0 if there is none, differ by more than 0.0001. */
  lemma ReportedIff(ledger: seq<Entry>, latest: map<ItemKey, Snapshot>, i: ItemKey)
    ensures i in Reported(ledger, latest) <==>
              && ((exists e :: e in ledger && i == ItemKey(e.domain, e.storeProduct, e.kalavaraItem)) || i in latest)
              && var difference := Total(ledger, ItemChange(i)) - (if i in latest then latest[i].quantity else 0.0);
                 difference > 0.0001 || difference < -0.0001
  {
    assert forall e: Entry :: ItemKeyOf(KeyOf(e)) == ItemKey(e.domain, e.storeProduct, e.kalavaraItem);
    var weight := (e: Entry) => if OfItemKey(i)(KeyOf(e)) then e.change else 0.0;
    forall n | 0 <= n < |ledger| ensures weight(ledger[n]) == ItemChange(i)(ledger[n]) {
      var k := KeyOf(ledger[n]);
      assert OfItemKey(i)(k) <==> ItemKeyOf(k) == i;
    }
    SameTotal(ledger, weight, ItemChange(i));
    assert i in LedgerItems(ledger) <==> exists e :: e in ledger && i == ItemKeyOf(KeyOf(e));
  }

  function ItemChange(i: ItemKey): Entry -> real {
    (e: Entry) => if e.domain == i.domain && e.storeProduct == i.storeProduct && e.kalavaraItem == i.kalavaraItem
                  then e.change else 0.0
  }

  // ----- every column of a rebuilt row -----

  /** The change an entry makes under the five grouping columns. */
  function ChangeUnder(k: GroupKey): Entry -> real {
    (e: Entry) =>
      if && e.temple == k.temple && e.domain == k.domain && e.storeProduct == k.storeProduct
         && e.kalavaraItem == k.kalavaraItem && e.location == k.location
      then e.change else 0.0
  }

  function OnKey(k: GroupKey): GroupKey -> bool { (other: GroupKey) => other == k }

  /** A group's total is the sum of the ledger changes under its columns. */
  lemma GroupSums(ledger: seq<Entry>, g: Group)
    requires g in Groups(ledger)
    ensures g.total == Total(ledger, ChangeUnder(g.key))
  {
    GroupsCover(ledger, g.key);
    OnlyGroup(Groups(ledger), g);
    var own := (h: Group) => if h.key == g.key then h.total else 0.0;
    var on := (h: Group) => if OnKey(g.key)(h.key) then h.total else 0.0;
    forall n | 0 <= n < |Groups(ledger)| ensures own(Groups(ledger)[n]) == on(Groups(ledger)[n]) {
      assert OnKey(g.key)(Groups(ledger)[n].key) <==> Groups(ledger)[n].key == g.key;
    }
    SameTotal(Groups(ledger), own, on);
    GroupsReplay(ledger, OnKey(g.key));
    var weight := (e: Entry) => if OnKey(g.key)(KeyOf(e)) then e.change else 0.0;
    forall n | 0 <= n < |ledger| ensures weight(ledger[n]) == ChangeUnder(g.key)(ledger[n]) {
    }
    SameTotal(ledger, weight, ChangeUnder(g.key));
  }

  /** Theorem: every row of the rebuilt table has the five columns of some ledger entry, as its quantity the sum of
      the changes under these columns, which is positive, today's date, and as its value the quantity times the unit
      cost. The unit cost of a store product is its recorded cost, else its list price, else 10; that of a kalavara
      item is its recorded cost, else 10. */
  lemma RebuiltColumns(ledger: seq<Entry>, costs: Costs, today: int, row: Snapshot)
    requires row in Rebuilt(ledger, costs, today)
    ensures exists e :: e in ledger &&
              row.key == GroupKey(e.temple, e.domain, e.storeProduct, e.kalavaraItem, e.location)
    ensures row.quantity == Total(ledger, ChangeUnder(row.key)) > 0.0
    ensures row.date == today && row.unitCost.Some? && row.value == row.quantity * row.unitCost.value
    ensures forall p :: row.key.domain == STORE && row.key.storeProduct == Some(p) ==>
              && (p in costs.storeHistory ==> row.unitCost == Some(costs.storeHistory[p]))
              && (p !in costs.storeHistory && p in costs.unitPrice ==> row.unitCost == Some(costs.unitPrice[p]))
              && (p !in costs.storeHistory && p !in costs.unitPrice ==> row.unitCost == Some(10.0))
    ensures forall i :: row.key.domain == KALAVARA && row.key.kalavaraItem == Some(i) ==>
              row.unitCost == Some(if i in costs.kalavaraHistory then costs.kalavaraHistory[i] else 10.0)
  {
    hide Rebuilt, Groups, Total, ChangeUnder;
    RowsAreGroups(ledger, costs, today);
    var g :| g in Groups(ledger) && g.total > 0.0 && row == RowFor(g, costs, today);
    GroupSums(ledger, g);
    GroupsCover(ledger, g.key);
    var e :| e in ledger && KeyOf(e) == g.key;
  }

  /** Theorem: and every combination of the five columns with a positive sum has a row. */
  lemma PositiveSumsAreRebuilt(ledger: seq<Entry>, costs: Costs, today: int, e: Entry)
    requires e in ledger && Total(ledger, ChangeUnder(KeyOf(e))) > 0.0
    ensures exists row :: row in Rebuilt(ledger, costs, today) &&
              row.key == GroupKey(e.temple, e.domain, e.storeProduct, e.kalavaraItem, e.location)
  {
    GroupsCover(ledger, KeyOf(e));
    var g :| g in Groups(ledger) && g.key == KeyOf(e);
    GroupSums(ledger, g);
    RebuiltContents(ledger, costs, today, RowFor(g, costs, today));
    assert RowFor(g, costs, today) in multiset(Rebuilt(ledger, costs, today));
  }

  // ----- the script -----

  class InventoryTables {
    var ledger: seq<Entry>
    var snapshots: seq<Snapshot>

    constructor (ledger: seq<Entry>, snapshots: seq<Snapshot>)
      ensures this.ledger == ledger && this.snapshots == snapshots
    {
      this.ledger, this.snapshots := ledger, snapshots;
    }

    /** `ledger_totals`, grouped row by row. */
    method GroupLedger() returns (totals: seq<Group>)
      ensures totals == Groups(ledger)
    {
      totals := [];
      for n := 0 to |ledger|
        invariant totals == Groups(ledger[..n])
      {
        var e := ledger[n];
        var j := 0;
        while j < |totals| && totals[j].key != KeyOf(e)
          invariant j <= |totals| && forall i :: 0 <= i < j ==> totals[i].key != KeyOf(e)
        {
          j := j + 1;
        }
        assert j == Find(totals, KeyOf(e));
        if j < |totals| {
          totals := totals[j := totals[j].(total := totals[j].total + e.change)];
        } else {
          totals := totals + [Group(KeyOf(e), e.change)];
        }
        assert ledger[..n + 1][..n] == ledger[..n];
      }
      assert ledger[..|ledger|] == ledger;
    }

    lemma MatchesAppend(g: Group, rows: seq<CostRow>, c: CostRow, today: int)
      ensures c.item == ItemOf(g.key)
              ==> Matches(g, rows + [c], today) == Matches(g, rows, today) + [Joined(g, c, today)]
      ensures c.item != ItemOf(g.key) ==> Matches(g, rows + [c], today) == Matches(g, rows, today)
    {
      assert (rows + [c])[..|rows|] == rows;
    }

    /** The cost rows that match one group, or the NULL row of the outer join. */
    method JoinGroup(g: Group, rows: seq<CostRow>, today: int) returns (joined: seq<Snapshot>)
      ensures joined == LeftJoin(g, rows, today)
    {
      joined := [];
      for n := 0 to |rows|
        invariant joined == Matches(g, rows[..n], today)
      {
        var c := rows[n];
        assert rows[..n + 1] == rows[..n] + [c];
        MatchesAppend(g, rows[..n], c, today);
        if c.item == ItemOf(g.key) {
          var cost := if g.key.domain == STORE then c.storeCost else c.kalavaraCost;
          var row := Snapshot(g.key, g.total, Some(cost), g.total * cost, today);
          assert row == Joined(g, c, today);
          joined := joined + [row];
        }
      }
      assert rows[..|rows|] == rows;
      if joined == [] {
        joined := [Snapshot(g.key, g.total, None, 0.0, today)];
      }
    }

    /** `cost_mappings`, one row per group. */
    method MapCosts(totals: seq<Group>, costs: Costs) returns (mappings: seq<CostRow>)
      ensures mappings == CostRows(totals, costs)
    {
      mappings := [];
      for n := 0 to |totals|
        invariant |mappings| == n
        invariant forall m :: 0 <= m < n ==> mappings[m] == CostRows(totals, costs)[m]
      {
        var k := totals[n].key;
        var row := CostRow(ItemOf(k), StoreCost(costs, k.storeProduct), KalavaraCost(costs, k.kalavaraItem));
        mappings := mappings + [row];
      }
    }

    lemma JoinAllAppend(groups: seq<Group>, n: nat, rows: seq<CostRow>, today: int)
      requires n < |groups|
      ensures groups[n].total > 0.0
              ==> JoinAll(groups[..n + 1], rows, today)
                  == JoinAll(groups[..n], rows, today) + LeftJoin(groups[n], rows, today)
      ensures groups[n].total <= 0.0 ==> JoinAll(groups[..n + 1], rows, today) == JoinAll(groups[..n], rows, today)
    {
      assert groups[..n + 1][..n] == groups[..n];
    }

    /** One transaction: fill the buffer table from the ledger, truncate, insert. The query is evaluated row by row. */
    method RebuildSnapshots(costs: Costs, today: int)
      modifies this`snapshots
      ensures snapshots == Rebuilt(ledger, costs, today)
    {
      hide JoinAll, LeftJoin, Groups, CostRows;
      var totals := GroupLedger();
      var mappings := MapCosts(totals, costs);
      var buffer: seq<Snapshot> := [];
      NothingJoined(totals, mappings, today);
      for n := 0 to |totals|
        invariant buffer == JoinAll(totals[..n], mappings, today)
        invariant snapshots == old(snapshots)
      {
        JoinAllAppend(totals, n, mappings, today);
        if totals[n].total > 0.0 {
          var joined := JoinGroup(totals[n], mappings, today);
          buffer := buffer + joined;
        }
      }
      assert totals[..|totals|] == totals;
      snapshots := [];
      snapshots := snapshots + buffer;
    }

    lemma NothingJoined(groups: seq<Group>, rows: seq<CostRow>, today: int)
      ensures JoinAll(groups[..0], rows, today) == []
    {
    }
  }
}
