/** The sweep, the rebuild and the checker together: when live stock, ledger and snapshots agree. */
module StockReconciliation {
  import opened Common
  import opened StockLedger
  import Sweep = StockSweep
  import Rebuild = SnapshotRebuild

  function ItemFor(k: Sweep.Key): Rebuild.Item { Rebuild.Item(Some(k.product), None) }

  /** Every ledger entry about the product sits in one group. */
  ghost predicate InOneGroup(ledger: seq<Entry>, k: Sweep.Key, g: Rebuild.GroupKey) {
    && g.temple == k.temple && g.domain == STORE && Rebuild.ItemOf(g) == ItemFor(k)
    && (forall e :: e in ledger ==> WellTyped(e))
    && forall e :: e in ledger && Rebuild.ItemOf(Rebuild.KeyOf(e)) == ItemFor(k) ==> Rebuild.KeyOf(e) == g
  }

  /** A sweep of reservations held at the group's own temple and location stays inside the group. */
  lemma {:induction false} SweepStaysInGroup(t: Sweep.Tables, order: seq<nat>, now: int, faults: Id -> Sweep.Fault,
                                             k: Sweep.Key, g: Rebuild.GroupKey)
    requires forall n :: 0 <= n < |order| ==>
               order[n] < |t.reservations| && Sweep.Expired(t.reservations[order[n]], now)
    requires InOneGroup(t.ledger, k, g) && g.location.Some?
    requires forall r :: r in t.reservations && Sweep.Expired(r, now) && r.product == k.product
                         ==> r.temple == k.temple && r.location == g.location
    ensures InOneGroup(Sweep.Releases(t, order, faults).ledger, k, g)
  {
    if order != [] {
      var n := |order| - 1;
      var front := order[..n];
      SweepStaysInGroup(t, front, now, faults, k, g);
      Sweep.ReleasesRows(t, front, faults);
      Sweep.ReleasesStep(t, order, n, faults);
      assert order[..n + 1] == order;
      var m := Sweep.Releases(t, front, faults);
      assert t.reservations[order[n]] in t.reservations;
      var r := m.reservations[order[n]];
      assert r.product == k.product ==> r.temple == k.temple && r.location == g.location;
      assert r.location.Some? ==> Sweep.ReleaseEntry(m.stock, r).location == r.location;
    }
  }

  /** Inside one group the product's replay is the key's replay. */
  lemma {:induction false} ReplayOfKey(ledger: seq<Entry>, k: Sweep.Key, g: Rebuild.GroupKey)
    requires InOneGroup(ledger, k, g)
    ensures Rebuild.Replay(ledger, Rebuild.OfItem(ItemFor(k))) == Sweep.LedgerTotal(ledger, k)
  {
    if ledger != [] {
      var n := |ledger| - 1;
      ReplayOfKey(ledger[..n], k, g);
      var e := ledger[n];
      assert e in ledger;
      Rebuild.OfItemMeans(ItemFor(k), Rebuild.KeyOf(e));
    }
  }

  lemma OneGroupAtMost(groups: seq<Rebuild.Group>, item: Rebuild.Item, g: Rebuild.GroupKey)
    requires Rebuild.DistinctKeys(groups)
    requires forall h :: h in groups && Rebuild.ItemOf(h.key) == item ==> h.key == g
    ensures Rebuild.GroupCount(groups, Rebuild.OfItem(item)) <= 1
    ensures (forall h :: h in groups && Rebuild.ItemOf(h.key) == item ==> h.total >= 0.0)
       <==> Rebuild.GroupTotal(groups, Rebuild.OfItem(item)) >= 0.0
  {
    if groups == [] {
    } else {
      var n := |groups| - 1;
      var front, last := groups[..n], groups[n];
      assert groups == front + [last];
      OneGroupAtMost(front, item, g);
      Rebuild.OfItemMeans(item, last.key);
      if last.key == g && Rebuild.ItemOf(g) == item {
        NoneOfItem(front, item);
      }
    }
  }

  lemma {:induction false} NoneOfItem(groups: seq<Rebuild.Group>, item: Rebuild.Item)
    requires forall h :: h in groups ==> Rebuild.ItemOf(h.key) != item
    ensures Rebuild.GroupCount(groups, Rebuild.OfItem(item)) == 0
    ensures Rebuild.GroupTotal(groups, Rebuild.OfItem(item)) == 0.0
  {
    if groups != [] {
      var n := |groups| - 1;
      assert groups[n] in groups;
      Rebuild.OfItemMeans(item, groups[n].key);
      NoneOfItem(groups[..n], item);
    }
  }

  /** Theorem: if a product lives at one location and its ledger replays to its live stock, then after a sweep without a
      fault between stock update and ledger entry, and a rebuild, the product's snapshot equals its live stock
      exactly when that stock is not negative. */
  lemma SweepThenRebuildAgrees(t: Sweep.Tables, order: seq<nat>, now: int, faults: Id -> Sweep.Fault, k: Sweep.Key,
                               g: Rebuild.GroupKey, costs: Rebuild.Costs, today: int)
    requires Sweep.IsExpiredList(t.reservations, now, order) && Sweep.QuantitiesNonNegative(t.reservations)
    requires InOneGroup(t.ledger, k, g) && g.location.Some?
    requires forall r :: r in t.reservations && Sweep.Expired(r, now) && r.product == k.product
                         ==> r.temple == k.temple && r.location == g.location
    requires Sweep.LedgerTotal(t.ledger, k) == Sweep.StockTotal(t.stock, k)
    requires forall i :: 0 <= i < |t.reservations| && Sweep.KeyOf(t.reservations[i]) == k
                         ==> faults(t.reservations[i].id) != Sweep.AtProductQuery
    ensures var w := Sweep.Sweep(t, order, faults);
      Rebuild.SnapshotTotal(Rebuild.Rebuilt(w.ledger, costs, today), ItemFor(k)) == Sweep.StockTotal(w.stock, k)
      <==> Sweep.StockTotal(w.stock, k) >= 0.0
  {
    hide Rebuild.Rebuilt, Rebuild.Groups, Rebuild.Replay, Rebuild.GroupTotal, Rebuild.GroupCount, Rebuild.SnapshotTotal,
      Sweep.StockTotal, Sweep.LedgerTotal;
    var w := Sweep.Sweep(t, order, faults);
    if Sweep.ReleasedIds(t, order, faults) != [] {
      Sweep.ReplayAgreesIff(t, order, now, faults, k);
    }
    assert InOneGroup(w.ledger, k, g) by {
      forall n | 0 <= n < |order| ensures Sweep.Expired(t.reservations[order[n]], now) {
        assert order[n] in order;
      }
      SweepStaysInGroup(t, order, now, faults, k, g);
    }
    OneGroupAgrees(w.ledger, k, g, costs, today);
  }

  lemma OneGroupAgrees(ledger: seq<Entry>, k: Sweep.Key, g: Rebuild.GroupKey, costs: Rebuild.Costs, today: int)
    requires InOneGroup(ledger, k, g)
    ensures Rebuild.SnapshotTotal(Rebuild.Rebuilt(ledger, costs, today), ItemFor(k)) == Sweep.LedgerTotal(ledger, k)
       <==> Sweep.LedgerTotal(ledger, k) >= 0.0
  {
    hide Rebuild.Rebuilt, Rebuild.Groups, Rebuild.Replay, Rebuild.GroupTotal, Rebuild.GroupCount, Rebuild.SnapshotTotal,
      Sweep.LedgerTotal;
    var groups := Rebuild.Groups(ledger);
    ReplayOfKey(ledger, k, g);
    Rebuild.GroupsReplay(ledger, Rebuild.OfItem(ItemFor(k)));
    forall h | h in groups && Rebuild.ItemOf(h.key) == ItemFor(k) ensures h.key == g {
      Rebuild.GroupsCover(ledger, h.key);
    }
    Rebuild.GroupsCover(ledger, g);
    OneGroupAtMost(groups, ItemFor(k), g);
    Rebuild.RebuildFaithfulIff(ledger, costs, today, ItemFor(k));
  }

  /** Releasing stock at a second location is enough to break the agreement: a product with five units at location 1
      and an expired reservation of two at location 2 has seven units in stock and fourteen in the snapshot. */
  lemma SecondLocationDoubles(costs: Rebuild.Costs, today: int)
    ensures var t := Sweep.Tables(
        [Sweep.Reservation(0, 7, 8, 2.0, Sweep.RESERVED, 5, Some(2))],
        [Sweep.Stock(7, 8, 5.0, Some(1), 1)],
        [Entry(7, STORE, Some(8), None, Some(1), 5.0, 0.0, 5.0)], []);
      var w := Sweep.Sweep(t, [0], Sweep.NoFaults());
      && Sweep.IsExpiredList(t.reservations, 10, [0])
      && w.stock == [Sweep.Stock(7, 8, 7.0, Some(1), 2)]
      && Rebuild.SnapshotTotal(Rebuild.Rebuilt(w.ledger, costs, today), Rebuild.Item(Some(8), None)) == 14.0
  {
    hide Sweep.Sweep, Rebuild.Rebuilt, Rebuild.Groups, Rebuild.GroupCount, Rebuild.Positive, Rebuild.PositiveValue;
    var r := Sweep.Reservation(0, 7, 8, 2.0, Sweep.RESERVED, 5, Some(2));
    var s := Sweep.Stock(7, 8, 5.0, Some(1), 1);
    var e := Entry(7, STORE, Some(8), None, Some(1), 5.0, 0.0, 5.0);
    var e' := Entry(7, STORE, Some(8), None, Some(2), 2.0, 5.0, 7.0);
    var t := Sweep.Tables([r], [s], [e], []);
    var w := Sweep.Sweep(t, [0], Sweep.NoFaults());
    assert w == Sweep.Release(t, 0, Sweep.NoFault) by { OneRelease(t); }
    assert Sweep.FindStock([s], Sweep.Key(7, 8)) == 0;
    assert w.ledger == [e, e'];
    TwoGroups(e, e');
    Rebuild.JoinInflates([e, e'], costs, today, Rebuild.Item(Some(8), None));
  }

  lemma OneRelease(t: Sweep.Tables)
    requires |t.reservations| == 1
    ensures Sweep.Sweep(t, [0], Sweep.NoFaults()) == Sweep.Release(t, 0, Sweep.NoFault)
  {
    assert [0][..0] == [];
    assert Sweep.Releases(t, [], Sweep.NoFaults()) == t;
    assert |Sweep.ReleasedIds(t, [0], Sweep.NoFaults())| == 1;
  }

  lemma TwoGroups(e: Entry, e': Entry)
    requires Rebuild.KeyOf(e) != Rebuild.KeyOf(e') && e.change > 0.0 && e'.change > 0.0
    requires Rebuild.ItemOf(Rebuild.KeyOf(e)) == Rebuild.ItemOf(Rebuild.KeyOf(e'))
    ensures var item := Rebuild.ItemOf(Rebuild.KeyOf(e)); var groups := Rebuild.Groups([e, e']);
      && Rebuild.GroupCount(groups, Rebuild.OfItem(item)) == 2
      && Rebuild.Positive(groups, item) == e.change + e'.change
  {
    hide Rebuild.Groups;
    var item := Rebuild.ItemOf(Rebuild.KeyOf(e));
    var h, h' := Rebuild.Group(Rebuild.KeyOf(e), e.change), Rebuild.Group(Rebuild.KeyOf(e'), e'.change);
    TwoGroupsOf(e, e');
    Rebuild.MeasuresAppend([], h, item);
    Rebuild.MeasuresAppend([h], h', item);
    assert [] + [h] == [h] && [h] + [h'] == [h, h'];
  }

  lemma TwoGroupsOf(e: Entry, e': Entry)
    requires Rebuild.KeyOf(e) != Rebuild.KeyOf(e')
    ensures Rebuild.Groups([e, e'])
         == [Rebuild.Group(Rebuild.KeyOf(e), e.change), Rebuild.Group(Rebuild.KeyOf(e'), e'.change)]
  {
    var h := Rebuild.Group(Rebuild.KeyOf(e), e.change);
    assert [e, e'][..1] == [e] && [e][..0] == [];
    assert Rebuild.Groups([e]) == Rebuild.AddTo([], e) == [h];
    assert Rebuild.Find([h], Rebuild.KeyOf(e')) == 1;
  }
}
