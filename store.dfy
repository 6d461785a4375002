/** The store (`src/db.ts`, class `DB`): the `hubs` and `datas` tables held
    as sequences of rows, read and updated by the service's five public
    operations. Query failures cannot happen on in-memory tables, so every
    operation returns normally. */
module Store {
  import opened Base
  import opened Rows
  import opened Selection

  class DB {
    /** The rows of `hubs` and of `datas`, in insertion order. */
    var hubs: seq<Hub>
    var datas: seq<DataItem>

    /** Every row the store writes has an `active` flag of 0 or 1. */
    ghost predicate Valid()
      reads this
    {
      HubRowsOk(hubs) && DataRowsOk(datas)
    }

    /** Opening a database: `CREATE TABLE IF NOT EXISTS` keeps whatever rows
        the two tables already hold (none for a new file). */
    constructor (hubs: seq<Hub>, datas: seq<DataItem>)
      ensures this.hubs == hubs && this.datas == datas
      ensures HubRowsOk(hubs) && DataRowsOk(datas) ==> Valid()
    {
      this.hubs := hubs;
      this.datas := datas;
    }

    /** `updateCount`: every row carrying the item's identifier gets the
        count the item was read with, plus one. */
    method UpdateCount(data: DataItem)
      modifies this
      ensures hubs == old(hubs)
      ensures datas == SetCount(old(datas), data.id, data.count + 1)
      ensures old(Valid()) ==> Valid()
    {
      datas := SetCount(datas, data.id, data.count + 1);
    }

    /** The `SELECT` of `getData(hubId)`: the hub's active rows ordered by
        count (equal counts in an order SQLite chooses), then the row at
        offset `r % MAX(ROUND(n * 0.5), 1)`, where `r` stands for
        `ABS(RANDOM())`. No row comes back exactly when the hub has no
        active row. */
    method SelectLeastChosen(hubId: string, r: nat) returns (row: Option<DataItem>)
      ensures row.None? <==> Eligible(datas, hubId) == []
      ensures row.Some? ==> exists o :: IsCountOrdering(o, Eligible(datas, hubId)) && row.value == Pick(o, r)
      ensures row.Some? ==> row.value in datas && row.value.hub_id == hubId && row.value.active == 1
    {
      var e := Eligible(datas, hubId);
      OrderingExists(e);
      var ordered :| IsCountOrdering(ordered, e);
      var offset := r % Window(|e|);
      if |e| >= 1 {
        PickedRow(datas, hubId, ordered, r);
      }
      if offset >= |ordered| {
        row := None;
      } else {
        row := Some(ordered[offset]);
      }
    }

    /** `getData(hubId)`: the selected row has its count raised and is
        returned as it was read; a hub with no active row gives the empty
        item and changes nothing. */
    method GetData(hubId: string, r: nat) returns (item: DataItem)
      modifies this
      ensures hubs == old(hubs)
      ensures Eligible(old(datas), hubId) == [] ==> item == EmptyData && datas == old(datas)
      ensures Eligible(old(datas), hubId) != [] ==>
                && (exists o :: IsCountOrdering(o, Eligible(old(datas), hubId)) && item == Pick(o, r))
                && item in old(datas) && item.hub_id == hubId && item.active == 1
                && datas == SetCount(old(datas), item.id, item.count + 1)
      ensures old(Valid()) ==> Valid()
    {
      var row := SelectLeastChosen(hubId, r);
      if row.None? {
        item := EmptyData;
      } else {
        item := row.value;
        UpdateCount(item);
      }
    }

    /** `deactivateData(id)`: the first row with the identifier is read and
        returned as it was; then every row with that identifier is made
        inactive. The guard before `setInactive` reads `.active` of the id
        column's string value, which is `undefined` and so never `0`: the
        update always runs. An unknown identifier gives the empty item. */
    method DeactivateData(id: string) returns (item: DataItem)
      modifies this
      ensures hubs == old(hubs)
      ensures FirstDataWithId(old(datas), id).None? ==> item == EmptyData && datas == old(datas)
      ensures FirstDataWithId(old(datas), id).Some? ==>
                item == FirstDataWithId(old(datas), id).value && datas == DeactivateRows(old(datas), id)
      ensures DataEvolves(old(datas), datas) && NoActiveWithId(datas, id)
      ensures old(Valid()) ==> Valid()
    {
      var found := FirstDataWithId(datas, id);
      if found.None? {
        item := EmptyData;
      } else {
        item := found.value;
        SetInactive(item);
      }
    }

    /** `setInactive`. */
    method SetInactive(data: DataItem)
      modifies this
      ensures hubs == old(hubs)
      ensures datas == DeactivateRows(old(datas), data.id)
      ensures DataEvolves(old(datas), datas) && NoActiveWithId(datas, data.id)
      ensures old(Valid()) ==> Valid()
    {
      DeactivateEvolvesAnyRows(datas, data.id);
      datas := DeactivateRows(datas, data.id);
    }

    /** `addData(hubId, data)`: one new active row with count 0, the
        identifier `newId` from the identifier provider and the timestamp
        `now`. Whether hub `hubId` exists is not checked. */
    method AddData(hubId: string, content: seq<byte>, newId: string, now: int) returns (item: DataItem)
      modifies this
      ensures item == DataItem(newId, hubId, now, 1, 0, content)
      ensures hubs == old(hubs) && datas == old(datas) + [item]
      ensures DataEvolves(old(datas), datas)
      ensures old(Valid()) ==> Valid()
    {
      item := DataItem(newId, hubId, now, 1, 0, content);
      datas := datas + [item];
    }

    /** `createHub()`: one new active hub. */
    method CreateHub(newId: string, now: int) returns (hub: Hub)
      modifies this
      ensures hub == Hub(newId, now, 1)
      ensures hubs == old(hubs) + [hub] && datas == old(datas)
      ensures HubsEvolve(old(hubs), hubs)
      ensures old(Valid()) ==> Valid()
    {
      hub := Hub(newId, now, 1);
      hubs := hubs + [hub];
    }

    /** `setHubInactive`. */
    method SetHubInactive(hub: Hub)
      modifies this
      ensures datas == old(datas)
      ensures hubs == DeactivateHubRows(old(hubs), hub.id)
      ensures HubsEvolve(old(hubs), hubs)
      ensures old(Valid()) ==> Valid()
    {
      hubs := DeactivateHubRows(hubs, hub.id);
    }

    /** `deactivateHub(id)`: like `deactivateData` on `hubs`, with the same
        always-true guard. The hub's data rows are left as they are. */
    method DeactivateHub(id: string) returns (hub: Hub)
      modifies this
      ensures datas == old(datas)
      ensures FirstHubWithId(old(hubs), id).None? ==> hub == EmptyHub && hubs == old(hubs)
      ensures FirstHubWithId(old(hubs), id).Some? ==>
                hub == FirstHubWithId(old(hubs), id).value && hubs == DeactivateHubRows(old(hubs), id)
      ensures HubsEvolve(old(hubs), hubs)
      ensures forall i :: 0 <= i < |hubs| && hubs[i].id == id ==> hubs[i].active == 0
      ensures old(Valid()) ==> Valid()
    {
      var found := FirstHubWithId(hubs, id);
      if found.None? {
        hub := EmptyHub;
      } else {
        hub := found.value;
        SetHubInactive(hub);
      }
    }
  }

  /** What `LIMIT 1 OFFSET` yields on one ordering of a non-empty hub's
      candidates: an active row of that hub among the least-chosen half. */
  lemma PickedRow(datas: seq<DataItem>, hubId: string, o: seq<DataItem>, r: nat)
    requires IsCountOrdering(o, Eligible(datas, hubId)) && |o| >= 1
    ensures r % Window(|o|) < |o|
    ensures Pick(o, r) in datas && Pick(o, r).hub_id == hubId && Pick(o, r).active == 1
    ensures CountBelow(Eligible(datas, hubId), Pick(o, r).count) < Window(|Eligible(datas, hubId)|)
  {
    PickIsAmongLeastChosen(Eligible(datas, hubId), o, r);
  }

  /** `ORDER BY count ASC` always has at least one outcome. */
  lemma OrderingExists(e: seq<DataItem>)
    ensures exists o :: IsCountOrdering(o, e)
  {
    assert IsCountOrdering(SortByCount(e), e);
  }

  /** The count update of `getData` lowers no count when identifiers are
      unique: the picked row is then the only row it touches. */
  lemma {:induction false} PickKeepsCounts(before: seq<DataItem>, item: DataItem)
    requires UniqueIds(before) && item in before
    ensures DataEvolves(before, SetCount(before, item.id, item.count + 1))
  {
    var j :| 0 <= j < |before| && before[j] == item;
    assert forall i :: 0 <= i < |before| && before[i].id == item.id ==> i == j;
  }

  /** With a duplicated identifier the same update can lower a count: an
      inactive row (or one of another hub) that shares the picked row's
      identifier and has been chosen more often is reset to the picked
      row's count plus one. */
  lemma DuplicateIdLowersCount()
    ensures var stale := DataItem("AAAAAAAAAA", "h", 0, 0, 5, []);
            var live := DataItem("AAAAAAAAAA", "h", 1, 1, 0, []);
            var before := [stale, live];
            && Eligible(before, "h") == [live]
            && SetCount(before, live.id, live.count + 1)[0].count < before[0].count
  {
    var stale := DataItem("AAAAAAAAAA", "h", 0, 0, 5, []);
    var live := DataItem("AAAAAAAAAA", "h", 1, 1, 0, []);
    var before := [stale, live];
    assert before[1..] == [live];
    assert Eligible(before, "h") == [live];
  }

  /** Deactivation touches only flags, whatever the rows hold. */
  lemma DeactivateEvolvesAnyRows(datas: seq<DataItem>, id: string)
    ensures DataEvolves(datas, DeactivateRows(datas, id))
    ensures NoActiveWithId(DeactivateRows(datas, id), id)
    ensures DataRowsOk(datas) ==> DataRowsOk(DeactivateRows(datas, id))
  {
  }
}
