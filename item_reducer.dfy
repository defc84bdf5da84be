/** The items slice of the store: `applyItemReduction` and `itemReducer`
    of `src/scripts/models/item.ts`. The state maps item ids to items; the
    reducer is specified by `Reduce` and computed, loop by loop, by
    `ItemReducerStep`. */
module ItemReducer {
  import opened Wrappers
  import Utils
  import Db

  type ItemState = map<int, Db.ItemEntry>

  /** Every item sits under its own id. Every action keeps this. */
  ghost predicate ValidState(state: ItemState)
  {
    forall k :: k in state ==> state[k].iid == k
  }

  datatype ActionStatus = Request | Intermediate | Success | Failure

  /** The single-item actions `applyItemReduction` handles. */
  datatype Reduction = MarkRead | MarkUnread | ToggleStarred | ToggleHidden

  datatype Action =
    | FetchItems(status: ActionStatus, items: seq<Db.ItemEntry>)
    | ItemAction(kind: Reduction, iid: int)
    | MarkAllRead(sids: set<int>, time: Option<int>, before: bool)
    | InitFeed(status: ActionStatus, items: seq<Db.ItemEntry>)
    | LoadMore(status: ActionStatus, items: seq<Db.ItemEntry>)
    | SyncLocalItems(unreadIds: set<string>, starredIds: set<string>)
    | FreeMemory(iids: set<int>)
    | OtherAction

  /** `applyItemReduction(item, type)`: a copy of the item with one flag
      set or flipped. */
  function ApplyItemReduction(item: Db.ItemEntry, kind: Reduction): (r: Db.ItemEntry)
    ensures kind == MarkRead ==> r == item.(hasRead := true)
    ensures kind == MarkUnread ==> r == item.(hasRead := false)
    ensures kind == ToggleStarred ==> r == item.(starred := !item.starred)
    ensures kind == ToggleHidden ==> r == item.(hidden := !item.hidden)
  {
    match kind
    case MarkRead => item.(hasRead := true)
    case MarkUnread => item.(hasRead := false)
    case ToggleStarred => item.(starred := !item.starred)
    case ToggleHidden => item.(hidden := !item.hidden)
  }

  /** Toggling twice gives the item back; marking is idempotent. */
  lemma ReductionLaws(item: Db.ItemEntry, kind: Reduction)
    ensures kind.ToggleStarred? || kind.ToggleHidden? ==> ApplyItemReduction(ApplyItemReduction(item, kind), kind) == item
    ensures kind.MarkRead? || kind.MarkUnread? ==> ApplyItemReduction(ApplyItemReduction(item, kind), kind) == ApplyItemReduction(item, kind)
    ensures ApplyItemReduction(item, kind).iid == item.iid
  {
  }

  /** `{ [i.iid]: i }` over a list: a later item with the same id wins. */
  function FromList(items: seq<Db.ItemEntry>): (r: ItemState)
    ensures ValidState(r)
  {
    if items == [] then map[]
    else FromList(items[..|items| - 1])[items[|items| - 1].iid := items[|items| - 1]]
  }

  /** The ids of `FromList` are those of the listed items, and each entry
      is one of them. */
  lemma {:induction false} FromListKeys(items: seq<Db.ItemEntry>)
    ensures forall k :: k in FromList(items) <==> exists i :: 0 <= i < |items| && items[i].iid == k
    ensures forall k :: k in FromList(items) ==> exists i :: 0 <= i < |items| && items[i] == FromList(items)[k]
    decreases |items|
  {
    if items != [] {
      var n := |items| - 1;
      var init := items[..n];
      FromListKeys(init);
      forall i | 0 <= i < n ensures init[i] == items[i] { }
    }
  }

  /** Under `MARK_ALL_READ`, whether the item is marked: an unread item of
      one of the sources whose date passes the limit, when there is one
      (`time` absent or 0 means no limit). */
  predicate MarkedByAll(item: Db.ItemEntry, sids: set<int>, time: Option<int>, before: bool)
  {
    item.source in sids && !item.hasRead
    && (time.None? || time.value == 0 || Utils.WithinDateLimit(item.date, time.value, before))
  }

  function MarkAllReadIn(state: ItemState, sids: set<int>, time: Option<int>, before: bool): ItemState
  {
    map k | k in state :: if MarkedByAll(state[k], sids, time, before) then state[k].(hasRead := true) else state[k]
  }

  /** Under `SYNC_LOCAL_ITEMS`, the item with the service's read and
      starred flags, when it has a service reference. */
  function Synced(item: Db.ItemEntry, unreadIds: set<string>, starredIds: set<string>): Db.ItemEntry
  {
    match item.serviceRef
    case None => item
    case Some(ref) => item.(hasRead := ref !in unreadIds, starred := ref in starredIds)
  }

  /** The next state, as `itemReducer(state, action)` computes it. */
  function Reduce(state: ItemState, action: Action): ItemState
    requires action.ItemAction? ==> action.iid in state
  {
    match action
    case FetchItems(status, items) => if status == Success then FromList(items) + state else state
    case ItemAction(kind, iid) => state[iid := ApplyItemReduction(state[iid], kind)]
    case MarkAllRead(sids, time, before) => MarkAllReadIn(state, sids, time, before)
    case InitFeed(status, items) => if status == Success then state + FromList(items) else state
    case LoadMore(status, items) => if status == Success then state + FromList(items) else state
    case SyncLocalItems(unreadIds, starredIds) => map k | k in state :: Synced(state[k], unreadIds, starredIds)
    case FreeMemory(iids) => map k | k in state && state[k].iid in iids :: state[k]
    case OtherAction => state
  }

  /** Every action keeps each item under its own id. */
  lemma ReduceKeepsValid(state: ItemState, action: Action)
    requires ValidState(state)
    requires action.ItemAction? ==> action.iid in state
    ensures ValidState(Reduce(state, action))
  {
  }

  /** `FETCH_ITEMS`: items already loaded are kept as they are; new ids
      get the last item of the list that carries them. */
  lemma FetchedItemsKeepLoadedOnes(state: ItemState, items: seq<Db.ItemEntry>)
    ensures var r := Reduce(state, FetchItems(Success, items));
      (forall k :: k in state ==> k in r && r[k] == state[k])
      && (forall k :: k in r && k !in state ==> exists i :: 0 <= i < |items| && items[i] == r[k])
      && (forall i :: 0 <= i < |items| ==> items[i].iid in r)
  {
    FromListKeys(items);
  }

  /** `LOAD_MORE` (and `INIT_FEED`, which `Reduce` treats alike): the
      loaded items replace what was there, and everything else stays. */
  lemma LoadedItemsWin(state: ItemState, items: seq<Db.ItemEntry>)
    ensures var r := Reduce(state, LoadMore(Success, items));
      (forall i :: 0 <= i < |items| ==> items[i].iid in r)
      && (forall k :: k in FromList(items) ==> k in r && r[k] == FromList(items)[k])
      && (forall k :: k in state && k !in FromList(items) ==> k in r && r[k] == state[k])
      && (forall k :: k in r ==> k in state || k in FromList(items))
  {
    var m := FromList(items);
    assert Reduce(state, LoadMore(Success, items)) == state + m;
    UnionPrefersRight(state, m);
    forall i | 0 <= i < |items| ensures items[i].iid in state + m {
      FromListHasItem(items, i);
    }
  }

  /** In `a + b` the entries of `b` win and those of `a` fill the rest. */
  lemma UnionPrefersRight(a: ItemState, b: ItemState)
    ensures forall k :: k in b ==> k in a + b && (a + b)[k] == b[k]
    ensures forall k :: k in a && k !in b ==> k in a + b && (a + b)[k] == a[k]
    ensures forall k :: k in a + b ==> k in a || k in b
  {
  }

  /** Every listed item's id is in `FromList`. */
  lemma {:induction false} FromListHasItem(items: seq<Db.ItemEntry>, i: int)
    requires 0 <= i < |items|
    ensures items[i].iid in FromList(items)
    decreases |items|
  {
    var n := |items| - 1;
    if i < n {
      FromListHasItem(items[..n], i);
      assert items[..n][i] == items[i];
    }
  }

  /** A single-item action changes that item's one flag and nothing else. */
  lemma ItemActionTouchesOneItem(state: ItemState, kind: Reduction, iid: int)
    requires iid in state
    ensures var r := Reduce(state, ItemAction(kind, iid));
      r.Keys == state.Keys
      && (forall k :: k in state && k != iid ==> r[k] == state[k])
      && r[iid] == ApplyItemReduction(state[iid], kind)
  {
  }

  /** `MARK_ALL_READ`: an item is read afterwards exactly when it was read
      before or it is an item of one of the sources within the limit; no
      other field and no other item changes. Doing it twice is doing it
      once. */
  lemma MarkAllReadSpec(state: ItemState, sids: set<int>, time: Option<int>, before: bool)
    ensures var r := Reduce(state, MarkAllRead(sids, time, before));
      r.Keys == state.Keys
      && (forall k :: k in state ==>
            (r[k].hasRead <==> state[k].hasRead || (state[k].source in sids
                                                    && (time.None? || time.value == 0 || Utils.WithinDateLimit(state[k].date, time.value, before)))))
      && (forall k :: k in state ==> r[k].(hasRead := state[k].hasRead) == state[k])
      && Reduce(r, MarkAllRead(sids, time, before)) == r
  {
    var r := Reduce(state, MarkAllRead(sids, time, before));
    assert r.Keys == state.Keys;
    forall k | k in r ensures !MarkedByAll(r[k], sids, time, before) {
    }
  }

  /** `SYNC_LOCAL_ITEMS`: an item with a service reference is read exactly
      when the service no longer lists it as unread, and starred exactly
      when the service lists it as starred; other items are unchanged, and
      syncing again changes nothing. */
  lemma SyncLocalItemsSpec(state: ItemState, unreadIds: set<string>, starredIds: set<string>)
    ensures var r := Reduce(state, SyncLocalItems(unreadIds, starredIds));
      r.Keys == state.Keys
      && (forall k :: k in state && state[k].serviceRef.Some? ==>
            (r[k].hasRead <==> state[k].serviceRef.value !in unreadIds)
            && (r[k].starred <==> state[k].serviceRef.value in starredIds)
            && r[k].(hasRead := state[k].hasRead, starred := state[k].starred) == state[k])
      && (forall k :: k in state && state[k].serviceRef.None? ==> r[k] == state[k])
      && Reduce(r, SyncLocalItems(unreadIds, starredIds)) == r
  {
    var r := Reduce(state, SyncLocalItems(unreadIds, starredIds));
    assert r.Keys == state.Keys;
    assert forall k :: k in r ==> Synced(r[k], unreadIds, starredIds) == r[k];
  }

  /** `FREE_MEMORY`: exactly the kept ids remain, unchanged. */
  lemma FreeMemorySpec(state: ItemState, iids: set<int>)
    requires ValidState(state)
    ensures var r := Reduce(state, FreeMemory(iids));
      r.Keys == state.Keys * iids && forall k :: k in r ==> r[k] == state[k]
  {
    var r := Reduce(state, FreeMemory(iids));
    assert forall k :: k in state ==> state[k].iid == k;
  }

  /** `itemReducer(state, action)`, with the loops of each case. */
  method ItemReducerStep(state: ItemState, action: Action) returns (next: ItemState)
    requires ValidState(state)
    requires action.ItemAction? ==> action.iid in state
    ensures next == Reduce(state, action)
  {
    match action
    case FetchItems(status, items) =>
      if status != Success {
        return state;
      }
      var newMap := BuildMap(map[], items);
      assert newMap == map[] + FromList(items);
      return newMap + state;
    case ItemAction(kind, iid) =>
      return state[iid := ApplyItemReduction(state[iid], kind)];
    case MarkAllRead(sids, time, before) =>
      next := MarkAllReadLoop(state, sids, time, before);
    case InitFeed(status, items) =>
      if status != Success {
        return state;
      }
      next := BuildMap(state, items);
    case LoadMore(status, items) =>
      if status != Success {
        return state;
      }
      next := BuildMap(state, items);
    case SyncLocalItems(unreadIds, starredIds) =>
      next := SyncLoop(state, unreadIds, starredIds);
    case FreeMemory(iids) =>
      next := FreeMemoryLoop(state, iids);
    case OtherAction =>
      return state;
  }

  /** `for (let i of items) m[i.iid] = i`, starting from `m`. */
  method BuildMap(m: ItemState, items: seq<Db.ItemEntry>) returns (r: ItemState)
    ensures r == m + FromList(items)
  {
    r := m;
    for i := 0 to |items|
      invariant r == m + FromList(items[..i])
    {
      assert items[..i + 1][..i] == items[..i];
      r := r[items[i].iid := items[i]];
    }
    assert items[..|items|] == items;
  }

  /** The `MARK_ALL_READ` loop over `Object.values(state)`. */
  method MarkAllReadLoop(state: ItemState, sids: set<int>, time: Option<int>, before: bool) returns (next: ItemState)
    requires ValidState(state)
    ensures next == MarkAllReadIn(state, sids, time, before)
  {
    next := state;
    var rest := state.Keys;
    while rest != {}
      invariant rest <= state.Keys
      invariant next.Keys == state.Keys
      invariant forall k :: k in state && k !in rest ==> next[k] == MarkAllReadIn(state, sids, time, before)[k]
      invariant forall k :: k in rest ==> next[k] == state[k]
      decreases rest
    {
      HasMember(rest);
      var k :| k in rest;
      var item := state[k];
      assert item.iid == k;
      if item.source in sids && !item.hasRead {
        if time.None? || time.value == 0 || (if before then item.date <= time.value else item.date >= time.value) {
          next := next[item.iid := item.(hasRead := true)];
        }
      }
      rest := rest - {k};
    }
    SameMap(next, MarkAllReadIn(state, sids, time, before));
  }

  /** The `SYNC_LOCAL_ITEMS` loop over `Object.values(state)`. */
  method SyncLoop(state: ItemState, unreadIds: set<string>, starredIds: set<string>) returns (next: ItemState)
    requires ValidState(state)
    ensures next == map k | k in state :: Synced(state[k], unreadIds, starredIds)
  {
    next := state;
    var rest := state.Keys;
    while rest != {}
      invariant rest <= state.Keys
      invariant next.Keys == state.Keys
      invariant forall k :: k in state && k !in rest ==> next[k] == Synced(state[k], unreadIds, starredIds)
      invariant forall k :: k in rest ==> next[k] == state[k]
      decreases rest
    {
      HasMember(rest);
      var k :| k in rest;
      var item := state[k];
      assert item.iid == k;
      if item.serviceRef.Some? {
        var ref := item.serviceRef.value;
        next := next[item.iid := item.(hasRead := ref !in unreadIds, starred := ref in starredIds)];
      }
      rest := rest - {k};
    }
    SameMap(next, map k | k in state :: Synced(state[k], unreadIds, starredIds));
  }

  /** The `FREE_MEMORY` loop: only the listed ids are copied over. */
  method FreeMemoryLoop(state: ItemState, iids: set<int>) returns (next: ItemState)
    requires ValidState(state)
    ensures next == map k | k in state && state[k].iid in iids :: state[k]
  {
    next := map[];
    var rest := state.Keys;
    while rest != {}
      invariant rest <= state.Keys
      invariant forall k :: k in next <==> k in state && k !in rest && k in iids
      invariant forall k :: k in next ==> next[k] == state[k]
      decreases rest
    {
      HasMember(rest);
      var k :| k in rest;
      var item := state[k];
      assert item.iid == k;
      if item.iid in iids {
        next := next[item.iid := item];
      }
      rest := rest - {k};
    }
    SameMap(next, map k | k in state && state[k].iid in iids :: state[k]);
  }

  /** A non-empty set has a member to pick. */
  lemma HasMember(s: set<int>)
    requires s != {}
    ensures exists k :: k in s
  {
    if forall k :: k !in s {
      assert false;
    }
  }

  /** Two states with the same ids and the same item under each are equal. */
  lemma SameMap(a: ItemState, b: ItemState)
    requires forall k :: k in a ==> k in b && a[k] == b[k]
    requires forall k :: k in b ==> k in a
    ensures a == b
  {
    forall k | k in a ensures k in b { }
    forall k | k in b ensures k in a { }
    assert a.Keys == b.Keys;
    forall k | k in a ensures a[k] == b[k] { }
  }
}
