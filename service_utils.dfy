/** The item filter of `getItemEntries` in
    `src/scripts/models/services/service-utils.ts`: the unread, service-backed
    items of some sources, optionally limited by date with `dateCompare`. */
module ServiceUtils {
  import opened Wrappers
  import Utils
  import Db

  /** The predicate passed to `.and(…)`, together with the `anyOf(sids)`
      index condition. A `Date` is always truthy, so any given date
      filters. */
  predicate Kept(item: Db.ItemEntry, sids: seq<int>, date: Option<int>, before: bool)
  {
    item.source in sids && !item.hasRead && item.serviceRef.Some?
    && (date.None? || Utils.DateCompare(item.date, date.value, before))
  }

  /** `getItemEntries(sids, date, before)` over the rows the `source` index
      yields, in that order. */
  function GetItemEntries(rows: seq<Db.ItemEntry>, sids: seq<int>, date: Option<int>, before: bool): (r: seq<Db.ItemEntry>)
    ensures |r| <= |rows|
  {
    if rows == [] then []
    else (if Kept(rows[0], sids, date, before) then [rows[0]] else []) + GetItemEntries(rows[1..], sids, date, before)
  }

  /** An item is returned exactly when it is an unread item of one of the
      sources, has a service reference and passes the date test. */
  lemma {:induction false} GetItemEntriesSpec(rows: seq<Db.ItemEntry>, sids: seq<int>, date: Option<int>, before: bool)
    ensures forall x :: x in GetItemEntries(rows, sids, date, before) <==>
      x in rows && x.source in sids && !x.hasRead && x.serviceRef.Some?
      && (date.None? || Utils.DateCompare(x.date, date.value, before))
    decreases |rows|
  {
    if rows != [] {
      GetItemEntriesSpec(rows[1..], sids, date, before);
      assert rows == [rows[0]] + rows[1..];
    }
  }

  /** With `before` set, the date test as written keeps only the items
      dated exactly at the limit; without it, those at or after it. */
  lemma DateFilterAsWritten(rows: seq<Db.ItemEntry>, sids: seq<int>, limit: int, before: bool)
    ensures forall x :: x in GetItemEntries(rows, sids, Some(limit), before) ==>
      (if before then x.date == limit else x.date >= limit)
  {
    GetItemEntriesSpec(rows, sids, Some(limit), before);
  }
}
