/** The Dexie database of `src/scripts/db.ts`: a sources table keyed by an
    auto-incremented `sid` with a unique index on `url`, an items table keyed
    by an auto-incremented `iid`, and the one-off migration of sources from the
    old Lovefield database.

    Keys follow IndexedDB's key generator: a row added without a key gets the
    generator's current number, which starts at 1; a row added with an
    explicit key at least that number moves the generator past it; clearing a
    table does not reset it. A key of 0 stands for "no key given", so row
    keys the generator hands out are never 0. */
module Db {
  import opened Wrappers
  import ThumbUtils

  /** A source's filtering rule; `models/rule.ts` is not part of this model,
      so a rule is carried as an uninterpreted value. */
  datatype SourceRule = SourceRule(text: string)

  datatype SourceEntry = SourceEntry(
    sid: int,
    url: string,
    iconurl: Option<string>,
    name: string,
    openTarget: int,
    lastFetched: Option<int>,
    serviceRef: Option<string>,
    fetchFrequency: int,
    rules: Option<seq<SourceRule>>,
    textDir: int,
    hidden: bool)

  /** An item row: the whole `RSSItem` object, thumbnails included. */
  datatype ItemEntry = ItemEntry(
    iid: int,
    source: int,
    title: string,
    link: string,
    date: int,
    fetchedDate: int,
    thumb: Option<string>,
    thumbnails: seq<ThumbUtils.ThumbnailAttributes>,
    content: string,
    snippet: string,
    creator: Option<string>,
    hasRead: bool,
    starred: bool,
    hidden: bool,
    notify: bool,
    serviceRef: Option<string>)

  /** A rejected write: the key, or the value of a unique index, is taken. */
  datatype DbError = KeyTaken(key: int) | UrlTaken(url: string)

  /** The key a row is stored under: its own, or the generator's. */
  function KeyFor(given: int, next: int): int
  {
    if given == 0 then next else given
  }

  /** The generator after storing under `key`. */
  function NextAfter(next: int, key: int): (n: int)
    ensures n >= next && n > key
  {
    if key >= next then key + 1 else next
  }

  // ---------------------------------------------------------------------
  // sources: `++sid, &url`

  predicate HasUrl(rows: map<int, SourceEntry>, url: string)
  {
    exists k :: k in rows && rows[k].url == url
  }

  ghost predicate UniqueUrls(rows: map<int, SourceEntry>)
  {
    forall a, b :: a in rows && b in rows && rows[a].url == rows[b].url ==> a == b
  }

  ghost predicate SourcesInvariant(rows: map<int, SourceEntry>, next: int)
  {
    next >= 1 && UniqueUrls(rows) && forall k :: k in rows ==> rows[k].sid == k && k < next
  }

  datatype SourcesState = SourcesState(rows: map<int, SourceEntry>, nextKey: int)

  /** `sources.add(entry)`: refused when the key or the url is taken. */
  function AddSource(s: SourcesState, entry: SourceEntry): (r: (SourcesState, Result<int, DbError>))
    ensures r.1.Err? ==> r.0 == s
    ensures r.1.Ok? <==> KeyFor(entry.sid, s.nextKey) !in s.rows && !HasUrl(s.rows, entry.url)
    ensures r.1.Ok? ==> var k := r.1.value;
      k == KeyFor(entry.sid, s.nextKey)
      && r.0.rows == s.rows[k := entry.(sid := k)]
      && r.0.nextKey == NextAfter(s.nextKey, k)
  {
    var key := KeyFor(entry.sid, s.nextKey);
    if key in s.rows then (s, Err(KeyTaken(key)))
    else if HasUrl(s.rows, entry.url) then (s, Err(UrlTaken(entry.url)))
    else (SourcesState(s.rows[key := entry.(sid := key)], NextAfter(s.nextKey, key)), Ok(key))
  }

  /** Adding keeps every key matched to its row, below the generator, and
      every url unique. */
  lemma AddSourceKeepsInvariant(s: SourcesState, entry: SourceEntry)
    requires SourcesInvariant(s.rows, s.nextKey)
    ensures SourcesInvariant(AddSource(s, entry).0.rows, AddSource(s, entry).0.nextKey)
  {
    var (t, r) := AddSource(s, entry);
    if r.Ok? {
      var k := r.value;
      forall a, b | a in t.rows && b in t.rows && t.rows[a].url == t.rows[b].url ensures a == b {
        if (a == k) != (b == k) {
          assert false;
        }
      }
    }
  }

  class SourcesTable {
    var rows: map<int, SourceEntry>
    var nextKey: int

    ghost predicate Valid()
      reads this
    {
      SourcesInvariant(rows, nextKey)
    }

    function State(): SourcesState
      reads this
    {
      SourcesState(rows, nextKey)
    }

    constructor ()
      ensures Valid() && rows == map[] && nextKey == 1
    {
      rows := map[];
      nextKey := 1;
    }

    /** `sources.where("url").equals(url).toArray().length > 0`. */
    method HasUrlQuery(url: string) returns (found: bool)
      ensures found <==> HasUrl(rows, url)
    {
      found := HasUrl(rows, url);
    }

    method Add(entry: SourceEntry) returns (r: Result<int, DbError>)
      requires Valid()
      modifies this
      ensures Valid()
      ensures (State(), r) == AddSource(old(State()), entry)
    {
      AddSourceKeepsInvariant(State(), entry);
      var result := AddSource(State(), entry);
      rows, nextKey := result.0.rows, result.0.nextKey;
      r := result.1;
    }

    method Clear()
      requires Valid()
      modifies this
      ensures Valid() && rows == map[] && nextKey == old(nextKey)
    {
      rows := map[];
    }
  }

  // ---------------------------------------------------------------------
  // items: `++iid, source, date, serviceRef`

  ghost predicate ItemsInvariant(rows: map<int, ItemEntry>, next: int)
  {
    next >= 1 && forall k :: k in rows ==> rows[k].iid == k && k < next
  }

  datatype ItemsState = ItemsState(rows: map<int, ItemEntry>, nextKey: int)

  /** `items.bulkAdd(batch, { allKeys: true })`: each row in turn, under its
      own key or the generator's; a row whose key is taken is not stored and
      makes the whole call reject. The keys are those of the stored rows. */
  function BulkAdded(s: ItemsState, batch: seq<ItemEntry>): (r: (ItemsState, seq<int>, bool))
    ensures |r.1| <= |batch|
    decreases |batch|
  {
    if batch == [] then (s, [], true)
    else
      var key := KeyFor(batch[0].iid, s.nextKey);
      if key in s.rows then
        var (t, keys, _) := BulkAdded(s, batch[1..]);
        (t, keys, false)
      else
        var (t, keys, ok) := BulkAdded(ItemsState(s.rows[key := batch[0].(iid := key)], NextAfter(s.nextKey, key)), batch[1..]);
        (t, [key] + keys, ok)
  }

  /** Bulk adding keeps every key matched to its row and below the
      generator. */
  lemma {:induction false} BulkAddedKeepsInvariant(s: ItemsState, batch: seq<ItemEntry>)
    requires ItemsInvariant(s.rows, s.nextKey)
    ensures ItemsInvariant(BulkAdded(s, batch).0.rows, BulkAdded(s, batch).0.nextKey)
    decreases |batch|
  {
    if batch != [] {
      var key := KeyFor(batch[0].iid, s.nextKey);
      if key in s.rows {
        BulkAddedKeepsInvariant(s, batch[1..]);
      } else {
        var s' := ItemsState(s.rows[key := batch[0].(iid := key)], NextAfter(s.nextKey, key));
        assert ItemsInvariant(s'.rows, s'.nextKey);
        BulkAddedKeepsInvariant(s', batch[1..]);
      }
    }
  }

  /** A batch of new items (none has a key yet) is stored whole under
      consecutive keys from the generator, in batch order. */
  lemma {:induction false} FreshBatchGetsConsecutiveKeys(s: ItemsState, batch: seq<ItemEntry>)
    requires ItemsInvariant(s.rows, s.nextKey)
    requires forall i :: 0 <= i < |batch| ==> batch[i].iid == 0
    ensures var (t, keys, ok) := BulkAdded(s, batch);
      ok && |keys| == |batch| && t.nextKey == s.nextKey + |batch|
      && (forall i :: 0 <= i < |batch| ==> keys[i] == s.nextKey + i)
      && (forall i :: 0 <= i < |batch| ==> keys[i] in t.rows && t.rows[keys[i]] == batch[i].(iid := keys[i]))
      && (forall k :: k in s.rows ==> k in t.rows && t.rows[k] == s.rows[k])
    decreases |batch|
  {
    if batch != [] {
      var key := s.nextKey;
      assert KeyFor(batch[0].iid, s.nextKey) == key;
      var s' := ItemsState(s.rows[key := batch[0].(iid := key)], key + 1);
      assert ItemsInvariant(s'.rows, s'.nextKey);
      FreshBatchGetsConsecutiveKeys(s', batch[1..]);
      var (t, keys', ok') := BulkAdded(s', batch[1..]);
      var keys := [key] + keys';
      assert BulkAdded(s, batch) == (t, keys, ok');
      forall i | 0 <= i < |batch|
        ensures keys[i] == s.nextKey + i
        ensures keys[i] in t.rows && t.rows[keys[i]] == batch[i].(iid := keys[i])
      {
        if i > 0 {
          assert batch[1..][i - 1] == batch[i];
          assert keys[i] == keys'[i - 1];
        } else {
          assert key in s'.rows;
        }
      }
    }
  }

  class ItemsTable {
    var rows: map<int, ItemEntry>
    var nextKey: int

    ghost predicate Valid()
      reads this
    {
      ItemsInvariant(rows, nextKey)
    }

    function State(): ItemsState
      reads this
    {
      ItemsState(rows, nextKey)
    }

    constructor ()
      ensures Valid() && rows == map[] && nextKey == 1
    {
      rows := map[];
      nextKey := 1;
    }

    method BulkAdd(batch: seq<ItemEntry>) returns (keys: seq<int>, ok: bool)
      requires Valid()
      modifies this
      ensures Valid()
      ensures (State(), keys, ok) == BulkAdded(old(State()), batch)
    {
      BulkAddedKeepsInvariant(State(), batch);
      ghost var goal := BulkAdded(State(), batch);
      keys, ok := [], true;
      var i := 0;
      assert batch[i..] == batch;
      assert keys + BulkAdded(State(), batch[i..]).1 == BulkAdded(State(), batch[i..]).1;
      while i < |batch|
        invariant 0 <= i <= |batch|
        invariant ItemsInvariant(rows, nextKey)
        invariant var res := BulkAdded(State(), batch[i..]);
          (res.0, keys + res.1, ok && res.2) == goal
      {
        var key := KeyFor(batch[i].iid, nextKey);
        assert batch[i..][1..] == batch[i + 1..];
        ghost var here := BulkAdded(State(), batch[i..]);
        if key in rows {
          ghost var rest := BulkAdded(State(), batch[i + 1..]);
          assert here == (rest.0, rest.1, false);
          ok := false;
        } else {
          ghost var after := ItemsState(rows[key := batch[i].(iid := key)], NextAfter(nextKey, key));
          ghost var rest := BulkAdded(after, batch[i + 1..]);
          assert here == (rest.0, [key] + rest.1, rest.2);
          assert keys + ([key] + rest.1) == (keys + [key]) + rest.1;
          rows := rows[key := batch[i].(iid := key)];
          nextKey := NextAfter(nextKey, key);
          keys := keys + [key];
        }
        i := i + 1;
      }
      assert batch[i..] == [];
      assert keys + BulkAdded(State(), batch[i..]).1 == keys;
    }

    method Clear()
      requires Valid()
      modifies this
      ensures Valid() && rows == map[] && nextKey == old(nextKey)
    {
      rows := map[];
    }
  }

  // ---------------------------------------------------------------------
  // migrateLovefieldSourcesDB

  /** The loop over the old rows, run inside one transaction: a row whose url
      is already stored is skipped, any other is added with the same fields;
      a refused add aborts the transaction. */
  function MigrateFrom(s: SourcesState, rest: seq<SourceEntry>): Result<SourcesState, DbError>
    decreases |rest|
  {
    if rest == [] then Ok(s)
    else if HasUrl(s.rows, rest[0].url) then MigrateFrom(s, rest[1..])
    else
      var (t, r) := AddSource(s, rest[0]);
      if r.Err? then Err(r.error) else MigrateFrom(t, rest[1..])
  }

  /** Migration never changes or removes a stored source, keeps urls unique,
      and afterwards every old row's url is stored; every new row is an old
      row stored under its own sid, or under a generated key when it had
      none. */
  lemma {:induction false} MigrateFromSpec(s: SourcesState, rest: seq<SourceEntry>)
    requires SourcesInvariant(s.rows, s.nextKey)
    ensures MigrateFrom(s, rest).Ok? ==> var t := MigrateFrom(s, rest).value;
      SourcesInvariant(t.rows, t.nextKey)
      && (forall k :: k in s.rows ==> k in t.rows && t.rows[k] == s.rows[k])
      && (forall e :: e in rest ==> HasUrl(t.rows, e.url))
      && (forall k :: k in t.rows && k !in s.rows ==> exists e :: e in rest && (e.sid == 0 || e.sid == k) && t.rows[k] == e.(sid := k))
    decreases |rest|
  {
    if rest != [] && MigrateFrom(s, rest).Ok? {
      var e := rest[0];
      var t := MigrateFrom(s, rest).value;
      if HasUrl(s.rows, e.url) {
        MigrateFromSpec(s, rest[1..]);
        var k :| k in s.rows && s.rows[k].url == e.url;
        assert t.rows[k] == s.rows[k];
        forall e' | e' in rest ensures HasUrl(t.rows, e'.url) {
          if e' != e { assert e' in rest[1..]; }
        }
        forall k' | k' in t.rows && k' !in s.rows ensures exists e' :: e' in rest && (e'.sid == 0 || e'.sid == k') && t.rows[k'] == e'.(sid := k') {
          var e' :| e' in rest[1..] && (e'.sid == 0 || e'.sid == k') && t.rows[k'] == e'.(sid := k');
          assert e' in rest;
        }
      } else {
        var (s', r) := AddSource(s, e);
        AddSourceKeepsInvariant(s, e);
        MigrateFromSpec(s', rest[1..]);
        var key := r.value;
        assert s'.rows[key].url == e.url;
        forall e' | e' in rest ensures HasUrl(t.rows, e'.url) {
          if e' != e { assert e' in rest[1..]; }
          else { assert t.rows[key].url == e.url; }
        }
        forall k' | k' in t.rows && k' !in s.rows ensures exists e' :: e' in rest && (e'.sid == 0 || e'.sid == k') && t.rows[k'] == e'.(sid := k') {
          if k' == key {
            assert t.rows[k'] == e.(sid := k');
          } else {
            var e' :| e' in rest[1..] && (e'.sid == 0 || e'.sid == k') && t.rows[k'] == e'.(sid := k');
            assert e' in rest;
          }
        }
      }
    }
  }

  /** An old row whose url repeats an earlier old row's is skipped rather
      than refused: old rows with one url migrate without error, and only
      the first is stored, under its own sid. */
  lemma RepeatedUrlIsSkipped(s: SourcesState, e: SourceEntry, f: SourceEntry)
    requires SourcesInvariant(s.rows, s.nextKey)
    requires e.url == f.url && !HasUrl(s.rows, e.url) && KeyFor(e.sid, s.nextKey) !in s.rows
    ensures MigrateFrom(s, [e, f]).Ok?
    ensures var k := KeyFor(e.sid, s.nextKey);
      MigrateFrom(s, [e, f]).value.rows == s.rows[k := e.(sid := k)]
  {
    var k := KeyFor(e.sid, s.nextKey);
    var (t, r) := AddSource(s, e);
    assert r.Ok?;
    assert t.rows[k].url == f.url;
    assert [e, f][1..] == [f];
    assert [f][1..] == [];
    assert MigrateFrom(t, [f]) == MigrateFrom(t, []);
    assert MigrateFrom(s, [e, f]) == MigrateFrom(t, [f]);
  }

  /** `migrateLovefieldSourcesDB(dbName, version)`: `databases` are the names
      `indexedDB.databases()` lists and `oldRows` the values of the old
      `sources` store. Answers whether a migration ran; on an error the
      transaction leaves the table as it was. */
  method MigrateLovefieldSourcesDb(dbName: string, databases: seq<string>, oldRows: seq<SourceEntry>,
                                   sources: SourcesTable)
    returns (r: Result<bool, DbError>)
    requires sources.Valid()
    modifies sources
    ensures sources.Valid()
    ensures dbName !in databases ==> r == Ok(false) && sources.State() == old(sources.State())
    ensures dbName in databases ==>
      match MigrateFrom(old(sources.State()), oldRows)
      case Ok(t) => r == Ok(true) && sources.State() == t
      case Err(e) => r == Err(e) && sources.State() == old(sources.State())
  {
    if dbName !in databases {
      return Ok(false);
    }
    var saved := sources.State();
    for i := 0 to |oldRows|
      invariant sources.Valid()
      invariant MigrateFrom(sources.State(), oldRows[i..]) == MigrateFrom(saved, oldRows)
    {
      var row := oldRows[i];
      assert oldRows[i..][1..] == oldRows[i + 1..];
      var present := sources.HasUrlQuery(row.url);
      if present {
        continue;
      }
      var newEntry := SourceEntry(row.sid, row.url, row.iconurl, row.name, row.openTarget, row.lastFetched,
                                  row.serviceRef, row.fetchFrequency, row.rules, row.textDir, row.hidden);
      var added := sources.Add(newEntry);
      if added.Err? {
        sources.rows, sources.nextKey := saved.rows, saved.nextKey;
        return Err(added.error);
      }
    }
    return Ok(true);
  }
}
