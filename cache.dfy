/**
 * callisto-util-cache: the SQLite store of items already reported, keyed by
 * item id and task name, and of per-task settings.
 *
 * The database's tables are the fields of `Store`. SQL, the file itself and
 * JSON (de)serialisation of settings are not modelled: settings are kept as
 * the text stored in the `data` column.
 */
module Cache {
  import opened Wrappers

  /** The primary key of `cached_items`. */
  datatype CacheKey = CacheKey(id: string, task: string)

  /** The rest of a `cached_items` row; `added` is the `added` column (`None` is SQL null). */
  datatype Row = Row(title: string, added: Option<nat>)

  /** An item a task scraped: its id, its title and the rest of its data. */
  datatype Item<D> = Item(id: string, title: string, data: D)

  const CachedItemsTable := "cached_items"
  const SettingsTable := "settings"

  /** `dbPath`: where the database of a base directory lives. */
  function DbPath(base: string): (p: string)
    ensures |p| == |base| + 10 && p[..|base|] == base && p[|base|..] == "/db.sqlite"
  {
    base + "/db.sqlite"
  }

  /**
   * `dbInit` on a file that already holds the tables `existing`. A file
   * with `cached_items` is left alone; otherwise both tables are created,
   * independently of each other, so `cached_items` is created even when
   * `settings` already exists and its creation fails.
   */
  function InitTables(existing: set<string>): (r: (set<string>, bool))
    ensures CachedItemsTable in r.0 && existing <= r.0
    ensures CachedItemsTable in existing ==> r == (existing, false)
    ensures CachedItemsTable !in existing ==>
      r.0 == existing + {CachedItemsTable, SettingsTable} && (r.1 <==> SettingsTable in existing)
  {
    if CachedItemsTable in existing then (existing, false)
    else (existing + {CachedItemsTable, SettingsTable}, SettingsTable in existing)
  }

  /** The items of `items`, in order, whose id has not been cached for `task`. */
  function Unseen<D>(cached: map<CacheKey, Row>, task: string, items: seq<Item<D>>): (r: seq<Item<D>>)
    ensures |r| <= |items|
  {
    if |items| == 0 then []
    else (if CacheKey(items[0].id, task) in cached then [] else [items[0]]) + Unseen(cached, task, items[1..])
  }

  /** One `insert`: a key already present makes the statement fail and keeps the first row. */
  function Insert<D>(cached: map<CacheKey, Row>, task: string, item: Item<D>): map<CacheKey, Row>
  {
    var key := CacheKey(item.id, task);
    if key in cached then cached else cached[key := Row(item.title, None)]
  }

  /** The table after inserting `items` one by one, in order. */
  function Inserted<D>(cached: map<CacheKey, Row>, task: string, items: seq<Item<D>>): map<CacheKey, Row>
    decreases |items|
  {
    if |items| == 0 then cached else Inserted(Insert(cached, task, items[0]), task, items[1..])
  }

  /** The keys a batch of items of `task` has. */
  function Keys<D>(task: string, items: seq<Item<D>>): set<CacheKey>
  {
    set j | 0 <= j < |items| :: CacheKey(items[j].id, task)
  }

  /** An item is kept exactly when it is in the batch and its key is not cached. */
  lemma {:induction false} UnseenMembers<D>(cached: map<CacheKey, Row>, task: string, items: seq<Item<D>>, x: Item<D>)
    ensures x in Unseen(cached, task, items) <==> x in items && CacheKey(x.id, task) !in cached
  {
    if items != [] {
      UnseenMembers(cached, task, items[1..], x);
      assert items == [items[0]] + items[1..];
    }
  }

  /** Filtering commutes with concatenation, so the order of the batch is kept. */
  lemma {:induction false} UnseenConcat<D>(cached: map<CacheKey, Row>, task: string, a: seq<Item<D>>, b: seq<Item<D>>)
    ensures Unseen(cached, task, a + b) == Unseen(cached, task, a) + Unseen(cached, task, b)
  {
    if a == [] {
      assert a + b == b;
    } else {
      assert (a + b)[1..] == a[1..] + b;
      UnseenConcat(cached, task, a[1..], b);
    }
  }

  /** Filtering twice is filtering once. */
  lemma {:induction false} UnseenIdempotent<D>(cached: map<CacheKey, Row>, task: string, items: seq<Item<D>>)
    ensures Unseen(cached, task, Unseen(cached, task, items)) == Unseen(cached, task, items)
  {
    if items != [] {
      var head := if CacheKey(items[0].id, task) in cached then [] else [items[0]];
      UnseenConcat(cached, task, head, Unseen(cached, task, items[1..]));
      UnseenIdempotent(cached, task, items[1..]);
      if head != [] {
        assert head[1..] == [];
      }
    }
  }

  /** Inserting a batch adds a row for every new key, keeps every old row and sets no `added` value. */
  lemma {:induction false} InsertedRows<D>(cached: map<CacheKey, Row>, task: string, items: seq<Item<D>>)
    ensures Inserted(cached, task, items).Keys == cached.Keys + Keys(task, items)
    ensures forall k :: k in cached ==> Inserted(cached, task, items)[k] == cached[k]
    ensures forall k :: k in Inserted(cached, task, items) && k !in cached ==>
      Inserted(cached, task, items)[k].added == None
    decreases |items|
  {
    if items != [] {
      InsertedRows(Insert(cached, task, items[0]), task, items[1..]);
      assert items == [items[0]] + items[1..];
      assert Keys(task, items) == {CacheKey(items[0].id, task)} + Keys(task, items[1..]);
    }
  }

  /** Inserting one item after a batch is inserting the longer batch. */
  lemma {:induction false} InsertedSnoc<D>(cached: map<CacheKey, Row>, task: string, items: seq<Item<D>>, x: Item<D>)
    ensures Inserted(cached, task, items + [x]) == Insert(Inserted(cached, task, items), task, x)
    decreases |items|
  {
    if items == [] {
      assert items + [x] == [x];
    } else {
      assert (items + [x])[1..] == items[1..] + [x];
      InsertedSnoc(Insert(cached, task, items[0]), task, items[1..], x);
    }
  }

  /** A batch whose every key is cached has nothing new. */
  lemma {:induction false} UnseenAllCached<D>(cached: map<CacheKey, Row>, task: string, items: seq<Item<D>>)
    requires forall j :: 0 <= j < |items| ==> CacheKey(items[j].id, task) in cached
    ensures Unseen(cached, task, items) == []
  {
    if |items| > 0 {
      UnseenAllCached(cached, task, items[1..]);
    }
  }

  /** Once a batch has been cached, filtering it again for the same task leaves nothing. */
  lemma CachedBatchIsSeen<D>(cached: map<CacheKey, Row>, task: string, items: seq<Item<D>>)
    ensures Unseen(Inserted(cached, task, items), task, items) == []
  {
    InsertedRows(cached, task, items);
    assert forall j :: 0 <= j < |items| ==> CacheKey(items[j].id, task) in Keys(task, items);
    UnseenAllCached(Inserted(cached, task, items), task, items);
  }

  /** Caching items of one task does not change what is new for another. */
  lemma TasksAreSeparate<D>(cached: map<CacheKey, Row>, task: string, other: string, items: seq<Item<D>>, batch: seq<Item<D>>)
    requires task != other
    ensures Unseen(Inserted(cached, task, items), other, batch) == Unseen(cached, other, batch)
  {
    InsertedRows(cached, task, items);
    UnseenOnlyReadsTask(cached, Inserted(cached, task, items), other, batch);
  }

  /** Filtering for a task only looks at that task's keys. */
  lemma {:induction false} UnseenOnlyReadsTask<D>(c1: map<CacheKey, Row>, c2: map<CacheKey, Row>, task: string, items: seq<Item<D>>)
    requires forall id :: CacheKey(id, task) in c1 <==> CacheKey(id, task) in c2
    ensures Unseen(c1, task, items) == Unseen(c2, task, items)
  {
    if items != [] {
      UnseenOnlyReadsTask(c1, c2, task, items[1..]);
    }
  }

  /**
   * Caching only the new items of a batch leaves the table exactly as
   * caching the whole batch would: the usual `removeCached` then
   * `cacheItems` sequence loses nothing and adds nothing.
   */
  lemma CacheUnseenIsCacheAll<D>(cached: map<CacheKey, Row>, task: string, items: seq<Item<D>>)
    ensures Inserted(cached, task, Unseen(cached, task, items)) == Inserted(cached, task, items)
  {
    InsertUnseenFrom(cached, cached, task, items);
  }

  lemma {:induction false} InsertUnseenFrom<D>(cached: map<CacheKey, Row>, table: map<CacheKey, Row>, task: string, items: seq<Item<D>>)
    requires cached.Keys <= table.Keys
    ensures Inserted(table, task, Unseen(cached, task, items)) == Inserted(table, task, items)
    decreases |items|
  {
    if items != [] {
      var key := CacheKey(items[0].id, task);
      var rest := Unseen(cached, task, items[1..]);
      if key in cached {
        assert Unseen(cached, task, items) == rest;
        InsertUnseenFrom(cached, table, task, items[1..]);
      } else {
        assert Unseen(cached, task, items) == [items[0]] + rest;
        assert ([items[0]] + rest)[1..] == rest;
        InsertUnseenFrom(cached, Insert(table, task, items[0]), task, items[1..]);
      }
    }
  }

  /** The database: its tables and the rows of `cached_items` and `settings`. */
  class Store {
    var path: string
    var tables: set<string>
    var cached: map<CacheKey, Row>
    var settings: map<string, string>

    /** A database file holding these tables and rows. */
    constructor (tables: set<string>, cached: map<CacheKey, Row>, settings: map<string, string>)
      ensures this.path == "" && this.tables == tables && this.cached == cached && this.settings == settings
    {
      this.path := "";
      this.tables := tables;
      this.cached := cached;
      this.settings := settings;
    }

    /** `dbInit`: opens the database under `basePath` and creates the tables when it is new. */
    method DbInit(basePath: string) returns (createFailed: bool)
      modifies this
      ensures path == DbPath(basePath)
      ensures (tables, createFailed) == InitTables(old(tables))
      ensures cached == old(cached) && settings == old(settings)
    {
      path := DbPath(basePath);
      var hasCachedItems := CachedItemsTable in tables;
      createFailed := false;
      if !hasCachedItems {
        createFailed := SettingsTable in tables;
        tables := tables + {CachedItemsTable, SettingsTable};
      }
    }

    /** `removeCached`: the items of the batch not yet reported for `task`, in their order. */
    method RemoveCached<D>(task: string, items: seq<Item<D>>) returns (newItems: seq<Item<D>>)
      ensures newItems == Unseen(cached, task, items)
      ensures forall x :: x in newItems <==> x in items && CacheKey(x.id, task) !in cached
    {
      if |items| == 0 {
        newItems := [];
      } else {
        // The query: the ids of the batch that have a row for this task.
        var seenIDs: seq<string> := [];
        for k := 0 to |items|
          invariant forall id :: id in seenIDs <==>
            (exists j :: 0 <= j < k && items[j].id == id) && CacheKey(id, task) in cached
        {
          if CacheKey(items[k].id, task) in cached {
            seenIDs := seenIDs + [items[k].id];
          }
        }
        newItems := [];
        for k := 0 to |items|
          invariant newItems == Unseen(cached, task, items[..k])
        {
          UnseenConcat(cached, task, items[..k], [items[k]]);
          assert items[..k + 1] == items[..k] + [items[k]];
          if items[k].id !in seenIDs {
            newItems := newItems + [items[k]];
          }
        }
        assert items[..|items|] == items;
      }
      forall x ensures x in newItems <==> x in items && CacheKey(x.id, task) !in cached {
        UnseenMembers(cached, task, items, x);
      }
    }

    /** `cacheItems`: inserts a row per item, the title kept and `added` set to null. */
    method CacheItems<D>(task: string, items: seq<Item<D>>)
      modifies this
      ensures cached == Inserted(old(cached), task, items)
      ensures path == old(path) && tables == old(tables) && settings == old(settings)
    {
      if |items| == 0 {
        return;
      }
      for k := 0 to |items|
        invariant cached == Inserted(old(cached), task, items[..k])
        invariant path == old(path) && tables == old(tables) && settings == old(settings)
      {
        InsertedSnoc(old(cached), task, items[..k], items[k]);
        assert items[..k + 1] == items[..k] + [items[k]];
        var key := CacheKey(items[k].id, task);
        if key !in cached {
          cached := cached[key := Row(items[k].title, None)];
        }
      }
      assert items[..|items|] == items;
    }

    /** `getSettings`: the stored settings text, storing and returning `{}` when there is none. */
    method GetSettings(identifier: string) returns (data: string)
      modifies this
      ensures identifier in old(settings) ==> data == old(settings)[identifier] && settings == old(settings)
      ensures identifier !in old(settings) ==> data == "{}" && settings == old(settings)[identifier := "{}"]
      ensures identifier in settings && settings[identifier] == data
      ensures path == old(path) && tables == old(tables) && cached == old(cached)
    {
      if identifier !in settings {
        SaveSettings(identifier, "{}");
        return "{}";
      }
      data := settings[identifier];
    }

    /** `saveSettings`: replaces the settings of `identifier`. */
    method SaveSettings(identifier: string, data: string)
      modifies this
      ensures settings == old(settings)[identifier := data]
      ensures path == old(path) && tables == old(tables) && cached == old(cached)
    {
      settings := settings[identifier := data];
    }
  }
}
