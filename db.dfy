/** The library store of m_db.js: the `ebooks` object store of the IndexedDB
    database in `ctx.db`, used as a map from book id to record, and the
    reading positions in `localStorage` that a delete clears.

    Each promise-returning function is one sequential step here; a rejection
    is an `Err`/`Fail` result. Every operation but `clearDB` rejects with
    'DB not initialized' while `ctx.db` is null. */
module Db {
  import opened Common
  import opened Context

  datatype DbError = DbNotInitialized

  /** `list` holds exactly the records of `store`: every entry is a stored
      record, every key is listed, and there are as many entries as keys, so
      each record appears once. */
  ghost predicate ListsStore(list: seq<BookRecord>, store: map<string, BookRecord>)
  {
    && |list| == |store|
    && (forall i :: 0 <= i < |list| ==> list[i].id in store && store[list[i].id] == list[i])
    && (forall k :: k in store ==> exists i :: 0 <= i < |list| && list[i].id == k)
  }

  /** Reordering a listing of the store is still a listing of it. */
  lemma ListsStorePermutation(a: seq<BookRecord>, b: seq<BookRecord>, store: map<string, BookRecord>)
    requires ListsStore(a, store) && multiset(a) == multiset(b)
    ensures ListsStore(b, store)
  {
    assert |b| == |multiset(b)| == |multiset(a)| == |a|;
    forall i | 0 <= i < |b| ensures b[i].id in store && store[b[i].id] == b[i] {
      assert b[i] in multiset(a);
      var p :| 0 <= p < |a| && a[p] == b[i];
    }
    forall k | k in store ensures exists j :: 0 <= j < |b| && b[j].id == k {
      var i :| 0 <= i < |a| && a[i].id == k;
      assert a[i] in multiset(b);
      var j :| 0 <= j < |b| && b[j] == a[i];
    }
  }

  /** saveBookToDB: an upsert keyed by the record's id. */
  method SaveBook(ctx: Ctx, record: BookRecord) returns (res: Outcome<DbError>)
    requires ctx.Valid()
    modifies ctx.db
    ensures ctx.Valid()
    ensures ctx.db == null ==> res == Fail(DbNotInitialized)
    ensures ctx.db != null ==> res == Pass && ctx.db.ebooks == old(ctx.db.ebooks)[record.id := record]
  {
    if ctx.db == null {
      return Fail(DbNotInitialized);
    }
    ctx.db.ebooks := ctx.db.ebooks[record.id := record];
    res := Pass;
  }

  /** getBookFromDB: the stored record, or nothing when the id is absent. */
  method GetBook(ctx: Ctx, id: string) returns (res: Result<Option<BookRecord>, DbError>)
    ensures ctx.db == null ==> res == Err(DbNotInitialized)
    ensures ctx.db != null ==> res.Ok?
    ensures ctx.db != null ==> (res.value.Some? <==> id in ctx.db.ebooks)
    ensures ctx.db != null && res.value.Some? ==> res.value.value == ctx.db.ebooks[id]
  {
    if ctx.db == null {
      return Err(DbNotInitialized);
    }
    if id in ctx.db.ebooks {
      res := Ok(Some(ctx.db.ebooks[id]));
    } else {
      res := Ok(None);
    }
  }

  /** getAllBooksFromDB: every stored record exactly once. IndexedDB hands
      them out in key order; the model promises no order. */
  method GetAllBooks(ctx: Ctx) returns (res: Result<seq<BookRecord>, DbError>)
    requires ctx.Valid()
    ensures ctx.db == null ==> res == Err(DbNotInitialized)
    ensures ctx.db != null ==> res.Ok? && ListsStore(res.value, ctx.db.ebooks)
    ensures res.Ok? ==> forall i, j :: 0 <= i < j < |res.value| ==> res.value[i].id != res.value[j].id
  {
    if ctx.db == null {
      return Err(DbNotInitialized);
    }
    var store := ctx.db.ebooks;
    var remaining := store.Keys;
    var list: seq<BookRecord> := [];
    while remaining != {}
      invariant PartialListing(list, store, remaining)
      decreases remaining
    {
      var k :| k in remaining;
      ListOneMore(store, list, remaining, k);
      list := list + [store[k]];
      remaining := remaining - {k};
    }
    ListingComplete(list, store);
    res := Ok(list);
  }

  /** The loop state of getAll: `list` holds, once each, the records of the
      keys not `remaining`. */
  ghost predicate PartialListing(list: seq<BookRecord>, store: map<string, BookRecord>, remaining: set<string>)
  {
    && remaining <= store.Keys
    && (forall k :: k in store ==> store[k].id == k)
    && (forall i :: 0 <= i < |list| ==> list[i].id in store && store[list[i].id] == list[i])
    && (forall i :: 0 <= i < |list| ==> list[i].id !in remaining)
    && (forall i, j :: 0 <= i < j < |list| ==> list[i].id != list[j].id)
    && (forall k :: k in store && k !in remaining ==> exists i :: 0 <= i < |list| && list[i].id == k)
    && |list| + |remaining| == |store.Keys|
  }

  /** Listing the record of one more remaining key keeps the loop state. */
  lemma ListOneMore(store: map<string, BookRecord>, list: seq<BookRecord>, remaining: set<string>, k: string)
    requires PartialListing(list, store, remaining) && k in remaining
    ensures PartialListing(list + [store[k]], store, remaining - {k})
  {
    var after := list + [store[k]];
    assert store[k].id == k;
    forall k' | k' in store && k' !in remaining - {k}
      ensures exists i :: 0 <= i < |after| && after[i].id == k'
    {
      if k' == k {
        assert after[|list|].id == k';
      } else {
        var i :| 0 <= i < |list| && list[i].id == k';
        assert after[i].id == k';
      }
    }
  }

  /** With no key remaining, the list is a listing of the store. */
  lemma ListingComplete(list: seq<BookRecord>, store: map<string, BookRecord>)
    requires PartialListing(list, store, {})
    ensures ListsStore(list, store)
    ensures forall i, j :: 0 <= i < j < |list| ==> list[i].id != list[j].id
  {
    assert |store.Keys| == |store|;
  }

  /** deleteBookFromDB: removes the record and its reading position; deleting
      an absent id succeeds and changes nothing in the store. */
  method DeleteBook(ctx: Ctx, ls: LocalStorage, id: string) returns (res: Outcome<DbError>)
    requires ctx.Valid()
    modifies ctx.db, ls
    ensures ctx.Valid()
    ensures ls.settingsEntry == old(ls.settingsEntry)
    ensures ctx.db == null ==> res == Fail(DbNotInitialized) && ls.items == old(ls.items)
    ensures ctx.db != null ==> res == Pass && ctx.db.ebooks == old(ctx.db.ebooks) - {id}
    ensures ctx.db != null ==> ls.items == old(ls.items) - {LocationKey(id)}
  {
    if ctx.db == null {
      return Fail(DbNotInitialized);
    }
    ctx.db.ebooks := ctx.db.ebooks - {id};
    ls.items := ls.items - {LocationKey(id)};
    res := Pass;
  }

  /** clearDB: empties the store and leaves `localStorage` alone; without a
      database it resolves and does nothing. */
  method ClearDb(ctx: Ctx) returns (res: Outcome<DbError>)
    requires ctx.Valid()
    modifies ctx.db
    ensures ctx.Valid() && res == Pass
    ensures ctx.db != null ==> ctx.db.ebooks == map[]
  {
    if ctx.db != null {
      ctx.db.ebooks := map[];
    }
    res := Pass;
  }

  /** Saving a record whose id is already stored replaces it: the number of
      records stays the same. Saving a new id adds exactly one. */
  lemma {:induction false} UpsertSize(store: map<string, BookRecord>, record: BookRecord)
    ensures record.id in store ==> |store[record.id := record]| == |store|
    ensures record.id !in store ==> |store[record.id := record]| == |store| + 1
  {
    var after := store[record.id := record];
    if record.id in store {
      assert after.Keys == store.Keys;
    } else {
      assert after.Keys == store.Keys + {record.id};
    }
  }
}
