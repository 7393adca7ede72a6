/** The library and reading session of m_reader.js: importing files, opening
    a stored book, the order of the library and history lists, the table of
    contents and the chapter label, and deleting a book.

    FileReader and epub.js are outside the model: each selected file comes
    with what reading it produced and, for an epub, what parsing it produced.
    Timestamps are a parameter `now`. A confirmation dialog is the boolean
    `confirmed`; `window.location.reload()` is the outcome `Reloaded`. */
module Reader {
  import opened Common
  import opened Context
  import opened Db
  import Ui

  // ---------------------------------------------------------------------
  // Book ids

  /** The template `${file.name}-${file.size}`. */
  function BookId(name: string, size: nat): (id: string)
    ensures StartsWith(id, name) && EndsWith(id, "-" + Decimal(size))
  {
    assert (name + "-" + Decimal(size))[..|name|] == name;
    name + "-" + Decimal(size)
  }

  /** The number of digits at the end of `s`. */
  function DigitSuffixLength(s: string): (n: nat)
    ensures n <= |s|
  {
    if s != [] && IsDigit(s[|s| - 1]) then 1 + DigitSuffixLength(s[..|s| - 1]) else 0
  }

  /** In `name-digits` the digits are exactly the digit suffix. */
  lemma {:induction false} DigitSuffixOfId(name: string, digits: string)
    requires forall i :: 0 <= i < |digits| ==> IsDigit(digits[i])
    ensures DigitSuffixLength(name + "-" + digits) == |digits|
  {
    var s := name + "-" + digits;
    if digits != [] {
      var shorter := digits[..|digits| - 1];
      assert s[..|s| - 1] == name + "-" + shorter;
      DigitSuffixOfId(name, shorter);
    }
  }

  /** Different (name, size) pairs give different ids, so only a file with the
      same name and size can overwrite a stored book. */
  lemma BookIdInjective(name1: string, size1: nat, name2: string, size2: nat)
    requires BookId(name1, size1) == BookId(name2, size2)
    ensures name1 == name2 && size1 == size2
  {
    var id := BookId(name1, size1);
    var d1, d2 := Decimal(size1), Decimal(size2);
    DigitSuffixOfId(name1, d1);
    DigitSuffixOfId(name2, d2);
    assert |name1| == |name2|;
    assert name1 == id[..|name1|] == name2;
    assert d1 == id[|name1| + 1..] == d2;
    DecimalInjective(size1, size2);
  }

  // ---------------------------------------------------------------------
  // Importing files

  /** `file.name.toLowerCase().endsWith('.txt')`. */
  predicate IsTxtName(name: string)
  {
    EndsWith(Lower(name), ".txt")
  }

  /** `file.name.toLowerCase().endsWith('.epub')`. */
  predicate IsEpubName(name: string)
  {
    EndsWith(Lower(name), ".epub")
  }

  /** What FileReader delivered: the decoded text for a `.txt` name, the raw
      bytes otherwise. */
  datatype ReadResult = ReadError | Loaded(text: string, bytes: seq<bv8>)

  /** What epub.js made of the bytes: the package metadata and the cover as a
      data URL (`None` when there is no cover or it could not be fetched). */
  datatype EpubResult = ParseError | Parsed(metadata: Metadata, cover: Option<string>)

  datatype FileInput = FileInput(name: string, size: nat, read: ReadResult, epub: EpubResult)

  /** What becomes of one selected file once the database is open: a record
      to save, counted as imported with nothing saved (an unknown
      extension), or an error. */
  datatype FileOutcome = Store(record: BookRecord) | CountOnly | Error

  function FileOutcomeOf(f: FileInput, now: int): (o: FileOutcome)
    ensures o.Error? <==> f.read.ReadError? || (!IsTxtName(f.name) && IsEpubName(f.name) && f.epub.ParseError?)
    ensures o.CountOnly? <==> f.read.Loaded? && !IsTxtName(f.name) && !IsEpubName(f.name)
    ensures o.Store? ==> o.record.id == BookId(f.name, f.size) && o.record.lastOpened == now
    ensures o.Store? && IsTxtName(f.name)
            ==> o.record == BookRecord(BookId(f.name, f.size), f.name, TextContent(f.read.text), Txt, now, None, None)
    ensures o.Store? && !IsTxtName(f.name)
            ==> && o.record.bookType == Epub
                && o.record.fileData == BinaryContent(f.read.bytes)
                && o.record.metadata == Some(f.epub.metadata)
                && o.record.coverUrl == f.epub.cover
                && o.record.title == (if f.epub.metadata.title != [] then f.epub.metadata.title else f.name)
  {
    var id := BookId(f.name, f.size);
    if f.read.ReadError? then Error
    else if IsTxtName(f.name) then
      Store(BookRecord(id, f.name, TextContent(f.read.text), Txt, now, None, None))
    else if IsEpubName(f.name) then
      if f.epub.ParseError? then Error
      else
        var md := f.epub.metadata;
        Store(BookRecord(id, if md.title != [] then md.title else f.name, BinaryContent(f.read.bytes),
                         Epub, now, f.epub.cover, Some(md)))
    else CountOnly
  }

  /** The store after importing `files` one after the other. */
  function StoreAfter(store: map<string, BookRecord>, files: seq<FileInput>, now: int): map<string, BookRecord>
  {
    if files == [] then store
    else
      var before := StoreAfter(store, files[..|files| - 1], now);
      var o := FileOutcomeOf(files[|files| - 1], now);
      if o.Store? then before[o.record.id := o.record] else before
  }

  /** `importCount`: files saved or skipped without an error. */
  function ImportedCount(files: seq<FileInput>, now: int): (n: nat)
    ensures n <= |files|
  {
    if files == [] then 0
    else ImportedCount(files[..|files| - 1], now) + (if FileOutcomeOf(files[|files| - 1], now).Error? then 0 else 1)
  }

  /** `errorCount`: files that could not be read, parsed or saved. */
  function ErrorCount(files: seq<FileInput>, now: int): (n: nat)
    ensures n <= |files|
  {
    if files == [] then 0
    else ErrorCount(files[..|files| - 1], now) + (if FileOutcomeOf(files[|files| - 1], now).Error? then 1 else 0)
  }

  /** Every file is counted exactly once, as imported or as an error. */
  lemma {:induction false} CountsAddUp(files: seq<FileInput>, now: int)
    ensures ImportedCount(files, now) + ErrorCount(files, now) == |files|
  {
    if files != [] {
      CountsAddUp(files[..|files| - 1], now);
    }
  }

  /** A batch of a file with another extension, an epub that fails to parse
      and a text file counts two imports and one error: the file with the
      other extension is counted as imported although nothing is saved. */
  lemma UnknownExtensionIsCounted(other: FileInput, broken: FileInput, text: FileInput, now: int)
    requires other.read.Loaded? && !IsTxtName(other.name) && !IsEpubName(other.name)
    requires broken.read.Loaded? && IsEpubName(broken.name) && !IsTxtName(broken.name) && broken.epub.ParseError?
    requires text.read.Loaded? && IsTxtName(text.name)
    ensures ImportedCount([other, broken, text], now) == 2
    ensures ErrorCount([other, broken, text], now) == 1
  {
    var files := [other, broken, text];
    assert FileOutcomeOf(other, now).CountOnly? && FileOutcomeOf(broken, now).Error?;
    assert !FileOutcomeOf(text, now).Error?;
    ImportStep(map[], files, 0, now);
    ImportStep(map[], files, 1, now);
    ImportStep(map[], files, 2, now);
    assert files[..0] == [] && files[..3] == files;
  }

  /** Every record is stored under its own id, as the key path requires. */
  predicate KeyedById(store: map<string, BookRecord>)
  {
    forall k :: k in store ==> store[k].id == k
  }

  /** Importing keeps every record under its own id. */
  lemma {:induction false} StoreAfterKeyedById(store: map<string, BookRecord>, files: seq<FileInput>, now: int)
    requires KeyedById(store)
    ensures KeyedById(StoreAfter(store, files, now))
  {
    if files != [] {
      StoreAfterKeyedById(store, files[..|files| - 1], now);
    }
  }

  /** Importing a file with the same name and size as an earlier one in the
      same selection replaces the earlier record instead of adding one. */
  lemma SameFileReplaces(store: map<string, BookRecord>, f: FileInput, g: FileInput, now: int)
    requires f.name == g.name && f.size == g.size
    requires FileOutcomeOf(f, now).Store? && FileOutcomeOf(g, now).Store?
    ensures var id := BookId(f.name, f.size);
            StoreAfter(store, [f, g], now) == store[id := FileOutcomeOf(g, now).record]
    ensures |StoreAfter(store, [f, g], now)| == |StoreAfter(store, [f], now)|
  {
    assert [f, g][..1] == [f];
    assert [f][..0] == [];
    var r := FileOutcomeOf(f, now).record;
    var q := FileOutcomeOf(g, now).record;
    assert StoreAfter(store, [f], now) == store[r.id := r];
    assert StoreAfter(store, [f, g], now) == store[r.id := r][q.id := q];
    assert r.id == q.id;
    UpsertSize(store[r.id := r], q);
  }

  /** Importing one more file: how the counts and the store move on. */
  lemma ImportStep(store: map<string, BookRecord>, files: seq<FileInput>, i: nat, now: int)
    requires i < |files|
    ensures var o := FileOutcomeOf(files[i], now);
            && ImportedCount(files[..i + 1], now) == ImportedCount(files[..i], now) + (if o.Error? then 0 else 1)
            && ErrorCount(files[..i + 1], now) == ErrorCount(files[..i], now) + (if o.Error? then 1 else 0)
            && StoreAfter(store, files[..i + 1], now)
               == (if o.Store? then StoreAfter(store, files[..i], now)[o.record.id := o.record]
                   else StoreAfter(store, files[..i], now))
  {
    assert files[..i + 1][..i] == files[..i];
  }

  datatype ImportOutcome =
    | NothingSelected
    | Imported(imported: nat, errors: nat, listed: seq<BookRecord>)
    | ListingFailed(error: DbError)

  /** The body of `reader.onload`/`reader.onerror` for one file: whether it
      counts as imported. Without a database every save fails. */
  method ImportOne(ctx: Ctx, f: FileInput, now: int) returns (counted: bool)
    requires ctx.Valid()
    modifies ctx.db
    ensures ctx.Valid()
    ensures ctx.db == null ==> counted == FileOutcomeOf(f, now).CountOnly?
    ensures ctx.db != null ==> counted == !FileOutcomeOf(f, now).Error?
    ensures ctx.db != null ==> ctx.db.ebooks == (var o := FileOutcomeOf(f, now);
                                                 if o.Store? then old(ctx.db.ebooks)[o.record.id := o.record]
                                                 else old(ctx.db.ebooks))
  {
    var o := FileOutcomeOf(f, now);
    if o.Error? {
      return false;
    }
    if o.CountOnly? {
      return true;
    }
    var saved := SaveBook(ctx, o.record);
    counted := saved.Pass?;
  }

  /** handleFileSelect: each file in turn, then the refreshed library. An
      empty selection does nothing. Without a database the refresh rejects
      and the summary is never shown. */
  method ImportFiles(ctx: Ctx, files: seq<FileInput>, now: int) returns (out: ImportOutcome)
    requires ctx.Valid()
    modifies ctx.db
    ensures ctx.Valid()
    ensures files == [] ==> out == NothingSelected
    ensures ctx.db != null ==> ctx.db.ebooks == StoreAfter(old(ctx.db.ebooks), files, now)
    ensures files != [] && ctx.db == null ==> out == ListingFailed(DbNotInitialized)
    ensures files != [] && ctx.db != null
            ==> && out.Imported?
                && out.imported == ImportedCount(files, now)
                && out.errors == ErrorCount(files, now)
                && ListsStore(out.listed, ctx.db.ebooks)
                && InLibraryOrder(out.listed, ctx.settings.sortOrder)
  {
    if files == [] {
      return NothingSelected;
    }
    ghost var before := if ctx.db != null then ctx.db.ebooks else map[];
    var importCount, errorCount := 0, 0;
    var i := 0;
    while i < |files|
      invariant 0 <= i <= |files| && ctx.Valid()
      invariant ctx.db != null ==> importCount == ImportedCount(files[..i], now)
      invariant ctx.db != null ==> errorCount == ErrorCount(files[..i], now)
      invariant ctx.db != null ==> ctx.db.ebooks == StoreAfter(before, files[..i], now)
    {
      ImportStep(before, files, i, now);
      var counted := ImportOne(ctx, files[i], now);
      if counted {
        importCount := importCount + 1;
      } else {
        errorCount := errorCount + 1;
      }
      i := i + 1;
    }
    assert files[..i] == files;
    var listed := DisplayImportedFiles(ctx);
    if listed.Err? {
      return ListingFailed(listed.error);
    }
    out := Imported(importCount, errorCount, listed.value);
  }

  // ---------------------------------------------------------------------
  // The order of the library and history lists

  datatype SortKey = ByLastOpened | ByTitleAsc | ByTitleDesc

  /** The `sortOrder` values the library list recognises. */
  function SortKeyOf(sortOrder: string): (k: Option<SortKey>)
    ensures k.Some? <==> sortOrder in {"lastOpened", "title-asc", "title-desc"}
  {
    if sortOrder == "lastOpened" then Some(ByLastOpened)
    else if sortOrder == "title-asc" then Some(ByTitleAsc)
    else if sortOrder == "title-desc" then Some(ByTitleDesc)
    else None
  }

  /** The title order: lexicographic on characters, standing for
      `localeCompare(…, 'vi')`. */
  predicate TitleLe(a: string, b: string)
  {
    a == [] || (b != [] && (a[0] < b[0] || (a[0] == b[0] && TitleLe(a[1..], b[1..]))))
  }

  lemma {:induction false} TitleLeTotal(a: string, b: string)
    ensures TitleLe(a, b) || TitleLe(b, a)
  {
    if a != [] && b != [] && a[0] == b[0] {
      TitleLeTotal(a[1..], b[1..]);
    }
  }

  lemma {:induction false} TitleLeTransitive(a: string, b: string, c: string)
    requires TitleLe(a, b) && TitleLe(b, c)
    ensures TitleLe(a, c)
  {
    if a != [] && b != [] && c != [] && a[0] == b[0] == c[0] {
      TitleLeTransitive(a[1..], b[1..], c[1..]);
    }
  }

  /** `a` may come before `b`: newest first, or by title either way. */
  predicate InOrder(key: SortKey, a: BookRecord, b: BookRecord)
  {
    match key
    case ByLastOpened => a.lastOpened >= b.lastOpened
    case ByTitleAsc => TitleLe(a.title, b.title)
    case ByTitleDesc => TitleLe(b.title, a.title)
  }

  lemma InOrderTotal(key: SortKey, a: BookRecord, b: BookRecord)
    ensures InOrder(key, a, b) || InOrder(key, b, a)
  {
    TitleLeTotal(a.title, b.title);
  }

  lemma InOrderTransitive(key: SortKey, a: BookRecord, b: BookRecord, c: BookRecord)
    requires InOrder(key, a, b) && InOrder(key, b, c)
    ensures InOrder(key, a, c)
  {
    match key
    case ByLastOpened =>
    case ByTitleAsc => TitleLeTransitive(a.title, b.title, c.title);
    case ByTitleDesc => TitleLeTransitive(c.title, b.title, a.title);
  }

  predicate Sorted(key: SortKey, s: seq<BookRecord>)
  {
    forall i, j :: 0 <= i < j < |s| ==> InOrder(key, s[i], s[j])
  }

  /** A sorted list stays sorted with an element in front that may precede
      all of it. */
  lemma SortedCons(key: SortKey, x: BookRecord, s: seq<BookRecord>)
    requires Sorted(key, s) && forall y :: y in s ==> InOrder(key, x, y)
    ensures Sorted(key, [x] + s)
  {
    var r := [x] + s;
    forall i, j | 0 <= i < j < |r| ensures InOrder(key, r[i], r[j]) {
      assert r[j] == s[j - 1];
      if i > 0 {
        assert r[i] == s[i - 1];
      }
    }
  }

  /** One step of insertion sort. */
  function Insert(key: SortKey, x: BookRecord, s: seq<BookRecord>): (r: seq<BookRecord>)
    requires Sorted(key, s)
    ensures Sorted(key, r) && multiset(r) == multiset(s) + multiset{x}
  {
    if s == [] then [x]
    else if InOrder(key, x, s[0]) then
      PrecedesAll(key, x, s);
      SortedCons(key, x, s);
      [x] + s
    else
      var rest := Insert(key, x, s[1..]);
      HeadPrecedesInsert(key, x, s, rest);
      SortedCons(key, s[0], rest);
      assert s == [s[0]] + s[1..];
      [s[0]] + rest
  }

  /** What may precede the head of a sorted list may precede all of it. */
  lemma PrecedesAll(key: SortKey, x: BookRecord, s: seq<BookRecord>)
    requires Sorted(key, s) && s != [] && InOrder(key, x, s[0])
    ensures forall y :: y in s ==> InOrder(key, x, y)
  {
    forall y | y in s ensures InOrder(key, x, y) {
      var j :| 0 <= j < |s| && s[j] == y;
      if j > 0 {
        InOrderTransitive(key, x, s[0], y);
      }
    }
  }

  /** The head of a sorted list may precede the rest with `x` inserted, when
      `x` may not precede the head. */
  lemma HeadPrecedesInsert(key: SortKey, x: BookRecord, s: seq<BookRecord>, rest: seq<BookRecord>)
    requires Sorted(key, s) && s != [] && !InOrder(key, x, s[0])
    requires multiset(rest) == multiset(s[1..]) + multiset{x}
    ensures forall y :: y in rest ==> InOrder(key, s[0], y)
  {
    InOrderTotal(key, x, s[0]);
    forall y | y in rest ensures InOrder(key, s[0], y) {
      assert y in multiset(rest);
      if y != x {
        assert y in s[1..];
        var j :| 0 <= j < |s[1..]| && s[1..][j] == y;
        assert s[j + 1] == y;
      }
    }
  }

  /** `Array.prototype.sort` with the comparator of `key`: a sorted
      permutation. */
  function SortBooks(key: SortKey, s: seq<BookRecord>): (r: seq<BookRecord>)
    ensures Sorted(key, r) && multiset(r) == multiset(s)
  {
    if s == [] then []
    else
      assert s == [s[0]] + s[1..];
      Insert(key, s[0], SortBooks(key, s[1..]))
  }

  /** The list shows the books in the order `sortOrder` asks for; another
      value leaves the order getAll produced. */
  predicate InLibraryOrder(list: seq<BookRecord>, sortOrder: string)
  {
    SortKeyOf(sortOrder).Some? ==> Sorted(SortKeyOf(sortOrder).value, list)
  }

  /** The sort policy of displayImportedFiles. */
  function SortForLibrary(books: seq<BookRecord>, sortOrder: string): (r: seq<BookRecord>)
    ensures multiset(r) == multiset(books)
    ensures InLibraryOrder(r, sortOrder)
    ensures SortKeyOf(sortOrder).None? ==> r == books
  {
    var key := SortKeyOf(sortOrder);
    if key.Some? then SortBooks(key.value, books) else books
  }

  /** displayImportedFiles: every stored book once, in library order. */
  method DisplayImportedFiles(ctx: Ctx) returns (res: Result<seq<BookRecord>, DbError>)
    requires ctx.Valid()
    ensures ctx.db == null ==> res == Err(DbNotInitialized)
    ensures ctx.db != null ==> res.Ok? && ListsStore(res.value, ctx.db.ebooks)
                               && InLibraryOrder(res.value, ctx.settings.sortOrder)
  {
    var all := GetAllBooks(ctx);
    if all.Err? {
      return Err(all.error);
    }
    var sorted := SortForLibrary(all.value, ctx.settings.sortOrder);
    ListsStorePermutation(all.value, sorted, ctx.db.ebooks);
    res := Ok(sorted);
  }

  /** loadHistory: every stored book once, most recently opened first. */
  method LoadHistory(ctx: Ctx) returns (res: Result<seq<BookRecord>, DbError>)
    requires ctx.Valid()
    ensures ctx.db == null ==> res == Err(DbNotInitialized)
    ensures ctx.db != null ==> res.Ok? && ListsStore(res.value, ctx.db.ebooks)
                               && Sorted(ByLastOpened, res.value)
  {
    var all := GetAllBooks(ctx);
    if all.Err? {
      return Err(all.error);
    }
    var sorted := SortBooks(ByLastOpened, all.value);
    ListsStorePermutation(all.value, sorted, ctx.db.ebooks);
    res := Ok(sorted);
  }

  // ---------------------------------------------------------------------
  // Opening a book

  /** The text a template literal gives `ctx.currentBookId`. */
  function IdText(current: Option<string>): (t: string)
    ensures current.Some? ==> t == current.value
    ensures current.None? ==> t == "null"
  {
    if current.Some? then current.value else "null"
  }

  /** `localStorage.getItem('location-<id>') || undefined`: the saved
      position, an empty one counting as none. */
  function SavedPosition(items: map<string, string>, current: Option<string>): (p: Option<string>)
    ensures p.Some? <==> LocationKey(IdText(current)) in items && items[LocationKey(IdText(current))] != []
    ensures p.Some? ==> p.value == items[LocationKey(IdText(current))]
  {
    var key := LocationKey(IdText(current));
    if key in items && items[key] != [] then Some(items[key]) else None
  }

  /** Deleting another book leaves this book's saved position alone; deleting
      this book makes it start from the beginning. */
  lemma PositionAfterDelete(items: map<string, string>, id: string, other: string)
    ensures SavedPosition(items - {LocationKey(other)}, Some(id))
            == (if other == id then None else SavedPosition(items, Some(id)))
  {
    if other != id {
      assert LocationKey(other)[9..] != LocationKey(id)[9..];
    }
  }

  /** cleanupViewer followed by the start of renderEpub: a new epub.js book
      on the stored bytes, displayed from the saved position. */
  method RenderEpub(ctx: Ctx, ls: LocalStorage, data: Payload)
    modifies ctx
    ensures ctx.book == Some(data)
    ensures ctx.rendition == Some(Rendition(SavedPosition(ls.items, ctx.currentBookId)))
    ensures ctx.currentBookId == old(ctx.currentBookId) && ctx.currentBookType == old(ctx.currentBookType)
    ensures ctx.db == old(ctx.db) && ctx.settings == old(ctx.settings)
  {
    ctx.rendition := None;
    ctx.book := Some(data);
    ctx.rendition := Some(Rendition(SavedPosition(ls.items, ctx.currentBookId)));
  }

  /** updateBookInfo followed by loadSettings: what renderTxt does after
      clearing the viewer, and what the epub does once epub.js is ready. */
  method ShowBook(ctx: Ctx, ls: LocalStorage)
    modifies ctx, ls
    ensures ctx.OnlySettingsChanged()
    ensures ls.items == old(ls.items)[LastOpenedBookKey := IdText(ctx.currentBookId)]
    ensures ls.settingsEntry == old(ls.settingsEntry)
    ensures ls.settingsEntry.None? ==> ctx.settings == old(ctx.settings)
    ensures ls.settingsEntry.Some? ==> ctx.settings == Ui.Merge(old(ctx.settings), ls.settingsEntry.value)
  {
    ls.items := ls.items[LastOpenedBookKey := IdText(ctx.currentBookId)];
    Ui.LoadSettings(ctx, ls);
  }

  /** renderTxt: no rendition; the text is shown, the book recorded as last
      opened and the settings reloaded. `ctx.book` is left as it was. */
  method RenderTxt(ctx: Ctx, ls: LocalStorage)
    modifies ctx, ls
    ensures ctx.rendition == None && ctx.book == old(ctx.book)
    ensures ctx.currentBookId == old(ctx.currentBookId) && ctx.currentBookType == old(ctx.currentBookType)
    ensures ctx.db == old(ctx.db)
    ensures ls.items == old(ls.items)[LastOpenedBookKey := IdText(ctx.currentBookId)]
    ensures ls.settingsEntry == old(ls.settingsEntry)
    ensures ls.settingsEntry.None? ==> ctx.settings == old(ctx.settings)
    ensures ls.settingsEntry.Some? ==> ctx.settings == Ui.Merge(old(ctx.settings), ls.settingsEntry.value)
  {
    ctx.rendition := None;
    ShowBook(ctx, ls);
  }

  /** The continuation of `book.ready` in renderEpub: book info, the table of
      contents built from `toc`, and the settings reloaded. */
  method OnEpubReady(ctx: Ctx, ls: LocalStorage, toc: Option<seq<TocItem>>) returns (entries: seq<TocEntry>)
    modifies ctx, ls
    ensures ctx.OnlySettingsChanged()
    ensures ls.items == old(ls.items)[LastOpenedBookKey := IdText(ctx.currentBookId)]
    ensures ls.settingsEntry.None? ==> ctx.settings == old(ctx.settings)
    ensures ls.settingsEntry == old(ls.settingsEntry)
    ensures ls.settingsEntry.Some? ==> ctx.settings == Ui.Merge(old(ctx.settings), ls.settingsEntry.value)
    ensures entries == PopulateToc(toc) && |entries| >= 1
  {
    ShowBook(ctx, ls);
    entries := PopulateToc(toc);
  }

  /** The 'relocated' handler: remembers the new position of the current
      book. */
  method OnRelocated(ctx: Ctx, ls: LocalStorage, cfi: string)
    modifies ls
    ensures ls.items == old(ls.items)[LocationKey(IdText(ctx.currentBookId)) := cfi]
    ensures ls.settingsEntry == old(ls.settingsEntry)
  {
    ls.items := ls.items[LocationKey(IdText(ctx.currentBookId)) := cfi];
  }

  datatype OpenOutcome =
    | Opened(record: BookRecord)
    | NotFound(listed: Result<seq<BookRecord>, DbError>)
    | OpenFailed(error: DbError)

  /** The first half of openBookFromDB: look the book up, stamp and save it,
      and only then make it the current book. */
  method SelectBook(ctx: Ctx, id: string, now: int) returns (out: OpenOutcome)
    requires ctx.Valid()
    modifies ctx, ctx.db
    ensures ctx.Valid() && ctx.db == old(ctx.db)
    ensures ctx.book == old(ctx.book) && ctx.rendition == old(ctx.rendition)
    ensures ctx.settings == old(ctx.settings)
    ensures ctx.db == null ==> out == OpenFailed(DbNotInitialized)
    ensures ctx.db != null && id !in old(ctx.db.ebooks) ==> out.NotFound?
    ensures !out.Opened? ==> ctx.currentBookId == old(ctx.currentBookId)
                             && ctx.currentBookType == old(ctx.currentBookType)
    ensures !out.Opened? && ctx.db != null ==> ctx.db.ebooks == old(ctx.db.ebooks)
    ensures out.NotFound? ==> out.listed.Ok? && ListsStore(out.listed.value, ctx.db.ebooks)
                              && InLibraryOrder(out.listed.value, ctx.settings.sortOrder)
    ensures ctx.db != null && id in old(ctx.db.ebooks)
            ==> && out == Opened(old(ctx.db.ebooks)[id].(lastOpened := now))
                && ctx.db.ebooks == old(ctx.db.ebooks)[id := out.record]
                && ctx.currentBookId == Some(id) && ctx.currentBookType == Some(out.record.bookType)
  {
    var found := GetBook(ctx, id);
    if found.Err? {
      return OpenFailed(found.error);
    }
    if found.value.None? {
      var listed := DisplayImportedFiles(ctx);
      return NotFound(listed);
    }
    var record := found.value.value.(lastOpened := now);
    var _ := SaveBook(ctx, record);
    ctx.currentBookId := Some(id);
    ctx.currentBookType := Some(record.bookType);
    out := Opened(record);
  }

  /** openBookFromDB: a found book is stamped, saved, made current and
      rendered; a missing one leaves the session as it was and refreshes the
      library. */
  method OpenBook(ctx: Ctx, ls: LocalStorage, id: string, now: int) returns (out: OpenOutcome)
    requires ctx.Valid()
    modifies ctx, ctx.db, ls
    ensures ctx.Valid() && ctx.db == old(ctx.db)
    ensures ctx.db == null ==> out == OpenFailed(DbNotInitialized)
    ensures ctx.db != null && id !in old(ctx.db.ebooks) ==> out.NotFound?
    ensures !out.Opened? ==> && ctx.currentBookId == old(ctx.currentBookId)
                             && ctx.currentBookType == old(ctx.currentBookType)
                             && ctx.book == old(ctx.book) && ctx.rendition == old(ctx.rendition)
                             && ctx.settings == old(ctx.settings)
                             && ls.items == old(ls.items) && ls.settingsEntry == old(ls.settingsEntry)
    ensures !out.Opened? && ctx.db != null ==> ctx.db.ebooks == old(ctx.db.ebooks)
    ensures out.NotFound? ==> out.listed.Ok? && ListsStore(out.listed.value, ctx.db.ebooks)
                              && InLibraryOrder(out.listed.value, ctx.settings.sortOrder)
    ensures ctx.db != null && id in old(ctx.db.ebooks)
            ==> && out == Opened(old(ctx.db.ebooks)[id].(lastOpened := now))
                && ctx.db.ebooks == old(ctx.db.ebooks)[id := out.record]
                && ctx.currentBookId == Some(id) && ctx.currentBookType == Some(out.record.bookType)
    ensures out.Opened? && out.record.bookType == Epub
            ==> && ctx.book == Some(out.record.fileData)
                && ctx.rendition == Some(Rendition(SavedPosition(old(ls.items), Some(id))))
                && ctx.settings == old(ctx.settings)
                && ls.items == old(ls.items) && ls.settingsEntry == old(ls.settingsEntry)
    ensures out.Opened? && out.record.bookType == Txt
            ==> && ctx.rendition == None && ctx.book == old(ctx.book)
                && ls.items == old(ls.items)[LastOpenedBookKey := id]
                && ls.settingsEntry == old(ls.settingsEntry)
                && (ls.settingsEntry.Some? ==> ctx.settings == Ui.Merge(old(ctx.settings), ls.settingsEntry.value))
                && (ls.settingsEntry.None? ==> ctx.settings == old(ctx.settings))
  {
    out := SelectBook(ctx, id, now);
    if !out.Opened? {
      return;
    }
    if out.record.bookType == Epub {
      RenderEpub(ctx, ls, out.record.fileData);
    } else {
      RenderTxt(ctx, ls);
    }
  }

  // ---------------------------------------------------------------------
  // Table of contents and chapter label

  datatype TocItem = TocItem(heading: string, href: string)

  /** A line of the table of contents: its text and the target it displays
      (`None` for the placeholder). */
  datatype TocEntry = TocEntry(text: string, href: Option<string>)

  const NoTocText: string := "Kh\U{F4}ng c\U{F3} m\U{1EE5}c l\U{1EE5}c."

  /** populateTOC: one entry per item with its trimmed label, or the single
      placeholder when there is no table of contents. */
  function PopulateToc(toc: Option<seq<TocItem>>): (entries: seq<TocEntry>)
    ensures toc.None? || toc.value == [] ==> entries == [TocEntry(NoTocText, None)]
    ensures toc.Some? && toc.value != []
            ==> && |entries| == |toc.value|
                && forall i :: 0 <= i < |entries| ==>
                     entries[i] == TocEntry(Trim(toc.value[i].heading), Some(toc.value[i].href))
  {
    if toc.None? || toc.value == [] then [TocEntry(NoTocText, None)]
    else seq(|toc.value|, i requires 0 <= i < |toc.value| =>
               TocEntry(Trim(toc.value[i].heading), Some(toc.value[i].href)))
  }

  /** A click on a table-of-contents entry: where the rendition is sent.
      The placeholder has no listener, and without a rendition nothing is
      displayed. */
  function TocClickTarget(hasRendition: bool, entry: TocEntry): (target: Option<string>)
    ensures target.Some? <==> hasRendition && entry.href.Some?
    ensures target.Some? ==> target == entry.href
  {
    if hasRendition then entry.href else None
  }

  /** filterTOC: entry `i` stays visible exactly when its upper-cased text
      contains the upper-cased filter. */
  method FilterToc(entries: seq<TocEntry>, filter: string) returns (visible: seq<bool>)
    ensures |visible| == |entries|
    ensures forall i :: 0 <= i < |entries| ==>
              (visible[i] <==> exists k :: OccursAt(Upper(entries[i].text), Upper(filter), k))
  {
    var needle := Upper(filter);
    visible := [];
    var i := 0;
    while i < |entries|
      invariant 0 <= i <= |entries| && |visible| == i
      invariant forall j :: 0 <= j < i ==>
                  (visible[j] <==> exists k :: OccursAt(Upper(entries[j].text), needle, k))
    {
      visible := visible + [Contains(Upper(entries[i].text), needle)];
      i := i + 1;
    }
  }

  /** An empty filter shows every entry. */
  lemma EmptyFilterShowsAll(text: string)
    ensures Contains(Upper(text), Upper(""))
  {
    assert OccursAt(Upper(text), Upper(""), 0);
  }

  /** The filter ignores case: typing it in lower case shows the same
      entries. */
  lemma FilterIgnoresCase(text: string, filter: string)
    ensures Contains(Upper(text), Upper(Lower(filter))) == Contains(Upper(text), Upper(filter))
  {
    UpperAbsorbs(filter);
  }

  /** `toc.findIndex(item => item.href === href) + 1`: the 1-based position
      of the first item with that target, 0 when there is none. */
  function ChapterNumber(toc: seq<TocItem>, href: string): (n: nat)
    ensures n <= |toc|
    ensures n > 0 ==> toc[n - 1].href == href && forall j :: 0 <= j < n - 1 ==> toc[j].href != href
    ensures n == 0 ==> forall j :: 0 <= j < |toc| ==> toc[j].href != href
  {
    if toc == [] then 0
    else if toc[0].href == href then 1
    else
      var rest := ChapterNumber(toc[1..], href);
      if rest == 0 then 0 else rest + 1
  }

  /** updateChapterInfo: `i/n - label` for the chapter epub.js reports, or no
      change (`None`) when there is none or its label is empty. */
  function ChapterInfo(toc: seq<TocItem>, current: Option<TocItem>): (text: Option<string>)
    ensures text.Some? <==> current.Some? && current.value.heading != []
    ensures text.Some? ==> text.value == Decimal(ChapterNumber(toc, current.value.href)) + "/"
                                         + Decimal(|toc|) + " - " + Trim(current.value.heading)
  {
    if current.None? || current.value.heading == [] then None
    else Some(Decimal(ChapterNumber(toc, current.value.href)) + "/" + Decimal(|toc|) + " - "
              + Trim(current.value.heading))
  }

  /** A chapter that is not in the table of contents is shown as number 0. */
  lemma UnlistedChapterIsZero(toc: seq<TocItem>, current: TocItem)
    requires current.heading != [] && forall j :: 0 <= j < |toc| ==> toc[j].href != current.href
    ensures ChapterInfo(toc, Some(current)) == Some("0/" + Decimal(|toc|) + " - " + Trim(current.heading))
  {
    assert ChapterNumber(toc, current.href) == 0;
    assert Decimal(0) + "/" == "0/";
  }

  // ---------------------------------------------------------------------
  // Deleting a book

  datatype DeleteOutcome =
    | Cancelled
    | Reloaded
    | Refreshed(listed: Result<seq<BookRecord>, DbError>)
    | DeleteFailed(error: DbError)
    | ListUpdateFailed

  /** What follows a successful delete in both flows: reload when the
      deleted book is the open one, refresh the library otherwise. */
  method ReloadOrRefresh(ctx: Ctx, id: string) returns (out: DeleteOutcome)
    requires ctx.Valid()
    ensures out == Reloaded <==> ctx.currentBookId == Some(id)
    ensures out != Reloaded ==> out.Refreshed?
    ensures out.Refreshed? && ctx.db == null ==> out.listed == Err(DbNotInitialized)
    ensures out.Refreshed? && ctx.db != null
            ==> out.listed.Ok? && ListsStore(out.listed.value, ctx.db.ebooks)
                && InLibraryOrder(out.listed.value, ctx.settings.sortOrder)
  {
    if ctx.currentBookId == Some(id) {
      return Reloaded;
    }
    var listed := DisplayImportedFiles(ctx);
    out := Refreshed(listed);
  }

  /** The confirmed part of deleteBookFromWelcomeScreen: delete, then reload
      or refresh. */
  method DeleteAndRefresh(ctx: Ctx, ls: LocalStorage, id: string) returns (out: DeleteOutcome)
    requires ctx.Valid()
    modifies ctx.db, ls
    ensures ctx.Valid() && ls.settingsEntry == old(ls.settingsEntry)
    ensures ctx.db == null ==> out == DeleteFailed(DbNotInitialized) && ls.items == old(ls.items)
    ensures ctx.db != null ==> ctx.db.ebooks == old(ctx.db.ebooks) - {id}
                               && ls.items == old(ls.items) - {LocationKey(id)}
    ensures ctx.db != null ==> (out == Reloaded <==> ctx.currentBookId == Some(id))
    ensures ctx.db != null && ctx.currentBookId != Some(id)
            ==> out.Refreshed? && out.listed.Ok? && ListsStore(out.listed.value, ctx.db.ebooks)
                && InLibraryOrder(out.listed.value, ctx.settings.sortOrder)
  {
    var deleted := DeleteBook(ctx, ls, id);
    if deleted.Fail? {
      return DeleteFailed(deleted.error);
    }
    out := ReloadOrRefresh(ctx, id);
  }

  /** deleteBookFromWelcomeScreen. */
  method DeleteBookFromWelcomeScreen(ctx: Ctx, ls: LocalStorage, id: string, confirmed: bool)
    returns (out: DeleteOutcome)
    requires ctx.Valid()
    modifies ctx.db, ls
    ensures ctx.Valid() && ls.settingsEntry == old(ls.settingsEntry)
    ensures !confirmed ==> out == Cancelled && ls.items == old(ls.items)
    ensures !confirmed && ctx.db != null ==> ctx.db.ebooks == old(ctx.db.ebooks)
    ensures confirmed && ctx.db == null ==> out == DeleteFailed(DbNotInitialized)
    ensures confirmed && ctx.db != null ==> ctx.db.ebooks == old(ctx.db.ebooks) - {id}
                                            && ls.items == old(ls.items) - {LocationKey(id)}
    ensures out == Reloaded <==> confirmed && ctx.db != null && ctx.currentBookId == Some(id)
    ensures confirmed && ctx.db == null ==> ls.items == old(ls.items)
    ensures confirmed && ctx.db != null && ctx.currentBookId != Some(id)
            ==> out.Refreshed? && out.listed.Ok? && ListsStore(out.listed.value, ctx.db.ebooks)
                && InLibraryOrder(out.listed.value, ctx.settings.sortOrder)
    ensures out.Refreshed? ==> out.listed.Ok? && ListsStore(out.listed.value, ctx.db.ebooks)
  {
    if !confirmed {
      return Cancelled;
    }
    out := DeleteAndRefresh(ctx, ls, id);
  }

  /** The index of the first entry of the history list for `id`. */
  function FirstIndex(shown: seq<string>, id: string): (k: nat)
    requires id in shown
    ensures k < |shown| && shown[k] == id && id !in shown[..k]
  {
    if shown[0] == id then 0
    else
      var k := FirstIndex(shown[1..], id) + 1;
      assert shown[..k] == [shown[0]] + shown[1..][..k - 1];
      k
  }

  /** The history list without the first entry for `id`. */
  function RemoveFirst(shown: seq<string>, id: string): (r: seq<string>)
    ensures id !in shown ==> r == shown
    ensures id in shown ==> r == shown[..FirstIndex(shown, id)] + shown[FirstIndex(shown, id) + 1..]
    ensures id in shown ==> |r| == |shown| - 1 && multiset(r) == multiset(shown) - multiset{id}
  {
    if shown == [] then []
    else if shown[0] == id then
      DropAt(shown, 0);
      shown[1..]
    else
      var rest := RemoveFirst(shown[1..], id);
      if id in shown[1..] then
        RemoveFirstStep(shown, id, rest);
        [shown[0]] + rest
      else
        assert shown == [shown[0]] + shown[1..];
        [shown[0]] + rest
  }

  /** Dropping entry `k` leaves one entry less, and one `s[k]` less. */
  lemma DropAt(s: seq<string>, k: nat)
    requires k < |s|
    ensures |s[..k] + s[k + 1..]| == |s| - 1
    ensures multiset(s[..k] + s[k + 1..]) == multiset(s) - multiset{s[k]}
  {
    assert s == s[..k] + [s[k]] + s[k + 1..];
  }

  /** When the first entry for `id` lies after the head, removing it from
      the tail and putting the head back removes it from the whole list. */
  lemma RemoveFirstStep(s: seq<string>, id: string, rest: seq<string>)
    requires s != [] && s[0] != id && id in s[1..]
    requires rest == s[1..][..FirstIndex(s[1..], id)] + s[1..][FirstIndex(s[1..], id) + 1..]
    ensures [s[0]] + rest == s[..FirstIndex(s, id)] + s[FirstIndex(s, id) + 1..]
    ensures |[s[0]] + rest| == |s| - 1 && multiset([s[0]] + rest) == multiset(s) - multiset{id}
  {
    var tail := s[1..];
    var k := FirstIndex(tail, id);
    assert FirstIndex(s, id) == k + 1;
    assert s[..k + 1] == [s[0]] + tail[..k];
    assert s[k + 2..] == tail[k + 1..];
    assert [s[0]] + rest == ([s[0]] + tail[..k]) + tail[k + 1..];
    DropAt(s, k + 1);
  }

  // The history list finds the entry to remove with
  // `querySelector('li[data-book-id="<id>"]')`, the id pasted into a CSS
  // string. An id without a double quote, a backslash, a line break or NUL
  // is quoted verbatim and the lookup finds the first entry with that id.
  // Any other id changes the selector: it may throw, match nothing or match
  // another entry, which is the browser's to decide.

  /** What the history list's selector lookup gave. */
  datatype EntryLookup = EntryAt(index: nat) | NoEntry | SelectorError

  /** The id appears verbatim inside the double-quoted selector string. */
  predicate SelectorSafe(id: string)
  {
    forall i :: 0 <= i < |id| ==> id[i] !in {'\"', '\\', '\n', '\r', '\U{C}', '\0'}
  }

  /** The lookup for `id`: determined for a safe id; for any other id it is
      `other`, what the browser did with the altered selector. */
  function LookupFor(shown: seq<string>, id: string, other: EntryLookup): (l: EntryLookup)
    requires other.EntryAt? ==> other.index < |shown|
    ensures l.EntryAt? ==> l.index < |shown|
    ensures SelectorSafe(id) ==> (l.EntryAt? <==> id in shown) && !l.SelectorError?
    ensures SelectorSafe(id) && id in shown ==> l == EntryAt(FirstIndex(shown, id))
    ensures !SelectorSafe(id) ==> l == other
  {
    if !SelectorSafe(id) then other
    else if id in shown then EntryAt(FirstIndex(shown, id))
    else NoEntry
  }

  /** The history list after the found entry, if any, is removed. */
  function ListAfterLookup(shown: seq<string>, lookup: EntryLookup): (r: seq<string>)
    requires lookup.EntryAt? ==> lookup.index < |shown|
    ensures lookup.EntryAt? ==> |r| == |shown| - 1
    ensures lookup.EntryAt? ==> r[..lookup.index] == shown[..lookup.index]
                                && r[lookup.index..] == shown[lookup.index + 1..]
    ensures !lookup.EntryAt? ==> r == shown
  {
    if lookup.EntryAt? then shown[..lookup.index] + shown[lookup.index + 1..] else shown
  }

  /** For a safe id the lookup never throws and removes exactly the first
      entry for the id. */
  lemma SafeIdRemovesFirst(shown: seq<string>, id: string, other: EntryLookup)
    requires other.EntryAt? ==> other.index < |shown|
    requires SelectorSafe(id)
    ensures !LookupFor(shown, id, other).SelectorError?
    ensures ListAfterLookup(shown, LookupFor(shown, id, other)) == RemoveFirst(shown, id)
  {
  }

  /** deleteBookFromHistory: `shown` is the ids the history list shows, in
      order, and `other` what the selector lookup gives for an id that is not
      quoted verbatim. After a successful delete the found entry leaves the
      list, then the page reloads or the library is refreshed; a selector
      that throws skips both, although the book is already deleted. */
  method DeleteBookFromHistory(ctx: Ctx, ls: LocalStorage, id: string, confirmed: bool,
                               shown: seq<string>, other: EntryLookup)
    returns (out: DeleteOutcome, remaining: seq<string>)
    requires ctx.Valid()
    requires other.EntryAt? ==> other.index < |shown|
    modifies ctx.db, ls
    ensures ctx.Valid() && ls.settingsEntry == old(ls.settingsEntry)
    ensures !confirmed ==> out == Cancelled && remaining == shown && ls.items == old(ls.items)
    ensures !confirmed && ctx.db != null ==> ctx.db.ebooks == old(ctx.db.ebooks)
    ensures confirmed && ctx.db == null ==> out == DeleteFailed(DbNotInitialized) && remaining == shown
                                            && ls.items == old(ls.items)
    ensures confirmed && ctx.db != null ==> ctx.db.ebooks == old(ctx.db.ebooks) - {id}
                                            && ls.items == old(ls.items) - {LocationKey(id)}
    ensures confirmed && ctx.db != null ==>
              var lookup := LookupFor(shown, id, other);
              && (out == ListUpdateFailed <==> lookup.SelectorError?)
              && remaining == ListAfterLookup(shown, lookup)
              && (!lookup.SelectorError? ==> (out == Reloaded <==> ctx.currentBookId == Some(id)))
              && (!lookup.SelectorError? && ctx.currentBookId != Some(id)
                  ==> out.Refreshed? && out.listed.Ok? && ListsStore(out.listed.value, ctx.db.ebooks)
                      && InLibraryOrder(out.listed.value, ctx.settings.sortOrder))
  {
    remaining := shown;
    if !confirmed {
      return Cancelled, remaining;
    }
    var deleted := DeleteBook(ctx, ls, id);
    if deleted.Fail? {
      return DeleteFailed(deleted.error), remaining;
    }
    var lookup := LookupFor(shown, id, other);
    if lookup.SelectorError? {
      return ListUpdateFailed, remaining;
    }
    remaining := ListAfterLookup(shown, lookup);
    out := ReloadOrRefresh(ctx, id);
  }
}
