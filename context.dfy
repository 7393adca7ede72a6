/** The shared application state of m_context.js: the shape of a stored book,
    of the reader's settings and themes, the `ctx` object itself, and the
    default settings installed by `initDefaultSettings`.

    The two browser stores the reader writes to are modelled here as well,
    since every other module reaches them: the IndexedDB database handle that
    `ctx.db` holds (its `ebooks` object store, keyed by `id`) and
    `localStorage`. */
module Context {
  import opened Common

  // ---------------------------------------------------------------------
  // Book records

  datatype BookType = Txt | Epub

  /** What FileReader produced: decoded text for `.txt`, raw bytes otherwise. */
  datatype Payload = TextContent(text: string) | BinaryContent(bytes: seq<bv8>)

  /** The epub package metadata fields the reader shows. */
  datatype Metadata = Metadata(title: string, creator: string, publisher: string,
                               pubdate: string, description: string)

  /** A record of the `ebooks` store. `lastOpened` is a millisecond timestamp;
      `coverUrl` is an inline data URL. */
  datatype BookRecord = BookRecord(id: string, title: string, fileData: Payload,
                                   bookType: BookType, lastOpened: int,
                                   coverUrl: Option<string>, metadata: Option<Metadata>)

  // ---------------------------------------------------------------------
  // Settings and themes

  datatype Colors = Colors(bg: string, text: string)

  datatype Theme = Theme(name: string, bg: string, text: string, surface: string,
                         border: string, isCustom: bool)

  datatype Settings = Settings(fontSize: int, fontFamily: string, activeThemeName: string,
                               keepOriginalFormat: bool, sortOrder: string,
                               customColors: Colors, themes: seq<Theme>)

  /** The object `JSON.parse` gives back from the persisted settings entry:
      any subset of the settings keys. */
  datatype StoredSettings = StoredSettings(fontSize: Option<int>, fontFamily: Option<string>,
                                           activeThemeName: Option<string>,
                                           keepOriginalFormat: Option<bool>,
                                           sortOrder: Option<string>,
                                           customColors: Option<Colors>,
                                           themes: Option<seq<Theme>>)

  /** The name that selects `customColors` instead of a theme. */
  const CustomThemeName: string := "custom"

  /** The theme selected by default and after deleting the active theme. */
  const DefaultThemeName: string := "H\U{1ED3}ng"

  const PopularFonts: seq<string> :=
    ["Arial", "Times New Roman", "Helvetica", "Courier New", "Verdana", "Georgia",
     "Tahoma", "Calibri", "Garamond", "Roboto", "Open Sans", "Montserrat"]

  const DefaultThemes: seq<Theme> := [
    Theme("T\U{1ED1}i", "#121212", "#E0E0E0", "#1e1e1e", "#3a3a3a", false),
    Theme("Gi\U{1EA5}y", "#FBF0D9", "#5B4636", "#f4e8c8", "#e6d5b0", false),
    Theme("X\U{E1}m", "#D3D3D3", "#111111", "#c0c0c0", "#aaaaaa", false),
    Theme("Xanh", "#002B36", "#93A1A1", "#003c4d", "#00556e", false),
    Theme(DefaultThemeName, "rgb(35, 38, 39)", "rgb(247, 183, 183)", "#36393a", "#4a4e4f", false)
  ]

  /** The settings `initDefaultSettings` installs. */
  const DefaultSettings: Settings :=
    Settings(32, "Arial", DefaultThemeName, false, "lastOpened",
             Colors("#1a1a1a", "#e0e0e0"), DefaultThemes)

  /** No two themes share a name, comparing case-insensitively. */
  predicate DistinctNames(themes: seq<Theme>)
  {
    forall i, j :: 0 <= i < j < |themes| ==> Lower(themes[i].name) != Lower(themes[j].name)
  }

  /** The built-in themes are not custom, their names are distinct even
      ignoring case, and the default theme name is one of them. */
  lemma DefaultThemesWellFormed()
    ensures forall t :: t in DefaultThemes ==> !t.isCustom
    ensures DistinctNames(DefaultThemes)
    ensures exists i :: 0 <= i < |DefaultThemes| && DefaultThemes[i].name == DefaultSettings.activeThemeName
  {
    assert DefaultThemes[4].name == DefaultThemeName;
    var names := seq(5, i requires 0 <= i < 5 => Lower(DefaultThemes[i].name));
    assert names[0][0] == 't' && names[1][0] == 'g' && names[2][0] == 'x' && names[3][0] == 'x'
        && names[4][0] == 'h';
    assert |names[2]| == 3 && |names[3]| == 4;
  }

  /** The default font is offered by the font selector. */
  lemma DefaultFontIsOffered()
    ensures DefaultSettings.fontFamily in PopularFonts
  {
  }

  // ---------------------------------------------------------------------
  // The browser stores

  /** The opened IndexedDB database; its `ebooks` store has key path `id`. */
  class Database {
    var ebooks: map<string, BookRecord>

    /** Every record is stored under its own id. */
    ghost predicate Valid()
      reads this
    {
      forall k :: k in ebooks ==> ebooks[k].id == k
    }

    /** The database as `initDB` finds it: holding what earlier sessions stored. */
    constructor (stored: map<string, BookRecord>)
      requires forall k :: k in stored ==> stored[k].id == k
      ensures ebooks == stored && Valid()
    {
      ebooks := stored;
    }
  }

  /** `localStorage`: string entries (`location-<id>`, `lastOpenedBook`) and
      the `ebookReaderSettings_v2` entry, kept as the object it parses to. */
  class LocalStorage {
    var items: map<string, string>
    var settingsEntry: Option<StoredSettings>

    constructor (items: map<string, string>, settingsEntry: Option<StoredSettings>)
      ensures this.items == items && this.settingsEntry == settingsEntry
    {
      this.items := items;
      this.settingsEntry := settingsEntry;
    }
  }

  /** The `localStorage` key of a book's reading position. */
  function LocationKey(bookId: string): (k: string)
    ensures StartsWith(k, "location-") && k[9..] == bookId
  {
    "location-" + bookId
  }

  const LastOpenedBookKey: string := "lastOpenedBook"

  // ---------------------------------------------------------------------
  // The context object

  /** An epub.js rendition, reduced to the location it was asked to display
      first (None: the start of the book). */
  datatype Rendition = Rendition(startLocation: Option<string>)

  /** `ctx`: the state fields (the DOM references are left out). `db` is null
      until `initDB` succeeds; `book` is the epub.js book last opened. */
  class Ctx {
    var book: Option<Payload>
    var rendition: Option<Rendition>
    var currentBookId: Option<string>
    var currentBookType: Option<BookType>
    var db: Database?
    var settings: Settings

    ghost predicate Valid()
      reads this, db
    {
      db != null ==> db.Valid()
    }

    /** The `ctx` literal followed by `initDefaultSettings`, which is the first
        thing the application does: nothing is open and no database is
        attached. */
    constructor ()
      ensures book == None && rendition == None
      ensures currentBookId == None && currentBookType == None && db == null
      ensures settings == DefaultSettings
      ensures Valid()
    {
      book, rendition := None, None;
      currentBookId, currentBookType := None, None;
      db := null;
      settings := DefaultSettings;
    }

    /** Between two states, nothing but `settings` changed. */
    twostate predicate OnlySettingsChanged()
      reads this
    {
      && book == old(book) && rendition == old(rendition) && db == old(db)
      && currentBookId == old(currentBookId) && currentBookType == old(currentBookType)
    }

    /** initDefaultSettings: replaces the settings by the defaults. */
    method InitDefaultSettings()
      modifies this
      ensures settings == DefaultSettings && OnlySettingsChanged()
    {
      settings := DefaultSettings;
    }
  }
}
