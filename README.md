# Ebook reader: library, session and settings model

This Dafny project models the application state of a browser ebook reader
(`src/js`). The reader imports `.txt` and `.epub` files into an IndexedDB
store. It opens a stored book into an epub.js rendition or a plain-text view,
and remembers each book's reading position in `localStorage`. It keeps
reader settings there too: font, size, sort order, colour themes.

The model has seven modules, one per source file plus shared helpers:

- `Common`: `Option`/`Result` and the JavaScript string operations the code
  uses. These are `trim`, `toLowerCase`/`toUpperCase` (ASCII letters),
  `endsWith`, `includes`, and the decimal rendering of a number.
- `Color` (m_utils.js): `adjustColor`, in exact integer arithmetic. It is
  proved equal to `Math.round` of the clamped real value.
- `Context` (m_context.js): the records (book, theme, settings), the `ctx`
  object as the class `Ctx`, and the default settings. It also has the two
  browser stores. The IndexedDB handle is a `Database` whose `ebooks` map is
  keyed by `id`, and `ctx.db` is `null` until the database is opened.
  `localStorage` is a `LocalStorage` object with string items and the
  parsed settings entry.
- `Db` (m_db.js): put, get, getAll, delete and clear as methods on that
  state. Each one rejects with `DbNotInitialized` when `ctx.db` is null,
  except clear.
- `Reader` (m_reader.js): the import loop and its counters, and opening a
  book. Also the library and history order, the table of contents (its
  entries, filter and chapter label), and the two delete flows.
- `Ui` (m_ui.js): loading and saving settings, and resolving the active
  theme. Also the reader layout, and adding, validating, deriving and
  deleting custom themes.
- `Events` (m_events.js): the handlers that edit settings, and which of
  them save. Also the click dispatch of the library and history lists.

Inputs from outside the model are parameters:

- What FileReader and epub.js produced for each file.
- The answers of confirmation dialogs and prompts.
- The current time `now`.
- The chapter epub.js reports.

Behaviour of the code worth knowing, which the model keeps:

- A file whose name ends in neither `.txt` nor `.epub` is counted as
  imported, although nothing is saved (`Reader.UnknownExtensionIsCounted`).
- `deleteTheme` has no built-in check. Built-in themes are safe only because
  their buttons have no delete control (`Ui.DeleteSparesBuiltIns`).
- `clearDB` leaves `localStorage` alone. It is `deleteAllData` that then
  clears all of it, reading positions included.
- `loadSettings` merges the saved object over the current settings, not
  over the defaults.
- `applyThemeToApp` has no `'custom'` branch. With the custom colours
  active, the application keeps the first theme (`Ui.CustomSelectionSplits`).
- Opening a text book does not tear down or replace `ctx.book`.
- There is no `close()` operation in the code.

## Model

| member | source | states |
|---|---|---|
| Common.Lower | src/js/m_ui.js:130 | same length; each character is lower-cased (ASCII letters) |
| Common.Upper | src/js/m_reader.js:180-183 | same length; each character is upper-cased (ASCII letters) |
| Common.UpperAbsorbs | src/js/m_reader.js:180-183 | upper-casing is idempotent and forgets an earlier lower-casing |
| Common.Trim | src/js/m_ui.js:129 | the result is the window of the input that starts where the leading white space ends; every character outside it is ECMAScript white space; it does not start or end with white space |
| Common.TrimEmptyIff | src/js/m_ui.js:129 | a string trims to empty exactly when it is all white space |
| Common.Contains | src/js/m_reader.js:183 | `includes` holds exactly when the needle occurs at some index |
| Common.Decimal | src/js/m_reader.js:15 | a non-empty string of digits that, read left to right, denote n; no leading zero except for 0 itself; at least two digits exactly when n >= 10 |
| Common.DecimalInjective | src/js/m_reader.js:15 | different sizes give different numerals |
| Color.HexValue | src/js/m_utils.js:2-4 | a hex digit of either case parses to a value below 16 |
| Color.HexDigit | src/js/m_utils.js:10 | the digit written for v is lower-case and parses back to v |
| Color.Channel | src/js/m_utils.js:2-4 | a parsed channel is below 256 |
| Color.Radix16 | src/js/m_utils.js:10 | `toString(16)` has one digit below 16 and two from 16 on |
| Color.ToHex2 | src/js/m_utils.js:10 | padding and `slice(-2)` give exactly the high and low hex digit of the byte |
| Color.FormatColor | src/js/m_utils.js:11 | the output is `#` and six lower-case hex digits, and parsing it gives back the three channels |
| Color.AdjustChannel | src/js/m_utils.js:6-10 | an adjusted channel is at most 255 |
| Color.ChannelIsRoundedClamp | src/js/m_utils.js:6-10 | the integer channel is `Math.round` of `min(255, max(0, c + c*p/100))` on reals |
| Color.AdjustColor | src/js/m_utils.js:1-12 | the output is a lower-case `#rrggbb`, and each of its channels is the adjusted input channel |
| Color.AdjustedChannel | src/js/m_utils.js:6-11 | channel k of the output is the adjusted channel k of the input |
| Color.AdjustByZeroIsLowerCase | src/js/m_utils.js:1-12 | a zero percentage returns the same colour, lower-cased |
| Color.ZeroChannelStaysZero | src/js/m_utils.js:6-8 | a zero channel stays zero for every percentage |
| Color.NoFactorIsZero | src/js/m_utils.js:6-8 | a percentage of -100 or less gives a zero channel |
| Color.FullDarkeningIsBlack | src/js/m_utils.js:6-11 | a percentage of -100 or less gives `#000000` |
| Color.AdjustIsMonotone | src/js/m_utils.js:6-8 | a non-negative percentage never lowers a channel; a non-positive one never raises it |
| Color.AdjustMonotoneInPercent | src/js/m_utils.js:6-8 | a larger percentage never gives a smaller channel |
| Color.GreyLightenedByHalf | src/js/m_utils.js:1-12 | `adjustColor('#808080', 50)` is `#c0c0c0` |
| Color.BlackStaysBlack | src/js/m_utils.js:1-12 | `#000000` adjusted by any percentage is `#000000` |
| Context.DefaultThemesWellFormed | src/js/m_context.js:70-76 | no default theme is custom; their names differ even ignoring case; the default active name 'Hồng' is one of them |
| Context.DefaultFontIsOffered | src/js/m_context.js:17 | the default font 'Arial' is among the offered fonts |
| Context.LocationKey | src/js/m_db.js:50 | the key is `location-` followed by exactly the book id |
| Context.Database.constructor | src/js/m_db.js:3-15 | the opened database holds what earlier sessions stored, each record under its id |
| Context.Ctx.constructor | src/js/m_context.js:14-16 | initially no book, rendition, current book or database, and the default settings |
| Context.Ctx.InitDefaultSettings | src/js/m_context.js:62-78 | the settings become the defaults and nothing else of `ctx` changes |
| Db.SaveBook | src/js/m_db.js:17-26 | rejects when the database is null; otherwise the store maps the record's id to the record and every other id to its old record |
| Db.UpsertSize | src/js/m_db.js:22 | saving an id already stored keeps the number of records; a new id adds one |
| Db.GetBook | src/js/m_db.js:28-35 | rejects when the database is null; otherwise gives the stored record exactly when the id is present |
| Db.GetAllBooks | src/js/m_db.js:37-44 | rejects when the database is null; otherwise lists every stored record exactly once, with no duplicate id |
| Db.ListsStorePermutation | src/js/m_reader.js:113-115 | any reordering of a listing of the store is still a listing of it |
| Db.DeleteBook | src/js/m_db.js:46-53 | rejects and changes nothing when the database is null; otherwise removes the id from the store and its `location-` key from local storage, and nothing else |
| Db.ClearDb | src/js/m_db.js:55-61 | always resolves; empties the store if there is one; local storage is not touched |
| Ui.MergeLaws | src/js/m_ui.js:6-11 | loading what was saved restores it; merging an empty object changes nothing; merging twice is merging once |
| Ui.LoadSettings | src/js/m_ui.js:6-9 | with a saved entry, each key takes its saved value if present and keeps its current one otherwise; without one, nothing changes |
| Ui.SaveSettings | src/js/m_ui.js:10-12 | the saved entry is a snapshot of every settings key; other items are untouched |
| Ui.FindTheme | src/js/m_ui.js:14 | the index of the first theme with exactly that name, or none when no theme has it |
| Ui.AppTheme | src/js/m_ui.js:13-14 | the first theme named as the active one if any, else the first theme; none only for an empty theme list |
| Ui.ReaderColors | src/js/m_ui.js:22-25 | the custom colours when the active name is 'custom', otherwise the colours of the application theme |
| Ui.CustomSelectionSplits | src/js/m_ui.js:13-25 | with 'custom' active the reader uses the picker colours while the application keeps the first theme |
| Ui.DefaultsResolveToDefaultTheme | src/js/m_ui.js:14 | the default settings resolve to the 'Hồng' theme for both application and reader |
| Ui.ReaderStyleFor | src/js/m_ui.js:22-61 | epub with rendition: base layout exactly when the original format is kept, custom layout otherwise; txt: styled text; other states: nothing; failure exactly when no colours resolve |
| Ui.SelectTheme | src/js/m_ui.js:91-98 | ignored while the original format is kept; otherwise the theme becomes active and the settings are saved |
| Ui.ValidateThemeName | src/js/m_ui.js:129-132 | empty exactly when the trimmed answer is empty; duplicate exactly when the trimmed name matches an existing one ignoring case; otherwise the trimmed name |
| Ui.BlankNameRefused | src/js/m_ui.js:129 | a white-space-only answer is refused as empty |
| Ui.IsDarkIsLuminance | src/js/m_ui.js:135 | the integer darkness test equals `0.299R + 0.587G + 0.114B < 186` on exact reals |
| Ui.DeriveTheme | src/js/m_ui.js:133-145 | the new theme keeps the name and colours and is custom; on a dark background the surface is the background adjusted by 15% and the border by 30%, on a light one by -10% and -20%; both are lower-case hex |
| Ui.DerivedShades | src/js/m_ui.js:135-143 | dark background: background <= surface <= border per channel; light: background >= surface >= border |
| Ui.DarknessExamples | src/js/m_ui.js:135 | `#121212` is dark and `#FBF0D9` is light |
| Ui.DerivationExample | src/js/m_ui.js:135-143 | on `#121212` the surface is `#151515` and the border `#171717` |
| Ui.AddKeepsNamesDistinct | src/js/m_ui.js:130-147 | appending a theme whose name passed validation keeps names distinct ignoring case |
| Ui.AddTheme | src/js/m_ui.js:126-152 | a cancelled prompt or a refused name changes nothing; a valid name appends exactly one derived theme at the end and saves |
| Ui.AppendTheme | src/js/m_ui.js:147-148 | the theme is appended to the list and the settings saved; nothing else of `ctx` changes |
| Ui.RemoveNamed | src/js/m_ui.js:158 | keeps exactly the themes whose name differs (case-sensitive), and is the identity when none has the name |
| Ui.RemoveNamedAppend | src/js/m_ui.js:158 | filtering distributes over concatenation, so kept themes stay in order |
| Ui.RemoveKeepsNamesDistinct | src/js/m_ui.js:158 | removing themes keeps the names distinct |
| Ui.DeleteSparesBuiltIns | src/js/m_ui.js:100-107 | deleting a name that has a delete button never removes a built-in theme |
| Ui.DeleteTheme | src/js/m_ui.js:154-169 | without confirmation nothing changes; with it the named themes go, an active one falls back to 'Hồng', and the settings are saved |
| Ui.DeleteKeepsFallbackTheme | src/js/m_ui.js:158-160 | deleting a name other than 'Hồng' keeps the fallback theme available |
| Ui.DeleteAllData | src/js/m_ui.js:171-181 | with confirmation: the store and all of local storage are emptied and the page reloads; without it nothing changes |
| Reader.BookId | src/js/m_reader.js:15 | the id starts with the file name and ends with `-` and the size |
| Reader.BookIdInjective | src/js/m_reader.js:15 | two files share an id only when they have the same name and size |
| Reader.FileOutcomeOf | src/js/m_reader.js:19-40 | read error or broken epub: error; other extension: counted without saving; txt: title = file name, no cover or metadata; epub: metadata title or file name, cover and metadata kept |
| Reader.ImportedCount | src/js/m_reader.js:35 | at most the number of files |
| Reader.ErrorCount | src/js/m_reader.js:36-39 | at most the number of files |
| Reader.CountsAddUp | src/js/m_reader.js:14-42 | every file increments exactly one counter |
| Reader.UnknownExtensionIsCounted | src/js/m_reader.js:21-35 | other extension, broken epub and text file: two imports and one error |
| Reader.StoreAfterKeyedById | src/js/m_reader.js:15-32 | importing keeps every record under its own id |
| Reader.SameFileReplaces | src/js/m_reader.js:15-32 | a second file with the same name and size replaces the first record; the store does not grow |
| Reader.ImportOne | src/js/m_reader.js:18-41 | the file counts as imported exactly when it is not an error; a saved record upserts the store; without a database only files with other extensions count |
| Reader.ImportFiles | src/js/m_reader.js:7-48 | empty selection: nothing; otherwise the store is the result of importing the files in order, the two counters are the imported and error counts of the files, and the refreshed list shows the store in library order; no database: the refresh rejects |
| Reader.SortKeyOf | src/js/m_reader.js:113-115 | exactly the three recognised sort orders select a comparator |
| Reader.TitleLeTotal | src/js/m_reader.js:114-115 | the title order compares any two titles |
| Reader.TitleLeTransitive | src/js/m_reader.js:114-115 | the title order is transitive |
| Reader.InOrderTotal | src/js/m_reader.js:113-115 | each sort key compares any two books |
| Reader.InOrderTransitive | src/js/m_reader.js:113-115 | each sort key is transitive |
| Reader.Insert | src/js/m_reader.js:113-115 | inserting into a sorted list gives a sorted list with one more element |
| Reader.SortBooks | src/js/m_reader.js:113-115 | a sorted permutation of the input |
| Reader.SortForLibrary | src/js/m_reader.js:113-115 | a permutation of the input, sorted for a known order; an unknown order leaves the input as it is |
| Reader.DisplayImportedFiles | src/js/m_reader.js:106-130 | no database: rejects; otherwise every stored book once, in the order `sortOrder` asks for |
| Reader.LoadHistory | src/js/m_reader.js:187-192 | no database: rejects; otherwise every stored book once, most recently opened first |
| Reader.IdText | src/js/m_reader.js:80 | the current id as the key template writes it, "null" without one |
| Reader.SavedPosition | src/js/m_reader.js:80-81 | the saved position of the current book, an empty one counting as none |
| Reader.PositionAfterDelete | src/js/m_reader.js:80-81 | deleting another book keeps a book's position; deleting the book itself makes it start at the beginning |
| Reader.RenderEpub | src/js/m_reader.js:75-81 | the new book holds the stored bytes and its rendition starts at the saved position |
| Reader.ShowBook | src/js/m_reader.js:149-153 | the current id is recorded as last opened and the settings are reloaded |
| Reader.RenderTxt | src/js/m_reader.js:95-104 | no rendition; the book is recorded as last opened and the settings reloaded; `ctx.book` is unchanged |
| Reader.OnEpubReady | src/js/m_reader.js:82-87 | the book is recorded as last opened, the settings are reloaded with the saved entry untouched, and the entries are the table of contents built from `toc` (at least one) |
| Reader.OnRelocated | src/js/m_reader.js:88-89 | the new position is stored under the current book's `location-` key |
| Reader.SelectBook | src/js/m_reader.js:50-57 | a found book is stamped with `now`, saved back and made current; a missing one leaves the current book and the store unchanged and yields the refreshed library |
| Reader.OpenBook | src/js/m_reader.js:50-65 | no database: fails and nothing changes; missing id: the store and the session are unchanged and the library is listed in the chosen order; found: stamped, saved, made current, then rendered by its type |
| Reader.PopulateToc | src/js/m_reader.js:164-177 | no or empty table of contents: the single placeholder; otherwise one entry per item, in order, with trimmed label and its target |
| Reader.TocClickTarget | src/js/m_reader.js:171-174 | an entry sends the rendition to its target exactly when there is a rendition |
| Reader.FilterToc | src/js/m_reader.js:179-185 | entry i is visible exactly when its upper-cased text contains the upper-cased filter |
| Reader.EmptyFilterShowsAll | src/js/m_reader.js:180-183 | an empty filter shows every entry |
| Reader.FilterIgnoresCase | src/js/m_reader.js:180-183 | a filter typed in lower case shows the same entries |
| Reader.ChapterNumber | src/js/m_reader.js:159 | one plus the index of the first item with the target, or 0 when none has it |
| Reader.ChapterInfo | src/js/m_reader.js:155-162 | a label `i/n - label` exactly when the chapter exists and has a non-empty label |
| Reader.UnlistedChapterIsZero | src/js/m_reader.js:159-160 | a chapter absent from the table of contents is shown as `0/n` |
| Reader.ReloadOrRefresh | src/js/m_reader.js:218-219 | reload exactly when the deleted book is the current one, otherwise the library listing every stored book in the chosen order |
| Reader.DeleteAndRefresh | src/js/m_reader.js:229-233 | after a successful delete: reload exactly when the book is the current one, otherwise the refreshed library |
| Reader.DeleteBookFromWelcomeScreen | src/js/m_reader.js:225-237 | cancelled: nothing changes; confirmed without a database: fails and local storage is unchanged; confirmed: record and position removed, then a reload exactly when the current book was deleted and otherwise the library in the chosen order |
| Reader.FirstIndex | src/js/m_reader.js:215 | the index of an entry with the id, and no earlier entry has it |
| Reader.RemoveFirst | src/js/m_reader.js:215-216 | the list with exactly its first entry for the id cut out (the list itself when the id is absent); one entry and one occurrence fewer |
| Reader.LookupFor | src/js/m_reader.js:215 | an id without `"`, `\`, line breaks or NUL finds exactly its first entry, or none, and never throws; any other id gives whatever the browser did |
| Reader.ListAfterLookup | src/js/m_reader.js:216 | exactly the found entry is removed, the others keep their order; otherwise the list is unchanged |
| Reader.SafeIdRemovesFirst | src/js/m_reader.js:215-216 | for a safely quoted id the lookup does not throw and the list loses exactly the first entry for the id |
| Reader.DeleteBookFromHistory | src/js/m_reader.js:210-223 | cancelled or failed: nothing changes; after a successful delete the record and position are gone; a throwing selector then skips the list update, reload and refresh; otherwise the found entry leaves the list and the page reloads exactly when the book is current, else the library is refreshed |
| Events.OnSortOrderChange | src/js/m_events.js:43 | the sort order is set and saved, and the library is refreshed in that order |
| Events.OnOriginalFormatToggle | src/js/m_events.js:44 | the flag follows the checkbox and is saved |
| Events.OnFontSizeInput | src/js/m_events.js:45 | the size changes and local storage is not touched |
| Events.OnFontFamilyChange | src/js/m_events.js:47 | the family is set and saved |
| Events.WithCustomBg | src/js/m_events.js:48 | the background picker sets the custom background and makes 'custom' active, nothing else |
| Events.WithCustomText | src/js/m_events.js:49 | the text picker sets the custom text colour and makes 'custom' active, nothing else |
| Events.OnBgColorInput | src/js/m_events.js:48 | the settings take the picked background and local storage is not touched |
| Events.OnTextColorInput | src/js/m_events.js:49 | the settings take the picked text colour and local storage is not touched |
| Events.PickedColorsShow | src/js/m_events.js:48-49 | after picking both colours the reader shows exactly them |
| Events.OnPageTurn | src/js/m_events.js:9-10 | the page turns exactly when a rendition exists |
| Events.LibraryClickAction | src/js/m_events.js:28-41 | no card or no id: nothing; delete button: delete; info button: info; elsewhere in the card: open, always with the card's id |
| Events.HistoryListClickAction | src/js/m_events.js:21-26 | the list's listener deletes exactly when the click is on a delete button of an entry with a non-empty id, and then with that id; it does nothing else |
| Events.HistoryItemClickAction | src/js/m_reader.js:202-205 | a click in an entry's title and date opens exactly that entry's book; nothing else |
| Events.HistoryClickActsOnce | src/js/m_reader.js:196-205 | a click not both on the delete button and in the title sets off at most one of the two listeners |

## Left out

- The DOM: HTML of the lists, CSS properties, theme buttons, the font
  selector, control states, the welcome screen, modals and `setupModal`.
  The model keeps what each operation decides, not what it draws.
- `m_modals.js` and `main.js`: dialog plumbing and start-up wiring. A
  confirmation is a boolean and a prompt an `Option<string>` answer.
- `blobUrlToBase64` and all epub.js and FileReader work. Each file carries
  what reading and parsing it produced. A failure of epub.js (opening,
  `ready`, `coverUrl`) is `ParseError`; `blobUrlToBase64` never rejects, so
  a cover that cannot be fetched or read is saved as no cover.
- IndexedDB mechanics: `initDB` versioning and upgrade, transactions, and
  request errors. Each call is one step that succeeds whenever the
  database is open.
- Promise timing: each asynchronous call is a sequential step, and the
  non-awaited `displayImportedFiles` after a missing book runs at once.
- `showBookInfo`, `updateUiWithSettings`, `renderColorThemes`,
  `populateFontSelector`, `updateActiveThemeButton` and
  `updateSettingsControlsState` only render. `Events.LibraryClickAction`
  yields `ShowInfo` where the info panel would open.
- The `disabled` toggling of the file input and the reset of its value.
  The import alert text is not modelled either; its counts are
  `Reader.ImportFiles`'s result.
- `window.location.reload` and the home button: a reload is the outcome
  `Reloaded` or `true`.
- The epub.js rendition is reduced to the position it is first displayed
  at. Page turns and `display(href)` move epub.js's own position, which is
  not modelled.
- The settings entry is kept as the parsed object. Malformed JSON, which
  makes `loadSettings` throw, is not modelled; neither are values that do
  not survive `JSON.stringify`.
- Reader.ImportFiles: all files of one selection are stamped with the same
  `now`, while the code calls `new Date()` once per file.
- Reader.SortForLibrary: `localeCompare(…, 'vi')` is replaced by code-point
  lexicographic order. The sort is claimed to be a sorted permutation; the
  stability that `Array.prototype.sort` has is not stated.
- Db.GetAllBooks: IndexedDB returns records in key order; the model
  promises every record once in some order.
- Common.Lower: `toLowerCase` and `toUpperCase` map ASCII letters only, so
  Vietnamese letters are compared as written. This affects theme-name
  validation and the table-of-contents filter.
- Ui.IsDark: the luminance is compared exactly, while the code sums
  `R*0.299 + G*0.587 + B*0.114` in doubles. The two agree on every colour
  but 17 whose exact luminance is 186: for these, such as `#51f989` and
  `#a4b8fe`, the double sum rounds below 186, so the code calls them dark
  (surface +15%, border +30%) and the model light (-10%, -20%).
- Reader.DeleteBookFromHistory: for an id containing `"`, `\`, a line
  break or NUL the selector lookup is a parameter, not derived from CSS
  parsing; the empty-list placeholder entry is not modelled.
- Color.AdjustColor: requires a `#rrggbb` input and an integer percentage.
  The result the code gives for other strings (NaN channels) is not
  modelled; `addTheme` only passes the colour picker's value, which always
  has that form.
- Ui.ReaderStyleFor: the `TypeError` on missing colours is the outcome
  `StyleFailed`; the rule text registered with epub.js is not modelled.
- Ui.AppTheme: with no theme at all the code throws; the model returns
  `None`.
- Events.OnFontSizeInput: the slider value is passed as the integer
  `parseInt` reads from it; `parseInt` itself is not modelled.
- The `change` events of the font-size slider and the colour pickers call
  `saveSettings` directly, which is `Ui.SaveSettings`.
