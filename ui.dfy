/** Settings and themes of m_ui.js: persisting the settings in `localStorage`,
    resolving the active theme, the reader's presentation, and adding and
    deleting custom themes.

    The DOM work (CSS custom properties, the theme buttons, the font
    selector, the disabled state of the controls) is left out; what each
    operation decides is kept. A confirmation dialog is the boolean
    `confirmed`; the prompt of `addTheme` is its answer, `None` when it was
    cancelled. */
module Ui {
  import opened Common
  import opened Context
  import opened Color
  import Db

  // ---------------------------------------------------------------------
  // loadSettings / saveSettings

  /** `JSON.parse(JSON.stringify(settings))`: every key is written. */
  function Snapshot(s: Settings): (p: StoredSettings)
  {
    StoredSettings(Some(s.fontSize), Some(s.fontFamily), Some(s.activeThemeName),
                   Some(s.keepOriginalFormat), Some(s.sortOrder), Some(s.customColors),
                   Some(s.themes))
  }

  function Pick<T>(stored: Option<T>, current: T): T
  {
    if stored.Some? then stored.value else current
  }

  /** `{ ...current, ...stored }`: a key present in the stored object wins. */
  function Merge(current: Settings, stored: StoredSettings): (r: Settings)
  {
    Settings(Pick(stored.fontSize, current.fontSize),
             Pick(stored.fontFamily, current.fontFamily),
             Pick(stored.activeThemeName, current.activeThemeName),
             Pick(stored.keepOriginalFormat, current.keepOriginalFormat),
             Pick(stored.sortOrder, current.sortOrder),
             Pick(stored.customColors, current.customColors),
             Pick(stored.themes, current.themes))
  }

  /** Loading what was saved gives back the saved settings, whatever the
      current ones; merging with an empty object changes nothing; merging
      the same object twice is merging it once. */
  lemma MergeLaws(s: Settings, current: Settings, p: StoredSettings)
    ensures Merge(current, Snapshot(s)) == s
    ensures Merge(s, StoredSettings(None, None, None, None, None, None, None)) == s
    ensures Merge(Merge(s, p), p) == Merge(s, p)
  {
  }

  /** loadSettings: the persisted object, if any, merged over the settings. */
  method LoadSettings(ctx: Ctx, ls: LocalStorage)
    modifies ctx
    ensures ctx.OnlySettingsChanged()
    ensures ls.settingsEntry.None? ==> ctx.settings == old(ctx.settings)
    ensures ls.settingsEntry.Some? ==> ctx.settings == Merge(old(ctx.settings), ls.settingsEntry.value)
  {
    if ls.settingsEntry.Some? {
      ctx.settings := Merge(ctx.settings, ls.settingsEntry.value);
    }
  }

  /** saveSettings: the settings entry holds every key of the settings. */
  method SaveSettings(ctx: Ctx, ls: LocalStorage)
    modifies ls
    ensures ls.settingsEntry == Some(Snapshot(ctx.settings))
    ensures ls.items == old(ls.items)
  {
    ls.settingsEntry := Some(Snapshot(ctx.settings));
  }

  // ---------------------------------------------------------------------
  // Theme lookup

  /** `themes.find(t => t.name === name)`, as the index of the first match. */
  function FindTheme(themes: seq<Theme>, name: string): (r: Option<nat>)
    ensures r.Some? ==> r.value < |themes| && themes[r.value].name == name
    ensures r.Some? ==> forall j :: 0 <= j < r.value ==> themes[j].name != name
    ensures r.None? ==> forall j :: 0 <= j < |themes| ==> themes[j].name != name
  {
    if themes == [] then None
    else if themes[0].name == name then Some(0)
    else
      var rest := FindTheme(themes[1..], name);
      if rest.Some? then Some(rest.value + 1) else None
  }

  /** The theme `applyThemeToApp` paints the application with: the first one
      named as the active theme, else the first theme. With no theme at all
      the source fails on `undefined.bg`: `None`. */
  function AppTheme(s: Settings): (t: Option<Theme>)
    ensures t.None? <==> |s.themes| == 0
    ensures t.Some? ==> t.value in s.themes
    ensures FindTheme(s.themes, s.activeThemeName).Some?
            ==> t == Some(s.themes[FindTheme(s.themes, s.activeThemeName).value])
    ensures (exists i :: 0 <= i < |s.themes| && s.themes[i].name == s.activeThemeName)
            ==> t.Some? && t.value.name == s.activeThemeName
    ensures |s.themes| > 0 && (forall i :: 0 <= i < |s.themes| ==> s.themes[i].name != s.activeThemeName)
            ==> t == Some(s.themes[0])
  {
    var found := FindTheme(s.themes, s.activeThemeName);
    if found.Some? then Some(s.themes[found.value])
    else if |s.themes| > 0 then Some(s.themes[0])
    else None
  }

  /** The colours `applyReaderSettings` uses: the picker colours when the
      active name is 'custom', otherwise those of the application theme. */
  function ReaderColors(s: Settings): (c: Option<Colors>)
    ensures s.activeThemeName == CustomThemeName ==> c == Some(s.customColors)
    ensures s.activeThemeName != CustomThemeName ==> (c.Some? <==> AppTheme(s).Some?)
    ensures s.activeThemeName != CustomThemeName && c.Some?
            ==> c.value == Colors(AppTheme(s).value.bg, AppTheme(s).value.text)
  {
    if s.activeThemeName == CustomThemeName then Some(s.customColors)
    else
      var t := AppTheme(s);
      if t.Some? then Some(Colors(t.value.bg, t.value.text)) else None
  }

  /** The name 'custom' means the picker colours to the reader only: the
      application itself keeps the first theme, or a theme a user called
      'custom'. */
  lemma CustomSelectionSplits(s: Settings)
    requires s.activeThemeName == CustomThemeName && |s.themes| > 0
    ensures ReaderColors(s) == Some(s.customColors)
    ensures (forall i :: 0 <= i < |s.themes| ==> s.themes[i].name != CustomThemeName)
            ==> AppTheme(s) == Some(s.themes[0])
  {
  }

  /** The defaults paint the application and the reader with the 'Hồng'
      theme. */
  lemma DefaultsResolveToDefaultTheme()
    ensures AppTheme(DefaultSettings) == Some(DefaultThemes[4])
    ensures ReaderColors(DefaultSettings) == Some(Colors("rgb(35, 38, 39)", "rgb(247, 183, 183)"))
  {
    DefaultThemesWellFormed();
    assert DefaultThemes[4].name == DefaultThemeName;
    assert Lower(DefaultThemes[4].name) != Lower(DefaultThemes[3].name);
    var found := FindTheme(DefaultThemes, DefaultThemeName);
    assert found == Some(4);
  }

  // ---------------------------------------------------------------------
  // applyReaderSettings

  datatype Layout = BaseLayout | CustomTheme

  /** What `applyReaderSettings` does to the open book: for an epub with a
      rendition it selects one of two registered themes, for a text book it
      styles the text; `StyleFailed` is the TypeError on missing colours. */
  datatype ReaderStyle =
    | NoStyle
    | StyleFailed
    | EpubStyle(layout: Layout, colors: Colors, fontFamily: string, fontSize: int)
    | TxtStyle(colors: Colors, fontFamily: string, fontSize: int)

  function ReaderStyleFor(s: Settings, bookType: Option<BookType>, hasRendition: bool): (st: ReaderStyle)
    ensures st.NoStyle? <==> !(bookType == Some(Epub) && hasRendition) && bookType != Some(Txt)
    ensures st.StyleFailed? <==> !st.NoStyle? && ReaderColors(s).None?
    ensures st.EpubStyle? <==> bookType == Some(Epub) && hasRendition && ReaderColors(s).Some?
    ensures st.EpubStyle? ==> (st.layout == BaseLayout <==> s.keepOriginalFormat)
    ensures st.EpubStyle? || st.TxtStyle?
            ==> st.colors == ReaderColors(s).value && st.fontFamily == s.fontFamily && st.fontSize == s.fontSize
  {
    var colors := ReaderColors(s);
    if bookType == Some(Epub) && hasRendition then
      if colors.None? then StyleFailed
      else EpubStyle(if s.keepOriginalFormat then BaseLayout else CustomTheme,
                     colors.value, s.fontFamily, s.fontSize)
    else if bookType == Some(Txt) then
      if colors.None? then StyleFailed else TxtStyle(colors.value, s.fontFamily, s.fontSize)
    else NoStyle
  }

  /** The presentation of the current session. */
  function CurrentStyle(ctx: Ctx): ReaderStyle
    reads ctx
  {
    ReaderStyleFor(ctx.settings, ctx.currentBookType, ctx.rendition.Some?)
  }

  // ---------------------------------------------------------------------
  // Selecting a theme

  /** A click on a theme button: ignored while the original format is kept,
      otherwise the theme becomes active and the settings are saved. */
  method SelectTheme(ctx: Ctx, ls: LocalStorage, name: string)
    modifies ctx, ls
    ensures ctx.OnlySettingsChanged() && ls.items == old(ls.items)
    ensures old(ctx.settings.keepOriginalFormat)
            ==> ctx.settings == old(ctx.settings) && ls.settingsEntry == old(ls.settingsEntry)
    ensures !old(ctx.settings.keepOriginalFormat)
            ==> ctx.settings == old(ctx.settings).(activeThemeName := name)
                && ls.settingsEntry == Some(Snapshot(ctx.settings))
  {
    if ctx.settings.keepOriginalFormat {
      return;
    }
    ctx.settings := ctx.settings.(activeThemeName := name);
    SaveSettings(ctx, ls);
  }

  // ---------------------------------------------------------------------
  // addTheme

  datatype ThemeError = EmptyName | DuplicateName

  /** Some theme already has `name`, ignoring case. */
  predicate NameTaken(themes: seq<Theme>, name: string)
  {
    exists i :: 0 <= i < |themes| && Lower(themes[i].name) == Lower(name)
  }

  /** The name checks of `addTheme`: the trimmed answer must be non-empty and
      must not match an existing name case-insensitively. */
  function ValidateThemeName(themes: seq<Theme>, answer: string): (r: Result<string, ThemeError>)
    ensures r == Err(EmptyName) <==> Trim(answer) == []
    ensures r == Err(DuplicateName) <==> Trim(answer) != [] && NameTaken(themes, Trim(answer))
    ensures r.Ok? ==> r.value == Trim(answer) && r.value != [] && !NameTaken(themes, r.value)
  {
    var name := Trim(answer);
    if name == [] then Err(EmptyName)
    else if NameTaken(themes, name) then Err(DuplicateName)
    else Ok(name)
  }

  /** A white-space-only answer is refused as empty. */
  lemma BlankNameRefused(themes: seq<Theme>, answer: string)
    requires forall i :: 0 <= i < |answer| ==> IsSpace(answer[i])
    ensures ValidateThemeName(themes, answer) == Err(EmptyName)
  {
    TrimEmptyIff(answer);
  }

  /** `isDark`: the luminance 0.299 R + 0.587 G + 0.114 B is below 186,
      scaled by 1000 to stay in integers. */
  predicate IsDark(bg: string)
    requires IsHexColor(bg)
  {
    299 * Channel(bg, 0) + 587 * Channel(bg, 1) + 114 * Channel(bg, 2) < 186000
  }

  /** The integer test agrees with the exact real-valued luminance test. */
  lemma IsDarkIsLuminance(bg: string)
    requires IsHexColor(bg)
    ensures IsDark(bg) <==> Channel(bg, 0) as real * 0.299 + Channel(bg, 1) as real * 0.587
                            + Channel(bg, 2) as real * 0.114 < 186.0
  {
  }

  /** The theme `addTheme` builds: a dark background gets a lighter surface
      (15%) and border (30%), a light one a darker surface (-10%) and border
      (-20%). */
  function DeriveTheme(name: string, bg: string, text: string): (t: Theme)
    requires IsHexColor(bg)
    ensures t.name == name && t.bg == bg && t.text == text && t.isCustom
    ensures IsLowerHexColor(t.surface) && IsLowerHexColor(t.border)
    ensures IsDark(bg) ==> t.surface == AdjustColor(bg, 15) && t.border == AdjustColor(bg, 30)
    ensures !IsDark(bg) ==> t.surface == AdjustColor(bg, -10) && t.border == AdjustColor(bg, -20)
  {
    var dark := IsDark(bg);
    Theme(name, bg, text, AdjustColor(bg, if dark then 15 else -10),
          AdjustColor(bg, if dark then 30 else -20), true)
  }

  /** On a dark background the border is at least as light as the surface,
      which is at least as light as the background; on a light one it is the
      other way round, channel by channel. */
  lemma DerivedShades(name: string, bg: string, text: string, k: nat)
    requires IsHexColor(bg) && k < 3
    ensures var t := DeriveTheme(name, bg, text);
            IsDark(bg) ==> Channel(bg, k) <= Channel(t.surface, k) <= Channel(t.border, k)
    ensures var t := DeriveTheme(name, bg, text);
            !IsDark(bg) ==> Channel(bg, k) >= Channel(t.surface, k) >= Channel(t.border, k)
  {
    var c := Channel(bg, k);
    var t := DeriveTheme(name, bg, text);
    if IsDark(bg) {
      assert t.surface == AdjustColor(bg, 15) && t.border == AdjustColor(bg, 30);
      AdjustedChannel(bg, 15, k);
      AdjustedChannel(bg, 30, k);
      AdjustIsMonotone(c, 15);
      AdjustMonotoneInPercent(c, 15, 30);
    } else {
      assert t.surface == AdjustColor(bg, -10) && t.border == AdjustColor(bg, -20);
      AdjustedChannel(bg, -10, k);
      AdjustedChannel(bg, -20, k);
      AdjustIsMonotone(c, -10);
      AdjustMonotoneInPercent(c, -20, -10);
    }
  }

  /** The dark built-in background and the paper one are classified as
      such. */
  lemma DarknessExamples()
    ensures IsDark("#121212") && !IsDark("#FBF0D9")
  {
    assert Channel("#121212", 0) == 18 && Channel("#121212", 1) == 18 && Channel("#121212", 2) == 18;
    assert Channel("#FBF0D9", 0) == 251 && Channel("#FBF0D9", 1) == 240;
  }

  /** A dark custom theme on `#121212` gets surface `#151515` and border
      `#171717`. */
  lemma DerivationExample()
    ensures DeriveTheme("Night", "#121212", "#E0E0E0").surface == "#151515"
    ensures DeriveTheme("Night", "#121212", "#E0E0E0").border == "#171717"
  {
    DarknessExamples();
    assert Channel("#121212", 0) == 18 && Channel("#121212", 1) == 18 && Channel("#121212", 2) == 18;
    assert AdjustChannel(18, 15) == 21 && AdjustChannel(18, 30) == 23;
    AdjustedDigits("#121212", 15);
    AdjustedDigits("#121212", 30);
    assert HexDigit(1) == '1' && HexDigit(5) == '5' && HexDigit(7) == '7';
  }

  /** Appending a theme whose name passed validation keeps the names
      distinct. */
  lemma AddKeepsNamesDistinct(themes: seq<Theme>, answer: string, bg: string, text: string)
    requires IsHexColor(bg) && DistinctNames(themes)
    requires ValidateThemeName(themes, answer).Ok?
    ensures DistinctNames(themes + [DeriveTheme(ValidateThemeName(themes, answer).value, bg, text)])
  {
    var name := ValidateThemeName(themes, answer).value;
    var added := themes + [DeriveTheme(name, bg, text)];
    forall i, j | 0 <= i < j < |added|
      ensures Lower(added[i].name) != Lower(added[j].name)
    {
      if j == |themes| {
        assert added[i] == themes[i];
        assert !(Lower(themes[i].name) == Lower(name));
      } else {
        assert added[i] == themes[i] && added[j] == themes[j];
      }
    }
  }

  datatype AddThemeOutcome = PromptDismissed | Rejected(error: ThemeError) | Added(theme: Theme)

  /** addTheme: `answer` is what the prompt resolved with (`None`: it was
      cancelled), `bg` and `text` the values of the two colour pickers. A
      valid name appends one derived custom theme and saves the settings;
      otherwise nothing changes. */
  method AddTheme(ctx: Ctx, ls: LocalStorage, answer: Option<string>, bg: string, text: string)
    returns (out: AddThemeOutcome)
    requires IsHexColor(bg)
    modifies ctx, ls
    ensures ctx.OnlySettingsChanged() && ls.items == old(ls.items)
    ensures answer.None? ==> out == PromptDismissed
    ensures answer.Some? ==>
              var checked := ValidateThemeName(old(ctx.settings.themes), answer.value);
              if checked.Err? then out == Rejected(checked.error)
              else out == Added(DeriveTheme(checked.value, bg, text))
    ensures !out.Added? ==> ctx.settings == old(ctx.settings) && ls.settingsEntry == old(ls.settingsEntry)
    ensures out.Added? ==> ctx.settings == old(ctx.settings).(themes := old(ctx.settings.themes) + [out.theme])
                           && ls.settingsEntry == Some(Snapshot(ctx.settings))
  {
    if answer.None? {
      return PromptDismissed;
    }
    var checked := ValidateThemeName(ctx.settings.themes, answer.value);
    if checked.Err? {
      return Rejected(checked.error);
    }
    var theme := DeriveTheme(checked.value, bg, text);
    AppendTheme(ctx, ls, theme);
    out := Added(theme);
  }

  /** `themes.push(theme)` followed by saveSettings. */
  method AppendTheme(ctx: Ctx, ls: LocalStorage, theme: Theme)
    modifies ctx, ls
    ensures ctx.OnlySettingsChanged() && ls.items == old(ls.items)
    ensures ctx.settings == old(ctx.settings).(themes := old(ctx.settings.themes) + [theme])
    ensures ls.settingsEntry == Some(Snapshot(ctx.settings))
  {
    ctx.settings := ctx.settings.(themes := ctx.settings.themes + [theme]);
    SaveSettings(ctx, ls);
  }

  // ---------------------------------------------------------------------
  // deleteTheme

  /** `themes.filter(t => t.name !== name)`: exact, case-sensitive names. */
  function RemoveNamed(themes: seq<Theme>, name: string): (r: seq<Theme>)
    ensures |r| <= |themes|
    ensures forall t :: t in r <==> t in themes && t.name != name
    ensures (forall i :: 0 <= i < |themes| ==> themes[i].name != name) ==> r == themes
  {
    if themes == [] then []
    else if themes[0].name == name then RemoveNamed(themes[1..], name)
    else [themes[0]] + RemoveNamed(themes[1..], name)
  }

  /** Filtering works piece by piece, so the kept themes stay in order. */
  lemma {:induction false} RemoveNamedAppend(a: seq<Theme>, b: seq<Theme>, name: string)
    ensures RemoveNamed(a + b, name) == RemoveNamed(a, name) + RemoveNamed(b, name)
  {
    if a != [] {
      assert (a + b)[0] == a[0];
      assert (a + b)[1..] == a[1..] + b;
      RemoveNamedAppend(a[1..], b, name);
    } else {
      assert a + b == b;
    }
  }

  /** Dropping the first theme keeps the names distinct. */
  lemma DistinctTail(themes: seq<Theme>)
    requires DistinctNames(themes) && themes != []
    ensures DistinctNames(themes[1..])
  {
    var tail := themes[1..];
    forall i, j | 0 <= i < j < |tail| ensures Lower(tail[i].name) != Lower(tail[j].name) {
      assert tail[i] == themes[i + 1] && tail[j] == themes[j + 1];
    }
  }

  /** No later theme shares the first theme's name. */
  lemma HeadNameUnique(themes: seq<Theme>)
    requires DistinctNames(themes) && themes != []
    ensures forall u :: u in themes[1..] ==> Lower(u.name) != Lower(themes[0].name)
  {
    forall u | u in themes[1..] ensures Lower(u.name) != Lower(themes[0].name) {
      var m :| 0 <= m < |themes[1..]| && themes[1..][m] == u;
      assert themes[m + 1] == u;
    }
  }

  /** A theme whose name no theme of a distinct list shares can go in
      front. */
  lemma DistinctCons(t: Theme, rest: seq<Theme>)
    requires DistinctNames(rest)
    requires forall u :: u in rest ==> Lower(u.name) != Lower(t.name)
    ensures DistinctNames([t] + rest)
  {
    var r := [t] + rest;
    forall i, j | 0 <= i < j < |r| ensures Lower(r[i].name) != Lower(r[j].name) {
      assert r[j] == rest[j - 1];
      if i > 0 {
        assert r[i] == rest[i - 1];
      }
    }
  }

  /** Removing themes keeps the remaining names distinct. */
  lemma {:induction false} RemoveKeepsNamesDistinct(themes: seq<Theme>, name: string)
    requires DistinctNames(themes)
    ensures DistinctNames(RemoveNamed(themes, name))
  {
    if themes != [] {
      DistinctTail(themes);
      RemoveKeepsNamesDistinct(themes[1..], name);
      if themes[0].name != name {
        HeadNameUnique(themes);
        DistinctCons(themes[0], RemoveNamed(themes[1..], name));
      }
    }
  }

  /** A theme offers a delete button only when it is custom. */
  predicate HasDeleteButton(themes: seq<Theme>, name: string)
  {
    exists i :: 0 <= i < |themes| && themes[i].isCustom && themes[i].name == name
  }

  /** Deleting through a delete button never removes a built-in theme, as
      long as names are distinct. */
  lemma DeleteSparesBuiltIns(themes: seq<Theme>, name: string)
    requires DistinctNames(themes) && HasDeleteButton(themes, name)
    ensures forall t :: t in themes && !t.isCustom ==> t in RemoveNamed(themes, name)
  {
    var c :| 0 <= c < |themes| && themes[c].isCustom && themes[c].name == name;
    forall t | t in themes && !t.isCustom ensures t in RemoveNamed(themes, name) {
      var m :| 0 <= m < |themes| && themes[m] == t;
      assert m != c;
      assert Lower(themes[m].name) != Lower(themes[c].name);
    }
  }

  /** deleteTheme after the confirmation: the themes named `name` are
      removed, an active one falls back to 'Hồng', and the settings are
      saved. Without confirmation nothing changes. */
  method DeleteTheme(ctx: Ctx, ls: LocalStorage, name: string, confirmed: bool)
    modifies ctx, ls
    ensures ctx.OnlySettingsChanged() && ls.items == old(ls.items)
    ensures !confirmed ==> ctx.settings == old(ctx.settings) && ls.settingsEntry == old(ls.settingsEntry)
    ensures confirmed ==> ctx.settings == old(ctx.settings).(
                            themes := RemoveNamed(old(ctx.settings.themes), name),
                            activeThemeName := if old(ctx.settings.activeThemeName) == name
                                               then DefaultThemeName
                                               else old(ctx.settings.activeThemeName))
    ensures confirmed ==> ls.settingsEntry == Some(Snapshot(ctx.settings))
  {
    if !confirmed {
      return;
    }
    ctx.settings := ctx.settings.(themes := RemoveNamed(ctx.settings.themes, name));
    if ctx.settings.activeThemeName == name {
      ctx.settings := ctx.settings.(activeThemeName := DefaultThemeName);
    }
    SaveSettings(ctx, ls);
  }

  /** Deleting any theme not named 'Hồng' keeps the theme the deletion
      falls back to. */
  lemma DeleteKeepsFallbackTheme(themes: seq<Theme>, name: string)
    requires name != DefaultThemeName
    requires exists i :: 0 <= i < |themes| && themes[i].name == DefaultThemeName
    ensures exists i :: 0 <= i < |RemoveNamed(themes, name)| && RemoveNamed(themes, name)[i].name == DefaultThemeName
  {
    var i :| 0 <= i < |themes| && themes[i].name == DefaultThemeName;
    var left := RemoveNamed(themes, name);
    assert themes[i] in left;
    var j :| 0 <= j < |left| && left[j] == themes[i];
    assert left[j].name == DefaultThemeName;
  }

  // ---------------------------------------------------------------------
  // deleteAllData

  /** deleteAllData after the confirmation: clears the store, then all of
      `localStorage`, and reloads the page (`true`). */
  method DeleteAllData(ctx: Ctx, ls: LocalStorage, confirmed: bool) returns (reloads: bool)
    requires ctx.Valid()
    modifies ctx.db, ls
    ensures ctx.Valid() && reloads == confirmed
    ensures !confirmed ==> ls.items == old(ls.items) && ls.settingsEntry == old(ls.settingsEntry)
    ensures !confirmed && ctx.db != null ==> ctx.db.ebooks == old(ctx.db.ebooks)
    ensures confirmed ==> ls.items == map[] && ls.settingsEntry == None
    ensures confirmed && ctx.db != null ==> ctx.db.ebooks == map[]
  {
    if !confirmed {
      return false;
    }
    var _ := Db.ClearDb(ctx);
    ls.items := map[];
    ls.settingsEntry := None;
    reloads := true;
  }
}
