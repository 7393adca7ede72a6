/** The event handlers of m_events.js that change the settings, and the click
    dispatch of the library and history lists.

    An `input` event changes the settings and repaints without saving; the
    matching `change` event saves. Repainting (`applyReaderSettings`, the
    control states, the active theme button) is a function of the state,
    `Ui.CurrentStyle`, and is not repeated here. */
module Events {
  import opened Common
  import opened Context
  import opened Db
  import Ui
  import Reader

  /** Replaces the settings and nothing else of `ctx`. */
  method SetSettings(ctx: Ctx, s: Settings)
    modifies ctx
    ensures ctx.settings == s && ctx.OnlySettingsChanged()
  {
    ctx.settings := s;
  }

  /** The sort selector's `change`: the new order is set, saved and the
      library refreshed in that order. */
  method OnSortOrderChange(ctx: Ctx, ls: LocalStorage, value: string)
    returns (listed: Result<seq<BookRecord>, DbError>)
    requires ctx.Valid()
    modifies ctx, ls
    ensures ctx.Valid() && ctx.OnlySettingsChanged()
    ensures ctx.settings == old(ctx.settings).(sortOrder := value)
    ensures ls.settingsEntry == Some(Ui.Snapshot(ctx.settings)) && ls.items == old(ls.items)
    ensures ctx.db == null ==> listed == Err(DbNotInitialized)
    ensures ctx.db != null ==> listed.Ok? && ListsStore(listed.value, ctx.db.ebooks)
                               && Reader.InLibraryOrder(listed.value, value)
  {
    SetSettings(ctx, ctx.settings.(sortOrder := value));
    Ui.SaveSettings(ctx, ls);
    listed := Reader.DisplayImportedFiles(ctx);
  }

  /** The original-format toggle's `change`: the flag follows the checkbox
      and is saved. */
  method OnOriginalFormatToggle(ctx: Ctx, ls: LocalStorage, checked: bool)
    modifies ctx, ls
    ensures ctx.OnlySettingsChanged()
    ensures ctx.settings == old(ctx.settings).(keepOriginalFormat := checked)
    ensures ls.settingsEntry == Some(Ui.Snapshot(ctx.settings)) && ls.items == old(ls.items)
  {
    SetSettings(ctx, ctx.settings.(keepOriginalFormat := checked));
    Ui.SaveSettings(ctx, ls);
  }

  /** The font-size slider's `input`: the size (the number `parseInt` reads
      from the slider) takes effect but is not saved. */
  method OnFontSizeInput(ctx: Ctx, size: int)
    modifies ctx
    ensures ctx.OnlySettingsChanged()
    ensures ctx.settings == old(ctx.settings).(fontSize := size)
  {
    SetSettings(ctx, ctx.settings.(fontSize := size));
  }

  /** The font selector's `change`: the family is set and saved. */
  method OnFontFamilyChange(ctx: Ctx, ls: LocalStorage, family: string)
    modifies ctx, ls
    ensures ctx.OnlySettingsChanged()
    ensures ctx.settings == old(ctx.settings).(fontFamily := family)
    ensures ls.settingsEntry == Some(Ui.Snapshot(ctx.settings)) && ls.items == old(ls.items)
  {
    SetSettings(ctx, ctx.settings.(fontFamily := family));
    Ui.SaveSettings(ctx, ls);
  }

  /** The settings after the background picker's `input`: the colour goes to
      `customColors` and the custom colours become active. */
  function WithCustomBg(s: Settings, color: string): (r: Settings)
    ensures r.activeThemeName == CustomThemeName
    ensures r.customColors == Colors(color, s.customColors.text)
    ensures r.(customColors := s.customColors, activeThemeName := s.activeThemeName) == s
  {
    s.(customColors := s.customColors.(bg := color), activeThemeName := CustomThemeName)
  }

  /** The settings after the text picker's `input`. */
  function WithCustomText(s: Settings, color: string): (r: Settings)
    ensures r.activeThemeName == CustomThemeName
    ensures r.customColors == Colors(s.customColors.bg, color)
    ensures r.(customColors := s.customColors, activeThemeName := s.activeThemeName) == s
  {
    s.(customColors := s.customColors.(text := color), activeThemeName := CustomThemeName)
  }

  /** The background picker's `input`; nothing is saved until its `change`. */
  method OnBgColorInput(ctx: Ctx, color: string)
    modifies ctx
    ensures ctx.OnlySettingsChanged()
    ensures ctx.settings == WithCustomBg(old(ctx.settings), color)
  {
    SetSettings(ctx, WithCustomBg(ctx.settings, color));
  }

  /** The text picker's `input`; nothing is saved until its `change`. */
  method OnTextColorInput(ctx: Ctx, color: string)
    modifies ctx
    ensures ctx.OnlySettingsChanged()
    ensures ctx.settings == WithCustomText(old(ctx.settings), color)
  {
    SetSettings(ctx, WithCustomText(ctx.settings, color));
  }

  /** A picked colour shows at once in the reader, whatever theme was
      active; the application keeps the first theme unless one is named
      'custom'. */
  lemma PickedColorsShow(s: Settings, bg: string, text: string)
    ensures Ui.ReaderColors(WithCustomText(WithCustomBg(s, bg), text)) == Some(Colors(bg, text))
    ensures |s.themes| > 0 && (forall i :: 0 <= i < |s.themes| ==> s.themes[i].name != CustomThemeName)
            ==> Ui.AppTheme(WithCustomBg(s, bg)) == Some(s.themes[0])
  {
  }

  /** The prev/next click areas: they turn the page only when a rendition
      exists, and change nothing of the state. */
  method OnPageTurn(ctx: Ctx) returns (turned: bool)
    ensures turned <==> ctx.rendition.Some?
  {
    turned := ctx.rendition.Some?;
  }

  // ---------------------------------------------------------------------
  // Click dispatch

  /** A click in the library list: the `data-book-id` of the card it falls
      in (`None` outside a card or on a card without one), whether the
      target is the delete button, and whether it is in an info button. */
  datatype LibraryClick = LibraryClick(cardBookId: Option<string>, onDeleteButton: bool, inInfoButton: bool)

  datatype ClickAction = NoAction | DeleteBook(id: string) | ShowInfo(id: string) | OpenBook(id: string)

  function LibraryClickAction(c: LibraryClick): (a: ClickAction)
    ensures a.NoAction? <==> c.cardBookId.None? || c.cardBookId.value == []
    ensures a.DeleteBook? <==> !a.NoAction? && c.onDeleteButton
    ensures a.ShowInfo? <==> !a.NoAction? && !c.onDeleteButton && c.inInfoButton
    ensures a.OpenBook? <==> !a.NoAction? && !c.onDeleteButton && !c.inInfoButton
    ensures !a.NoAction? ==> a.id == c.cardBookId.value
  {
    if c.cardBookId.None? || c.cardBookId.value == [] then NoAction
    else if c.onDeleteButton then DeleteBook(c.cardBookId.value)
    else if c.inInfoButton then ShowInfo(c.cardBookId.value)
    else OpenBook(c.cardBookId.value)
  }

  /** A click in the history list: the `data-book-id` of its entry, whether
      the target is the delete button, and whether it is in the entry's
      title and date. */
  datatype HistoryClick = HistoryClick(itemBookId: Option<string>, onDeleteButton: bool, inItemInfo: bool)

  /** The history list's own listener: only its delete button acts, and only
      on an entry with a non-empty id. */
  function HistoryListClickAction(c: HistoryClick): (a: ClickAction)
    ensures a.NoAction? || a.DeleteBook?
    ensures a.DeleteBook? <==> c.onDeleteButton && c.itemBookId.Some? && c.itemBookId.value != []
    ensures a.DeleteBook? ==> a.id == c.itemBookId.value
  {
    if c.onDeleteButton && c.itemBookId.Some? && c.itemBookId.value != [] then
      DeleteBook(c.itemBookId.value)
    else NoAction
  }

  /** The listener loadHistory puts on each entry's title and date: it opens
      that entry's book. */
  function HistoryItemClickAction(c: HistoryClick): (a: ClickAction)
    ensures a.NoAction? || a.OpenBook?
    ensures a.OpenBook? <==> c.inItemInfo && c.itemBookId.Some?
    ensures a.OpenBook? ==> a.id == c.itemBookId.value
  {
    if c.inItemInfo && c.itemBookId.Some? then OpenBook(c.itemBookId.value) else NoAction
  }

  /** The delete button is not inside the title and date, so a click in the
      history list sets off at most one of the two listeners. */
  lemma HistoryClickActsOnce(c: HistoryClick)
    requires !(c.onDeleteButton && c.inItemInfo)
    ensures HistoryListClickAction(c).NoAction? || HistoryItemClickAction(c).NoAction?
  {
  }
}
