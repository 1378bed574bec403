/** The Shell, Macro and Background menus built from the user's menu
    items (MainWindow::createUserMenu in source/MainWindow.cpp). An item's
    name is a path: "a>b>c" puts an entry "c" in submenu "b" of submenu
    "a". Items restricted to language modes other than the document's are
    left out. */
module UserMenu {
  import opened Strings

  /** One configured menu item: its name (a `>`-separated path), the
      language modes it is limited to (none: all), its macro or shell
      command and its keyboard shortcut ("" for none). */
  datatype MenuItem = MenuItem(name: string, languageModes: seq<string>, cmd: string, shortcut: string)

  /** The editor's own actions that a user item may stand for. */
  datatype StandardAction = Cut | Copy | Paste | Undo | Redo

  /** An entry of a menu: an action for user item number `item`, one of
      the editor's own actions (with the text it shows), or a submenu. */
  datatype Entry =
    | Leaf(text: string, item: nat, shortcut: string)
    | Standard(action: StandardAction, text: string)
    | Submenu(text: string, entries: seq<Entry>)

  const MenuSeparator: char := '>'

  // -----------------------------------------------------------------------
  // Which items are shown
  // -----------------------------------------------------------------------

  /** The language filter: an item shows when it lists no language mode
      or lists the document's. */
  method LanguageMatches(languageModes: seq<string>, documentMode: string) returns (found: bool)
    ensures found <==> languageModes == [] || documentMode in languageModes
  {
    found := languageModes == [];
    for language := 0 to |languageModes|
      invariant found <==> languageModes == [] || documentMode in languageModes[..language]
    {
      if languageModes[language] == documentMode {
        found := true;
      }
      assert languageModes[..language + 1] == languageModes[..language] + [languageModes[language]];
    }
    assert languageModes[..|languageModes|] == languageModes;
  }

  predicate Shown(item: MenuItem, documentMode: string) {
    item.languageModes == [] || documentMode in item.languageModes
  }

  // -----------------------------------------------------------------------
  // Splitting an item's name into submenu titles and the entry's text
  // -----------------------------------------------------------------------

  /** The walk through the name that createUserMenu makes: each `>` ends a
      submenu title, and what follows the last one is the entry's text. */
  method SplitMenuName(name: string) returns (titles: seq<string>, text: string)
    ensures titles + [text] == Split(name, MenuSeparator)
  {
    titles := [];
    var index := 0;
    while true
      invariant 0 <= index <= |name|
      invariant titles + Split(name[index..], MenuSeparator) == Split(name, MenuSeparator)
      decreases |name| - index
    {
      var subSep := IndexOf(name, MenuSeparator, index);
      if subSep == -1 {
        text := name[index..];
        SplitRest(name, MenuSeparator, index, titles);
        return;
      }
      var parentName := ParentTitle(name, index, subSep);
      ghost var before, from := titles, index;
      titles := titles + [parentName];
      index := subSep + 1;
      SplitStep(name, MenuSeparator, from, index, before, titles);
    }
  }

  /** The submenu title createUserMenu takes for the separator at
      `subSep`: `name.mid(index, subSep)` (a piece of length at most
      `subSep`, not one ending at `subSep`), then cut at its first
      separator. That is always the text between `index` and the
      separator. */
  method ParentTitle(name: string, index: nat, subSep: nat) returns (parentName: string)
    requires index <= subSep < |name| && name[subSep] == MenuSeparator
    requires forall j :: index <= j < subSep ==> name[j] != MenuSeparator
    ensures parentName == name[index..subSep]
  {
    parentName := Mid(name, index, subSep);
    assert forall j :: 0 <= j < |parentName| && j < subSep - index ==> parentName[j] == name[index + j];
    assert index > 0 ==> parentName[subSep - index] == MenuSeparator;
    var subSubSep := IndexOf(parentName, MenuSeparator, 0);
    assert subSubSep == (if index == 0 then -1 else subSep - index);
    if subSubSep != -1 {
      parentName := Mid(parentName, 0, subSubSep);
    }
  }

  // -----------------------------------------------------------------------
  // The entry an item becomes
  // -----------------------------------------------------------------------

  /** A command that is just one of the editor's own clipboard or undo
      actions is shown as that action. */
  function StandardFor(cmd: string): (r: Option<StandardAction>)
    ensures r.Some? ==> Trimmed(cmd) == StandardCommand(r.value)
    ensures forall a :: Trimmed(cmd) == StandardCommand(a) ==> r == Some(a)
  {
    var c := Trimmed(cmd);
    if c == StandardCommand(Cut) then Some(Cut)
    else if c == StandardCommand(Copy) then Some(Copy)
    else if c == StandardCommand(Paste) then Some(Paste)
    else if c == StandardCommand(Undo) then Some(Undo)
    else if c == StandardCommand(Redo) then Some(Redo)
    else None
  }

  function StandardCommand(a: StandardAction): string {
    match a
    case Cut => "cut_clipboard()"
    case Copy => "copy_clipboard()"
    case Paste => "paste_clipboard()"
    case Undo => "undo()"
    case Redo => "redo()"
  }

  /** The entry for item number `i` whose name ended in `text`. */
  function EntryFor(item: MenuItem, i: nat, text: string, standardText: StandardAction -> string): (e: Entry)
    ensures e.Leaf? <==> StandardFor(item.cmd).None?
    ensures e.Leaf? ==> e == Leaf(text, i, item.shortcut)
    ensures forall a :: Trimmed(item.cmd) == StandardCommand(a) ==> e == Standard(a, standardText(a))
  {
    match StandardFor(item.cmd)
    case Some(a) => Standard(a, standardText(a))
    case None => Leaf(text, i, item.shortcut)
  }

  /** The entries of `menu` other than `e`, in their order. */
  function Without(menu: seq<Entry>, e: Entry): (r: seq<Entry>)
    ensures forall x :: x in r <==> x in menu && x != e
    ensures |r| <= |menu|
    decreases |menu|
  {
    if menu == [] then []
    else if menu[0] == e then Without(menu[1..], e)
    else [menu[0]] + Without(menu[1..], e)
  }

  /** Removing what is not there changes nothing. */
  lemma {:induction false} WithoutAbsent(menu: seq<Entry>, e: Entry)
    requires e !in menu
    ensures Without(menu, e) == menu
    decreases |menu|
  {
    if menu != [] {
      WithoutAbsent(menu[1..], e);
      assert menu == [menu[0]] + menu[1..];
    }
  }

  /** Removing `e` from a menu that ends in `e` removes that last entry too. */
  lemma {:induction false} WithoutAppended(menu: seq<Entry>, e: Entry)
    ensures Without(menu + [e], e) == Without(menu, e)
    decreases |menu|
  {
    if menu == [] {
      assert Without([e], e) == Without([], e);
    } else {
      assert (menu + [e])[1..] == menu[1..] + [e];
      WithoutAppended(menu[1..], e);
    }
  }

  /** Adding an entry to a menu (QWidget::addAction). A user item becomes a
      new action at the end. One of the editor's own actions is shared, and
      a widget holds an action once: adding it again takes it out of its old
      place and puts it at the end. */
  function AddEntry(menu: seq<Entry>, e: Entry): (r: seq<Entry>)
    requires !e.Submenu?
    ensures |r| > 0 && r[|r| - 1] == e
    ensures Without(r, e) == Without(menu, e)
    ensures forall x :: x in r <==> x in menu || x == e
    ensures e.Leaf? ==> r == menu + [e]
    ensures e.Standard? ==> e !in r[..|r| - 1]
    ensures |r| <= |menu| + 1
  {
    var r := if e.Standard? then Without(menu, e) + [e] else menu + [e];
    assert r[..|r| - 1] == (if e.Standard? then Without(menu, e) else menu);
    WithoutAppended(r[..|r| - 1], e);
    assert r[..|r| - 1] + [e] == r;
    if e.Standard? then WithoutAbsent(Without(menu, e), e); r else r
  }

  /** Taking entries out of a menu keeps its submenu titles unique. */
  lemma {:induction false} WithoutKeepsUniqueTitles(menu: seq<Entry>, e: Entry)
    requires UniqueTitles(menu)
    ensures UniqueTitles(Without(menu, e))
    decreases |menu|
  {
    if menu != [] {
      var rest := menu[1..];
      assert UniqueTitles(rest) by {
        forall i, j | 0 <= i < j < |rest| && rest[i].Submenu? && rest[j].Submenu?
          ensures rest[i].text != rest[j].text
        {
          assert rest[i] == menu[i + 1] && rest[j] == menu[j + 1];
        }
        forall k | 0 <= k < |rest| && rest[k].Submenu?
          ensures UniqueTitles(rest[k].entries)
        {
          assert rest[k] == menu[k + 1];
        }
      }
      WithoutKeepsUniqueTitles(rest, e);
      var w := Without(rest, e);
      if menu[0] != e {
        var r := [menu[0]] + w;
        assert forall x :: x in w && x.Submenu? && menu[0].Submenu? ==> x.text != menu[0].text by {
          forall x | x in w && x.Submenu? && menu[0].Submenu?
            ensures x.text != menu[0].text
          {
            var j :| 0 <= j < |rest| && rest[j] == x;
            assert menu[j + 1] == x;
          }
        }
        forall i, j | 0 <= i < j < |r| && r[i].Submenu? && r[j].Submenu?
          ensures r[i].text != r[j].text
        {
          if i == 0 {
            assert r[j] == w[j - 1];
            assert r[j] in w;
          } else {
            assert r[i] == w[i - 1] && r[j] == w[j - 1];
          }
        }
        forall k | 0 <= k < |r| && r[k].Submenu?
          ensures UniqueTitles(r[k].entries)
        {
          if k > 0 {
            assert r[k] == w[k - 1];
          }
        }
      }
    }
  }

  // -----------------------------------------------------------------------
  // Putting an entry at the end of a path of submenus
  // -----------------------------------------------------------------------

  /** The first entry of any kind whose text is `title`, or -1: the
      lookup createUserMenu makes among a menu's actions. */
  function FindByText(menu: seq<Entry>, title: string): (k: int)
    ensures -1 <= k < |menu|
    ensures k == -1 <==> forall j :: 0 <= j < |menu| ==> menu[j].text != title
    ensures k != -1 ==> menu[k].text == title && forall j :: 0 <= j < k ==> menu[j].text != title
    decreases |menu|
  {
    if menu == [] then -1
    else if menu[0].text == title then 0
    else
      var k := FindByText(menu[1..], title);
      if k == -1 then -1 else k + 1
  }

  /** The first submenu titled `title`, or -1. */
  function FindSubmenu(menu: seq<Entry>, title: string): (k: int)
    ensures -1 <= k < |menu|
    ensures k == -1 <==> forall j :: 0 <= j < |menu| ==> !(menu[j].Submenu? && menu[j].text == title)
    ensures k != -1 ==> menu[k].Submenu? && menu[k].text == title
    ensures k != -1 ==> forall j :: 0 <= j < k ==> !(menu[j].Submenu? && menu[j].text == title)
    decreases |menu|
  {
    if menu == [] then -1
    else if menu[0].Submenu? && menu[0].text == title then 0
    else
      var k := FindSubmenu(menu[1..], title);
      if k == -1 then -1 else k + 1
  }

  /** The walk as the source makes it: the parent is the first action with
      the title, whatever its kind. When that action is not a submenu its
      menu is null and the walk cannot go on; None stands for that. */
  function InsertAsWritten(menu: seq<Entry>, titles: seq<string>, e: Entry): (r: Option<seq<Entry>>)
    requires !e.Submenu?
    decreases |titles|
  {
    if titles == [] then Some(AddEntry(menu, e))
    else
      var k := FindByText(menu, titles[0]);
      if k == -1 then
        match InsertAsWritten([], titles[1..], e)
        case None => None
        case Some(sub) => Some(menu + [Submenu(titles[0], sub)])
      else if menu[k].Submenu? then
        match InsertAsWritten(menu[k].entries, titles[1..], e)
        case None => None
        case Some(sub) => Some(menu[k := Submenu(titles[0], sub)])
      else None
  }

  /** The walk with the parent looked up among submenus only: an existing
      submenu is entered, and a missing one is created at the end. */
  function Insert(menu: seq<Entry>, titles: seq<string>, e: Entry): (r: seq<Entry>)
    requires !e.Submenu?
    decreases |titles|
  {
    if titles == [] then AddEntry(menu, e)
    else
      var k := FindSubmenu(menu, titles[0]);
      if k == -1 then menu + [Submenu(titles[0], Insert([], titles[1..], e))]
      else menu[k := Submenu(titles[0], Insert(menu[k].entries, titles[1..], e))]
  }

  /** The submenu reached by following `titles` from `menu`. */
  function Lookup(menu: seq<Entry>, titles: seq<string>): Option<seq<Entry>>
    decreases |titles|
  {
    if titles == [] then Some(menu)
    else
      var k := FindSubmenu(menu, titles[0]);
      if k == -1 then None else Lookup(menu[k].entries, titles[1..])
  }

  /** No menu, at any depth, holds two submenus with the same title. */
  predicate UniqueTitles(menu: seq<Entry>)
    decreases menu
  {
    (forall i, j :: 0 <= i < j < |menu| && menu[i].Submenu? && menu[j].Submenu? ==> menu[i].text != menu[j].text)
    && (forall k :: 0 <= k < |menu| && menu[k].Submenu? ==> UniqueTitles(menu[k].entries))
  }

  /** Inserting keeps submenu titles unique: an existing submenu is reused,
      never duplicated. */
  lemma {:induction false} InsertKeepsUniqueTitles(menu: seq<Entry>, titles: seq<string>, e: Entry)
    requires !e.Submenu? && UniqueTitles(menu)
    ensures UniqueTitles(Insert(menu, titles, e))
    decreases |titles|
  {
    if titles == [] {
      WithoutKeepsUniqueTitles(menu, e);
    } else {
      var k := FindSubmenu(menu, titles[0]);
      if k == -1 {
        InsertKeepsUniqueTitles([], titles[1..], e);
      } else {
        InsertKeepsUniqueTitles(menu[k].entries, titles[1..], e);
      }
    }
  }

  /** An existing submenu with the first title is entered: the menu keeps
      its length and the submenu its place. */
  lemma ReusesSubmenu(menu: seq<Entry>, titles: seq<string>, e: Entry)
    requires !e.Submenu? && titles != [] && FindSubmenu(menu, titles[0]) != -1
    ensures var r := Insert(menu, titles, e);
      var k := FindSubmenu(menu, titles[0]);
      |r| == |menu| && r[k].Submenu? && r[k].text == titles[0]
      && forall j :: 0 <= j < |menu| && j != k ==> r[j] == menu[j]
  {
  }

  /** The first submenu with a title is found where it is. */
  lemma {:induction false} FindSubmenuAt(menu: seq<Entry>, title: string, k: nat)
    requires k < |menu| && menu[k].Submenu? && menu[k].text == title
    requires forall j :: 0 <= j < k ==> !(menu[j].Submenu? && menu[j].text == title)
    ensures FindSubmenu(menu, title) == k
    decreases k
  {
    if k > 0 {
      FindSubmenuAt(menu[1..], title, k - 1);
    }
  }

  /** After inserting, the path leads to a menu holding the entry. */
  lemma {:induction false} InsertThenLookup(menu: seq<Entry>, titles: seq<string>, e: Entry)
    requires !e.Submenu?
    ensures var m := Lookup(Insert(menu, titles, e), titles); m.Some? && e in m.value
    decreases |titles|
  {
    if titles != [] {
      var r := Insert(menu, titles, e);
      var k := FindSubmenu(menu, titles[0]);
      if k == -1 {
        InsertThenLookup([], titles[1..], e);
        assert forall j :: 0 <= j < |menu| ==> r[j] == menu[j];
        FindSubmenuAt(r, titles[0], |menu|);
      } else {
        InsertThenLookup(menu[k].entries, titles[1..], e);
        assert forall j :: 0 <= j < k ==> r[j] == menu[j];
        FindSubmenuAt(r, titles[0], k);
      }
    }
  }

  /** No entry along the path has a title that is not a submenu's. */
  predicate NoClash(menu: seq<Entry>, titles: seq<string>)
    decreases |titles|
  {
    titles == [] ||
    var k := FindByText(menu, titles[0]);
    k == -1 || (menu[k].Submenu? && NoClash(menu[k].entries, titles[1..]))
  }

  /** Where no plain action shares a submenu's title, the source's walk
      succeeds and builds the same menu. */
  lemma {:induction false} AsWrittenAgrees(menu: seq<Entry>, titles: seq<string>, e: Entry)
    requires !e.Submenu? && NoClash(menu, titles)
    ensures InsertAsWritten(menu, titles, e) == Some(Insert(menu, titles, e))
    decreases |titles|
  {
    if titles != [] {
      var k := FindByText(menu, titles[0]);
      if k == -1 {
        assert FindSubmenu(menu, titles[0]) == -1;
        AsWrittenAgreesFresh(titles[1..], e);
      } else {
        assert FindSubmenu(menu, titles[0]) == k;
        AsWrittenAgrees(menu[k].entries, titles[1..], e);
      }
    }
  }

  /** Into a new, empty submenu the walk always succeeds. */
  lemma {:induction false} AsWrittenAgreesFresh(titles: seq<string>, e: Entry)
    requires !e.Submenu?
    ensures InsertAsWritten([], titles, e) == Some(Insert([], titles, e))
    decreases |titles|
  {
    if titles != [] {
      AsWrittenAgreesFresh(titles[1..], e);
    }
  }

  /** An item "Tools" followed by an item "Tools>Sort": the source finds
      the plain action "Tools" as the parent and has no menu to add "Sort"
      to, while the corrected walk creates a submenu beside it. */
  lemma ActionTitleClash()
    ensures var menu := [Leaf("Tools", 0, "")];
      InsertAsWritten(menu, ["Tools"], Leaf("Sort", 1, "")).None?
      && Insert(menu, ["Tools"], Leaf("Sort", 1, "")) == menu + [Submenu("Tools", [Leaf("Sort", 1, "")])]
  {
    var menu := [Leaf("Tools", 0, "")];
    var titles := ["Tools"];
    var e := Leaf("Sort", 1, "");
    assert FindByText(menu, "Tools") == 0;
    assert FindSubmenu(menu, "Tools") == -1;
    assert titles[1..] == [];
    assert Insert([], [], e) == [e];
    assert Insert(menu, titles, e) == menu + [Submenu("Tools", Insert([], titles[1..], e))];
  }

  // -----------------------------------------------------------------------
  // The whole menu
  // -----------------------------------------------------------------------

  /** The menu built from the first `n` items. */
  function UserMenuOf(items: seq<MenuItem>, n: nat, documentMode: string, standardText: StandardAction -> string)
    : (menu: seq<Entry>)
    requires n <= |items|
    ensures UniqueTitles(menu)
  {
    if n == 0 then []
    else
      var menu := UserMenuOf(items, n - 1, documentMode, standardText);
      var item := items[n - 1];
      if !Shown(item, documentMode) then menu
      else
        var parts := Split(item.name, MenuSeparator);
        var e := EntryFor(item, n - 1, parts[|parts| - 1], standardText);
        InsertKeepsUniqueTitles(menu, parts[..|parts| - 1], e);
        Insert(menu, parts[..|parts| - 1], e)
  }

  /** createUserMenu, with a parent looked up among submenus only. */
  method CreateUserMenu(items: seq<MenuItem>, documentMode: string, standardText: StandardAction -> string)
    returns (rootMenu: seq<Entry>)
    ensures rootMenu == UserMenuOf(items, |items|, documentMode, standardText)
    ensures UniqueTitles(rootMenu)
  {
    rootMenu := [];
    for i := 0 to |items|
      invariant rootMenu == UserMenuOf(items, i, documentMode, standardText)
    {
      var item := items[i];
      var found := LanguageMatches(item.languageModes, documentMode);
      if found {
        var titles, text := SplitMenuName(item.name);
        var e := EntryFor(item, i, text, standardText);
        rootMenu := Insert(rootMenu, titles, e);
      }
    }
  }

  /** Every shown item that is not one of the editor's own actions is
      reachable by following its name's submenu titles. */
  lemma ShownItemReachable(items: seq<MenuItem>, i: nat, documentMode: string, standardText: StandardAction -> string)
    requires i < |items| && Shown(items[i], documentMode) && StandardFor(items[i].cmd).None?
    ensures var parts := Split(items[i].name, MenuSeparator);
      var m := Lookup(UserMenuOf(items, i + 1, documentMode, standardText), parts[..|parts| - 1]);
      m.Some? && Leaf(parts[|parts| - 1], i, items[i].shortcut) in m.value
  {
    var parts := Split(items[i].name, MenuSeparator);
    var e := EntryFor(items[i], i, parts[|parts| - 1], standardText);
    assert UserMenuOf(items, i + 1, documentMode, standardText)
      == Insert(UserMenuOf(items, i, documentMode, standardText), parts[..|parts| - 1], e);
    InsertThenLookup(UserMenuOf(items, i, documentMode, standardText), parts[..|parts| - 1], e);
  }
}
