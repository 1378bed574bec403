# nedit-ng core, modelled in Dafny

This project models the parts of the nedit-ng text editor that decide
things rather than draw them, and proves what they promise:

- **Start-up command line** (source/Main.cpp, and the older
  source/nedit.cpp). A first pass imports preference files. The argument
  loop then reads options: `--`, `-tags`, `-do`, `-line`/`+n`, `-group`,
  `-tabbed`, `-V`, `-help` and the rest. It opens each file named and
  falls back to an "Untitled" window. Without a display, source/nedit.cpp
  still scans for `-V`. Both versions are one loop, `CommandLine.Loop`,
  run over each version's own option table. The older version runs over
  that table corrected to skip `-importold` (see the source/nedit.cpp:158-161
  row under Findings), and both use the corrected file test (see the
  source/Main.cpp:282 row).
- **"Open Previous" history** (`MainWindow::AddToPrevOpenMenu`,
  `ReadNEditDB`, `WriteNEditDB`). A class holds the process-wide list,
  and the history file is text passed in and out.
- **Untitled names** (`MainWindow::UniqueUntitledNameEx`): "Untitled",
  "Untitled_1", and so on. A pigeonhole proof shows a free name is found.
- **Window rules** (source/MainWindow.cpp): next and previous document
  within a window or across windows, the incremental-search check boxes
  with sticky case sensitivity, and the single-letter labels of Mark and
  Goto Mark.
- **User menus** (`MainWindow::createUserMenu`). `>`-separated item names
  become a tree of submenus, filtered by language mode.
- **Print dialog** (source/ui/DialogPrint.cpp). Covers:
  - the lpr/flpr default preferences;
  - the PATH search of `fileInPath`;
  - `updatePrintCmd` and the flag that keeps a command typed by hand;
  - the `cat file | cmd 2>&1` pipeline and its error report.
- **Text cursor** (source/TextCursor.h). `BasicTextCursor<int32_t>` is a
  class over a 32-bit index, with its operators.
- **Shared string and number helpers** (strings.dfy):
  - `QString::indexOf`, `QString::mid` and splitting;
  - `QString::arg` number formatting;
  - `QString::toInt` and `sscanf("%d")` as one decimal reader.

Things the code asks of the outside world are parameters. Each parameter
is a value or a function:
- whether the macro parser accepts a text;
- `ParseFilename`'s return code;
- whether opening a file yields a document;
- whether a tags file loads;
- the PATH string and the per-directory executable check;
- the history file's text;
- the outcome of `popen`/`pclose`.

The two command-line versions differ in the following ways. All of them
are modelled.
- **Number parsing.** The Qt version reads numbers with `QString::toInt`:
  the whole text, with surrounding blanks, 32-bit. The older version uses
  `sscanf("%d")`, which takes a leading number.
- **The `+n` argument.** The Qt version passes `+n` whole, sign included.
  The older version passes the text after `+`.
- **A bad `-line` value.** The Qt version stores `toInt`'s 0. The older
  version leaves the line number as it was.
- **Option names.** Only the Qt version knows `-svrname`, `-font`, `-wrap`
  and the other editor settings. Only the older version knows `-xwarn`.

The lemmas about whole runs (`DashDashTakesFiles`, `GroupSequence`, …)
are stated for any option table that holds the names they use. The
`…Name` lemmas prove that both versions' tables do.

## Model

| member | source | states |
|---|---|---|
| Strings.IndexOf | source/MainWindow.cpp:1089 | `QString::indexOf(c, from)`: -1 exactly when `c` does not occur at or after `from`, otherwise the first position where it occurs |
| Strings.Mid | source/MainWindow.cpp:1091 | `QString::mid(pos, n)`: the at most `n` characters starting at `pos`, clipped at the end |
| Strings.CString | source/ui/DialogPrint.cpp:440-453 | The C string in a character buffer: the longest prefix without NUL, which is followed by a NUL when shorter than the buffer |
| Strings.JoinSplit | source/ui/DialogPrint.cpp:242-261 | Joining the separator-delimited pieces of any string gives the string back |
| Strings.SplitJoin | source/ui/DialogPrint.cpp:242-261 | Splitting a join of separator-free pieces gives the pieces back: the other direction of the round trip |
| Strings.SplitAt | source/MainWindow.cpp:1088-1142 | Splitting at the first separator gives the head piece, then the pieces of the rest |
| Strings.DecimalInjective | source/MainWindow.cpp:1359 | `QString::arg(int)` gives distinct numbers distinct texts |
| Strings.DecimalSign | source/ui/DialogPrint.cpp:376 | The formatted number starts with '-' exactly when it is negative |
| Strings.DigitsValueOfDecimal | source/MainWindow.cpp:1359 | The digits written for a natural number have that number as their value |
| Strings.ToInt | source/Main.cpp:200 | `QString::toInt(&ok)`: a result, when there is one, fits in 32 bits |
| Strings.ReadDigits | source/nedit.cpp:205 | After a sign or none, a run of digits is read as its decimal value, and the reader continues after it |
| Strings.ReadDecimal | source/Main.cpp:242 | A number written in decimal, followed by anything that does not start with a digit, is read up to its end with its sign and magnitude |
| Strings.ToIntDecimal | source/Main.cpp:242 | `toInt` reads back every 32-bit number that `QString::arg` writes |
| Strings.ScanIntDecimal | source/nedit.cpp:205 | `sscanf("%d")` reads back a number written in decimal, whatever non-digit text follows it |
| TextCursor.TruncDiv | source/TextCursor.h:50 | C++ integer division: the magnitude is the quotient of the magnitudes, and the sign follows the operands' signs |
| TextCursor.Swapped | source/TextCursor.h:79-95 | The comparison that gives the same answer with its operands swapped, for all integers |
| TextCursor.Negated | source/TextCursor.h:53-58 | The comparison that always gives the opposite answer, for all integers |
| TextCursor.BasicTextCursor.constructor | source/TextCursor.h:23 | The defaulted constructor gives index 0 (member initialiser at line 120) |
| TextCursor.BasicTextCursor.FromInteger | source/TextCursor.h:19-20 | The explicit constructor stores the integer given |
| TextCursor.BasicTextCursor.Copy | source/TextCursor.h:24 | A copy holds the same index |
| TextCursor.BasicTextCursor.ToInteger | source/TextCursor.h:115-117 | `to_integer` returns the index, a 32-bit value |
| TextCursor.BasicTextCursor.PreIncrement | source/TextCursor.h:31 | Prefix `++` adds one and returns the cursor itself |
| TextCursor.BasicTextCursor.PreDecrement | source/TextCursor.h:32 | Prefix `--` subtracts one and returns the cursor itself |
| TextCursor.BasicTextCursor.PostIncrement | source/TextCursor.h:33 | Postfix `++` adds one and returns a new copy holding the old index |
| TextCursor.BasicTextCursor.PostDecrement | source/TextCursor.h:34 | Postfix `--` subtracts one and returns a copy holding the old index |
| TextCursor.BasicTextCursor.AddAssign | source/TextCursor.h:40-41 | `+=` adds `n` to the index and returns the cursor itself |
| TextCursor.BasicTextCursor.SubAssign | source/TextCursor.h:43-44 | `-=` subtracts `n` and returns the cursor itself |
| TextCursor.BasicTextCursor.MulAssign | source/TextCursor.h:46-47 | `*=` multiplies the index by `n` |
| TextCursor.BasicTextCursor.DivAssign | source/TextCursor.h:49-50 | `/=` divides the index with C++ truncation |
| TextCursor.BasicTextCursor.Distance | source/TextCursor.h:37 | Cursor minus cursor is the signed distance: adding it to the right operand gives the left |
| TextCursor.BasicTextCursor.Plus | source/TextCursor.h:98-99 | Binary `+` yields a new cursor moved on by `n` and leaves the receiver alone |
| TextCursor.BasicTextCursor.Minus | source/TextCursor.h:101-102 | Binary `-` yields a new cursor moved back by `n` |
| TextCursor.BasicTextCursor.Times | source/TextCursor.h:104-105 | Binary `*` yields a new cursor with the multiplied index |
| TextCursor.BasicTextCursor.Over | source/TextCursor.h:107-108 | Binary `/` yields a new cursor with the truncated quotient |
| TextCursor.IntegerPlus | source/TextCursor.h:111-112 | The friend `n + c` yields a new cursor moved on by `n` |
| TextCursor.ConstructionRoundTrip | source/TextCursor.h:19-23 | Constructing from an integer and reading it back gives that integer; the default cursor reads 0 |
| TextCursor.AddThenSubtract | source/TextCursor.h:40-44 | `c += n; c -= n` leaves the cursor where it was |
| TextCursor.PlusDistance | source/TextCursor.h:37-44 | `(c + n) - c == n`, and `c - n` lands where `c += -n` does |
| TextCursor.PlusCommutes | source/TextCursor.h:98-112 | `n + c` and `c + n` give the same position |
| TextCursor.BasicTextCursor.Compare | source/TextCursor.h:53-58 | Each cursor/cursor comparison is decided by the sign of the distance between the cursors, and agrees with comparing the cursor to the other's index |
| TextCursor.BasicTextCursor.CompareInteger | source/TextCursor.h:60-76 | Each cursor/integer comparison is decided by the sign of the index minus the integer |
| TextCursor.IntegerCompare | source/TextCursor.h:79-95 | The friend `n op c` is the member comparison `c op' n` with the operator swapped |
| TextCursor.Trichotomy | source/TextCursor.h:53-58 | Exactly one of `<`, `==`, `>` holds between two cursors, and `<=` is `<` or `==` |
| RecentFiles.Storables | source/MainWindow.cpp:1662-1666 | The names WriteNEditDB writes: storable ones only, no more than were given |
| RecentFiles.StorablesMembers | source/MainWindow.cpp:1662-1666 | A name is written exactly when it is in the list and storable (not blank, not a comment, no newline) |
| RecentFiles.HistoryEntries | source/MainWindow.cpp:1587-1616 | What ReadNEditDB keeps from the file's lines: only storable ones, and at most the maximum |
| RecentFiles.IndexOfName | source/MainWindow.cpp:1500 | `indexOf`: -1 exactly when the name is absent, otherwise its first position |
| RecentFiles.AddedToPrevOpen | source/MainWindow.cpp:1499-1515 | The name ends up first. A name already present only moves, so the list is a permutation of the old one. A new name pushes out the last entry when the list is full. A list within the maximum stays within it |
| RecentFiles.MoveToFrontKeepsOrder | source/MainWindow.cpp:1500-1502 | Moving a name to the front keeps the other names in their order |
| RecentFiles.ReadLinesText | source/MainWindow.cpp:1587-1588 | Lines written one per line are read back unchanged by `readLine`, provided none holds a newline or ends in '\r' |
| RecentFiles.ReadHistory | source/MainWindow.cpp:1654-1666 | The file written for a list reads back as the header, then the list's storable names |
| RecentFiles.WriteThenRead | source/MainWindow.cpp:1544-1666 | Writing the history and reading it again gives the list's storable names, cut at the maximum |
| RecentFiles.CarriageReturnDropped | source/MainWindow.cpp:1588 | A storable name ending in '\r' comes back without it: the write/read round trip needs the '\r' exclusion |
| RecentFiles.HeaderIsComment | source/MainWindow.cpp:1658 | The header line is a comment, never read back as a name |
| RecentFiles.PrevOpenHistory.constructor | source/MainWindow.cpp:1486-1497 | The list starts empty |
| RecentFiles.PrevOpenHistory.ReadNEditDB | source/MainWindow.cpp:1544-1617 | With the list disabled or the file unchanged, the list stays as it was. Otherwise it is the file's storable lines, in order, cut at the maximum |
| RecentFiles.PrevOpenHistory.WriteNEditDB | source/MainWindow.cpp:1641-1668 | Nothing is written when the list is disabled. Otherwise the header and the storable names are written |
| RecentFiles.PrevOpenHistory.AddToPrevOpenMenu | source/MainWindow.cpp:1484-1530 | Disabled: no change and no write. Otherwise refresh, move or push the name to the front, and write the new list |
| RecentFiles.AddThenReadBack | source/MainWindow.cpp:1484-1617 | After adding a storable name to a storable list, the file written reads back as exactly the new list |
| Untitled.UntitledName | source/MainWindow.cpp:1356-1360 | Each candidate starts with "Untitled", and only candidate 0 is just "Untitled" |
| Untitled.UntitledIndexOfName | source/MainWindow.cpp:1356-1360 | Each candidate carries the number it was made from, so the number can be recovered |
| Untitled.UntitledNameInjective | source/MainWindow.cpp:1356-1360 | Different numbers give different names |
| Untitled.NamesBelowCount | source/MainWindow.cpp:1353-1360 | The first `n` candidates are `n` different names |
| Untitled.TakenBelowNeedsDocuments | source/MainWindow.cpp:1353-1371 | If the first `n` candidates are all taken, there are at least `n` documents |
| Untitled.UniqueUntitledName | source/MainWindow.cpp:1351-1374 | Returns the first candidate no document uses. It returns the empty string only when all `INT_MAX` candidates are taken, which cannot happen with fewer documents than that |
| WindowRules.NextDocument | source/MainWindow.cpp:3560-3599 | The next document is a valid position. Without crossing windows, or before the last tab, it stays in the window. Past the last tab it goes to the first tab of the next window |
| WindowRules.PrevDocument | source/MainWindow.cpp:3601-3639 | The mirror image: it goes to the previous window's last tab when leaving the first tab |
| WindowRules.NextIsCyclic | source/MainWindow.cpp:3560-3599 | Next is one tab on modulo the tab count. Across windows, after the last tab it is the first tab of window `(w + 1) mod n` |
| WindowRules.PrevIsCyclic | source/MainWindow.cpp:3601-3639 | Previous is one tab back modulo the tab count. Across windows, before the first tab it is the last tab of window `(w - 1) mod n` |
| WindowRules.NextPrevInverse | source/MainWindow.cpp:3560-3639 | In both modes, previous undoes next and next undoes previous |
| WindowRules.SingleWindowSameCycle | source/MainWindow.cpp:3567-3597 | With one window, crossing windows changes nothing |
| WindowRules.StepsAdd | source/MainWindow.cpp:3560-3599 | Stepping `a` then `b` times is stepping `a + b` times |
| WindowRules.StepsWithinWindow | source/MainWindow.cpp:3567-3572 | Within one window, `k` steps reach the tab `k` further on |
| WindowRules.FullCycle | source/MainWindow.cpp:3567-3572 | Without crossing windows, as many steps as there are tabs come back to the start |
| WindowRules.SearchTypeOf | source/MainWindow.cpp:2122-2136 | The check boxes stand for one of four types, and a regex type exactly when the regex box is checked |
| WindowRules.TypeToggles | source/MainWindow.cpp:2331-2375 | What each type assigns: its regex box, and remembered case states that agree with its case box |
| WindowRules.InitToggles | source/MainWindow.cpp:2281-2375 | The boxes end as the type's, and the remembered case of the current mode matches the case box. The slots that the unguarded `setChecked` calls fire are applied. Without sticky case, or with the regex box unchanged, the result is the type's assignments. With sticky case, leaving or entering regex mode remembers the earlier case box for the mode that was left |
| WindowRules.InitTogglesReadBack | source/MainWindow.cpp:2331-2375 | Whatever the earlier state and the sticky preference, the boxes read back as the type, with the word types read as their plain forms |
| WindowRules.TogglesReadBack | source/MainWindow.cpp:2122-2136 | Every combination of boxes is reached from the type it stands for, from any earlier state |
| WindowRules.CaseToggled | source/MainWindow.cpp:2281-2293 | The new case state is stored in the memory of the current mode, and the mode's memory stays consistent |
| WindowRules.RegexToggled | source/MainWindow.cpp:2295-2316 | Not sticky: only the regex box changes. Sticky: the case box is restored from the new mode's memory, so the memory stays consistent |
| WindowRules.RegexRoundTrip | source/MainWindow.cpp:2295-2316 | With sticky case, switching to regex and back restores the original state |
| WindowRules.OnSearchTextChanged | source/MainWindow.cpp:2120-2160 | No search happens exactly when the type is a regex and the text does not compile, or there is no current document. Otherwise the search gets the text, the direction, the type from the boxes, the search-wraps preference, and "continued" when a search is in progress |
| WindowRules.MarkAction | source/MainWindow.cpp:2500-2510 | Beep exactly when the label is not a single ASCII letter. Marking happens exactly when the label is valid and there is a document, and uses that letter (same check at 2578-2588) |
| UserMenu.LanguageMatches | source/MainWindow.cpp:1072-1078 | An item is shown exactly when it lists no language mode or lists the document's |
| UserMenu.SplitMenuName | source/MainWindow.cpp:1087-1142 | The submenu titles walked, then the entry's text, are the `>`-separated pieces of the name |
| UserMenu.ParentTitle | source/MainWindow.cpp:1118-1122 | `mid(index, subSep)` followed by the cut at the first `>` is always the text between `index` and the separator |
| UserMenu.StandardFor | source/MainWindow.cpp:1096-1105 | An item whose trimmed command is one of the five clipboard or undo calls stands for that action, and an item stands for an action only when its trimmed command is that action's call |
| UserMenu.EntryFor | source/MainWindow.cpp:1096-1112 | An item becomes a plain action exactly when its command is not a standard one, and then carries its text, index and shortcut. Otherwise it becomes the shared action its trimmed command names |
| UserMenu.Without | source/MainWindow.cpp:1097-1106 | The entries other than the given one, in order: what `addAction` leaves before appending an action the widget already holds |
| UserMenu.AddEntry | source/MainWindow.cpp:1097-1111 | The new entry ends up last, held once when it is one of the editor's shared actions. The other entries keep their order. A user item's action is appended to the menu unchanged |
| UserMenu.FindByText | source/MainWindow.cpp:1124-1131 | The first entry of any kind with the title, or -1 exactly when there is none |
| UserMenu.FindSubmenu | source/MainWindow.cpp:1124-1139 | The first submenu with the title, or -1 exactly when there is none |
| UserMenu.InsertKeepsUniqueTitles | source/MainWindow.cpp:1133-1139 | Inserting never creates a second submenu with the same title at any depth |
| UserMenu.ReusesSubmenu | source/MainWindow.cpp:1137-1138 | An existing submenu is entered: the menu keeps its length, and every other entry keeps its place |
| UserMenu.InsertThenLookup | source/MainWindow.cpp:1088-1142 | After inserting, following the titles leads to a menu holding the entry |
| UserMenu.AsWrittenAgrees | source/MainWindow.cpp:1124-1139 | Where no plain action shares a title along the path, the source's walk succeeds and builds the same menu as the corrected one |
| UserMenu.ActionTitleClash | source/MainWindow.cpp:1124-1138 | An item "Tools" followed by "Tools>Sort": the source's walk has no menu to add to, while the corrected walk creates a "Tools" submenu |
| UserMenu.UserMenuOf | source/MainWindow.cpp:1066-1145 | The menu built from the first `n` items, with the corrected walk (see Findings), never holds two submenus with the same title |
| UserMenu.CreateUserMenu | source/MainWindow.cpp:1066-1145 | The loop builds the menu of all items with the corrected walk (see Findings), and its submenu titles are unique |
| UserMenu.ShownItemReachable | source/MainWindow.cpp:1069-1113 | Every shown item that is not a standard action can be reached through its name's submenu titles |
| PrintDialog.SearchedDirs | source/ui/DialogPrint.cpp:242-261 | The directories `fileInPath` examines hold no separator |
| PrintDialog.SearchedDirsJoin | source/ui/DialogPrint.cpp:242-261 | Joined by ':', the searched directories give PATH back, less a trailing ':' |
| PrintDialog.TrailingSeparatorIgnored | source/ui/DialogPrint.cpp:243-245 | A ':' that ends a non-empty PATH adds no directory to search |
| PrintDialog.FileInPath | source/ui/DialogPrint.cpp:232-264 | The walk finds the file exactly when some searched directory holds it; with no PATH it is never found |
| PrintDialog.DefaultTable | source/ui/DialogPrint.cpp:152-175 | The default table has the seven preferences |
| PrintDialog.LprDefaults | source/ui/DialogPrint.cpp:164-175 | Without flpr and with no resource database: lpr, "-# ", "-P ", "-J ", no host option, `$PRINTER` as queue |
| PrintDialog.FlprDefaults | source/ui/DialogPrint.cpp:152-163 | With flpr: flpr, no copies option, "-q", "-j ", "-h", and the FLPQUE/FLPHOST or flp.defaults queue and host |
| PrintDialog.PrintCmd | source/ui/DialogPrint.cpp:362-404 | The composed command starts with the print command, the arguments following it |
| PrintDialog.ArgumentsStartWithSpace | source/ui/DialogPrint.cpp:373-401 | Every argument present starts with a space, so the parts never run together |
| PrintDialog.NoOptionsBareCommand | source/ui/DialogPrint.cpp:373-404 | With every option flag empty, the command is just the print command |
| PrintDialog.EmptyFieldsOmitted | source/ui/DialogPrint.cpp:373-404 | Empty fields and zero copies add nothing except the job argument |
| PrintDialog.CopiesReadBack | source/ui/DialogPrint.cpp:373-377 | The number of copies can be read back from its argument after the option |
| PrintDialog.JobNameQuoted | source/ui/DialogPrint.cpp:399-401 | The job name sits between the argument's two double quotes |
| PrintDialog.ErrorReport | source/ui/DialogPrint.cpp:440-453 | The reported error is a NUL-free prefix of the output, shorter than the error buffer, and ends where the output has a NUL or the read stopped |
| PrintDialog.PrintSettings.constructor | source/ui/DialogPrint.cpp:40-56 | Program start: nothing loaded, empty preferences, no remembered fields or command, flag clear |
| PrintDialog.PrintSettings.LoadPrintPreferences | source/ui/DialogPrint.cpp:145-184 | The default table is flpr's exactly when flpr was asked for and found in PATH, the preferences are read over it, and they are then marked loaded |
| PrintDialog.DialogPrint.constructor | source/ui/DialogPrint.cpp:72-122 | Loads the preferences once. The host field is shown only with a host option. The command shown is the kept one if the flag is set, otherwise a newly composed one |
| PrintDialog.DialogPrint.UpdatePrintCmd | source/ui/DialogPrint.cpp:362-411 | The command field becomes the command composed from the fields, and the flag is cleared |
| PrintDialog.DialogPrint.SetCopies | source/ui/DialogPrint.cpp:338-341 | A changed copy count recomposes the command and clears the flag. The value already shown changes nothing, since no `valueChanged` is emitted |
| PrintDialog.DialogPrint.SetQueueText | source/ui/DialogPrint.cpp:79-82 | Text with a refused character, or the text already there, changes nothing. Other text recomposes the command (see also 346-349) |
| PrintDialog.DialogPrint.SetHostText | source/ui/DialogPrint.cpp:354-357 | The same rule for the host field |
| PrintDialog.DialogPrint.EditCommand | source/ui/DialogPrint.cpp:416-419 | Typing in the command field sets the flag |
| PrintDialog.DialogPrint.PrintClicked | source/ui/DialogPrint.cpp:424-475 | The pipeline is `cat file \| cmd 2>&1`. On failure the error is reported and nothing is kept. On success the command is kept, and so are the copies, queue and host whose option exists; the dialog closes |
| PrintDialog.EditedCommandSurvives | source/ui/DialogPrint.cpp:116-118 | A command typed and printed is shown again by the next dialog |
| PrintDialog.FieldChangeForgetsEdit | source/ui/DialogPrint.cpp:407-410 | Changing the copies after the edit makes the next dialog compose its command again. Setting the same count keeps the edit marked, so the next dialog shows the last printed command |
| PrintDialog.UnprintedEditNotKept | source/ui/DialogPrint.cpp:116-118 | A command typed but not printed is not what the next dialog shows: it shows the last printed command |
| CommandLine.NextArg | source/Main.cpp:39-50 | The option's argument is the next index, and there is one exactly when that index is in range (also source/nedit.cpp:348-354) |
| CommandLine.CheckDoMacroArgBuffer | source/nedit.cpp:359-384 | The copy with its added newline and NUL is parsed exactly as source/Main.cpp:55-74 parses the macro plus a newline |
| CommandLine.BufferText | source/nedit.cpp:367-371 | The C string in the buffer is the macro plus a newline |
| CommandLine.ImportPass | source/Main.cpp:133-143 | The first pass as a loop finds the files that the scan definition finds (also source/nedit.cpp:152-162) |
| CommandLine.PrependTwice | source/nedit.cpp:152-162 | Collecting imports in two stretches is collecting them in one |
| CommandLine.ImportStopsAtDashDash | source/Main.cpp:137-138 | Nothing after a `--` is imported when no import option comes before it |
| CommandLine.LookupFrom | source/Main.cpp:160-279 | An option name is either found in the table or unknown |
| CommandLine.LookupFirst | source/Main.cpp:160-279 | The first entry with the name decides, as in the if/else chain |
| CommandLine.LookupMissing | source/Main.cpp:277-279 | A name in no entry is unknown |
| CommandLine.Classify | source/Main.cpp:160-281 | Once options are off, or for text not starting with '-' or '+', the argument is a file. With options on, '+' means a line number and '-' a table lookup |
| CommandLine.ImportOptionsSkipped | source/Main.cpp:268-269 | Every option the first pass acted on is skipped in the loop together with its argument (also source/nedit.cpp:232-233) |
| CommandLine.DashDashName | source/Main.cpp:162-164 | Both tables read `--` as the end of options |
| CommandLine.DoName | source/Main.cpp:171-175 | Both tables read `-do` as the macro option |
| CommandLine.TabbedName | source/Main.cpp:230-232 | Both tables read `-tabbed` as the tabs flag |
| CommandLine.GroupName | source/Main.cpp:236-237 | Both tables read `-group` as the group flag |
| CommandLine.LineName | source/Main.cpp:238-247 | Both tables read `-line` as a line option with an argument |
| CommandLine.ImportName | source/Main.cpp:268-269 | Both tables skip `-import` together with its argument |
| CommandLine.ImportOldName | source/nedit.cpp:158-161 | The corrected older table skips `-importold` like `-import` |
| CommandLine.VersionName | source/Main.cpp:270-273 | Both tables read `-V` as a version request |
| CommandLine.HelpName | source/Main.cpp:274-276 | Both tables read `-help` as a help request |
| CommandLine.RequestLine | source/Main.cpp:238-255 | A number requests that line. A bad one leaves the request as it was, and sets the line to 0 in the Qt version or keeps it in the older one (source/nedit.cpp:203-215). Nothing else changes |
| CommandLine.NumberSetting | source/Main.cpp:196-225 | `-rows`, `-columns` and `-tabs` change only the settings and the warnings |
| CommandLine.WithOption | source/Main.cpp:165-181 | Only the settings, flags, warnings, line request and pending macro change. The pending macro becomes the `-do` argument exactly when it parses |
| CommandLine.WithFlag | source/Main.cpp:162-263 | A flag opens nothing and keeps the pending macro. Only `--` turns options off. `tabbed` and `group` stay in range |
| CommandLine.FlagEffects | source/Main.cpp:162-263 | What each flag sets. `-tabbed`/`-untabbed` set `tabbed` to 1/0 and reset `group` to 0, and `-group` sets it to 2. `-read`, `-create` and `-iconic`/`-noiconic` set their file flag. `-wrap`, `-autoindent`, `-autosave` and their opposites set their preference, and `-server` server mode. Nothing else changes |
| CommandLine.WithPlusLine | source/Main.cpp:248-255 | A `+n` argument changes only the line request and the warnings. The Qt version reads the whole argument with `toInt`, sign included, the older one the text after `+` with `sscanf` (source/nedit.cpp:208-215) |
| CommandLine.PlusLineReadsNumber | source/Main.cpp:248-255 | `+n` with a written non-negative number requests line `n` in both versions, with no warning |
| CommandLine.TabDecision | source/Main.cpp:285-295 | A group's first file opens a new window and later ones open tabs. Outside a group, -tabbed/-untabbed decide, or else the preference (source/nedit.cpp:250-257) |
| CommandLine.Attempt | source/Main.cpp:332-351 | An opened document reads the macro init file only if none has been read, goes to the requested line, and runs the pending macro |
| CommandLine.WithFile | source/Main.cpp:280-364 | With the corrected file test (see Findings): a file argument ends the line request. A name that parses adds one open attempt and counts as a file specified; one that does not adds none |
| CommandLine.Step | source/Main.cpp:160-365 | Each pass moves forward and stays within the arguments |
| CommandLine.LoopNext | source/Main.cpp:160 | A step that goes on leaves the rest of the run to the next index |
| CommandLine.StepFile | source/Main.cpp:280-364 | A file argument is one file step |
| CommandLine.StepValued | source/Main.cpp:165-175 | An option with an argument consumes two arguments |
| CommandLine.ProcessArgument | source/Main.cpp:160-365 | The loop body computes the step definition |
| CommandLine.ProcessArguments | source/Main.cpp:156-384 | The loop computes the run definition of its version, with the corrected file test and, for the older version, the table corrected to skip `-importold` (see Findings) |
| CommandLine.StartUp | source/Main.cpp:133-384 | The first pass runs before the argument loop: an import option with no argument exits with that error, and otherwise the loop's outcome is the run's (also source/nedit.cpp:152-162). The run uses the corrected file test and, for the older version, the table corrected to skip `-importold` (see Findings) |
| CommandLine.ImportPassExitsFirst | source/Main.cpp:133-143 | `nedit -do -import` exits in the first pass for the missing import file, although the loop alone would take "-import" as the macro and start |
| CommandLine.FileKeepsValid | source/Main.cpp:347-350 | A file step keeps every run macro a parsed one |
| CommandLine.OptionKeepsValid | source/Main.cpp:171-175 | `-do` keeps only a macro that parsed |
| CommandLine.StepKeepsValid | source/Main.cpp:160-365 | Every step keeps the loop's invariant |
| CommandLine.OnlyParsedMacrosRun | source/Main.cpp:171-175 | Only a macro that passed the test parse is ever run, on a file or on the Untitled window (source/Main.cpp:381-383) |
| CommandLine.FileStepConsumes | source/Main.cpp:343-363 | An opened file takes the line request and the pending macro, and both end there |
| CommandLine.NamesSnoc | source/Main.cpp:280-330 | Appending an attempt appends its name |
| CommandLine.FileStepAppends | source/Main.cpp:280-330 | A file step over a parsed name appends its attempt, and within a group it opens a tab |
| CommandLine.FilesRun | source/Main.cpp:160-365 | With only parsed names left, the loop opens each of them in turn and finishes |
| CommandLine.OpenAllAttempts | source/Main.cpp:280-330 | Opening parsed names attempts each of them, in order, after the earlier attempts. Within a group each opens a tab |
| CommandLine.FilesAllAttempted | source/Main.cpp:280-365 | With only parsed names left, the run attempts every remaining name in order and counts a file as specified |
| CommandLine.DashDashTakesFiles | source/Main.cpp:162-164 | `nedit -- files…` attempts every file, even one that looks like an option, and opens the Untitled window exactly when no file is named |
| CommandLine.GroupOpens | source/Main.cpp:285-292 | In a group, the first file opens a window and every later one a tab in it |
| CommandLine.GroupSequence | source/Main.cpp:236-237 | `nedit -group f1 f2 …` opens `f1` in a new window and the rest as tabs in it |
| CommandLine.TabbedEndsGroup | source/Main.cpp:230-238 | `nedit -group -tabbed f1 f2 …`: `-tabbed` ends the group, so every file opens as a tab |
| CommandLine.OptionsThatEndTheRun | source/Main.cpp:270-279 | An unknown option ends the run as unrecognised. `-V` and `-help` end it with the version or the help |
| CommandLine.MissingArgumentFails | source/Main.cpp:39-47 | An option needing an argument, given last, ends the run as missing its argument |
| CommandLine.DoGoesToUntitled | source/Main.cpp:375-384 | `nedit -do m` with no file runs `m` in the Untitled window exactly when it parses |
| CommandLine.LineAppliesToNextFileOnly | source/Main.cpp:362-363 | `-line n a b`, for any 32-bit `n` (negative ones too): `a` opens at line `n` and `b` at no particular line |
| CommandLine.LineNumberOfDecimal | source/Main.cpp:242 | Both versions read a written 32-bit line number back (also source/nedit.cpp:205) |
| CommandLine.NoDisplayVersionScan | source/nedit.cpp:109-115 | The scan without a display answers exactly when the scan definition asks for the version |
| CommandLine.VersionRequestedMeans | source/nedit.cpp:109-110 | The version is shown exactly when `-V` or `-version` comes before any `--` |
| CommandLine.OpenTestInverted | source/Main.cpp:282 | As written, the Qt test opens a file exactly when its name did not parse, and never when the name parsed. The older test opens when the name parsed |
| CommandLine.ImportOldRejected | source/nedit.cpp:158-161 | As written, the first pass imports the file after `-importold`, but the loop's table does not know the name (loop at 241-244) |

## Left out

- The macro parser is not part of this model. Whether a macro parses is a parameter.
- File reading and writing, `stat`, `QFileInfo` modification times and `popen` are outside the model. The history file's text, whether it changed, PATH and the pipe's result are parameters.
- Opening documents, raising windows, menu widgets, labels, `tr()` and warnings on stderr are left out. The command line records each open attempt and warning instead.
- Tags files, `ImportPrefFile`, the server and the preference store are not modelled beyond the values the loop passes to them.
- `ParseFilename`/`ParseFilenameEx`, `EditExistingFileEx` and `GetPrefOpenInTab` are parameters of `Env`.
- The no-display `-V` scan is modelled on its own, not as part of the X11 start-up around it.
- The older loop (source/nedit.cpp) has no entries for `-tabs`, `-wrap`, `-nowrap`, `-autowrap`, `-autoindent`, `-autosave`, `-rows`, `-columns`, `-font`, `-svrname` and the like, although its usage text lists them, so they end the run as unrecognised options; its table, `LegacyOptionsAsWritten`, lacks them for that reason. What QApplication itself removes from the arguments (`-display` and the like) is outside the model.
- `MAXPATHLEN`, `MAX_QUEUE_STR` and `MAX_HOST_STR` buffer limits are not modelled, nor is overflow of the directory buffer in `fileInPath`.
- An empty piece in the middle of PATH is searched as a directory named "", as the source does. What the directory check does with it is up to the parameter.
- `fileInDir` and `foundTag` (the per-directory check and the flp.defaults lookup) are parameters of `PrintEnvironment`.
- The spin box's widget limits are not modelled: the copy count is whatever the dialog is given.
- WindowRules.InitToggles: each toggled slot also re-runs the incremental search (`on_editIFind_returnPressed`). The model gives the resulting boxes and remembered case states, not those searches.
- The recent-files menu's widgets and its optional sorting (`updatePrevOpenMenu`) are left out.
- RecentFiles.ReadHistory: requires, like WriteThenRead, that no storable name ends in '\r'.
- RecentFiles.WriteThenRead: holds only for names that do not end in '\r', because `readLine` also strips a "\r\n" ending. CarriageReturnDropped shows the case excluded.
- Strings.ScanInt: does not model `sscanf`'s undefined behaviour on a number too wide for `int`. The model returns the exact value.
- Strings.IsSpace: stands for both `QChar::isSpace` and C `isspace`, with the ASCII blanks only.
- TextCursor.BasicTextCursor.AddAssign: models a signed operand whose exact result fits in 32 bits, which `requires` demands. Outside that range C++ does not wrap in one way: with an `int` operand overflow is undefined, while with a wider operand such as `int64_t` the sum is computed wide and then narrowed into `int32_t` (implementation-defined before C++20, modular since). Neither is modelled. SubAssign, MulAssign, DivAssign and the binary operators carry the same bound.
- TextCursor.BasicTextCursor.FromInteger: the explicit constructor narrows a wider integer into the index in the same way; the model requires a value already in 32-bit range.
- TextCursor.BasicTextCursor.CompareInteger: models signed integer operands only. With an unsigned operand C++ converts the index first (a negative index compares as a large value, and `c /= 2u` on a negative index gives a large positive one); this holds for the arithmetic operators too and is not modelled.
- The text codec, Unicode and locale details of `QString` and `isalpha` are left out. Mark labels use the ASCII letters.
- Untitled.UniqueUntitledName: `tr("Untitled")` is taken untranslated.
- `QString::arg`'s rescanning of substituted text for further `%n` markers is not modelled. Arguments are placed once, in order.

## Findings

| source | as written | input that shows it | evidently intended | confidence | as-written member | corrected member |
|---|---|---|---|---|---|---|
| source/Main.cpp:282 | `!ParseFilenameEx(...) == 0` parses as `(!code) == 0`, so the file is opened only when the name fails to parse (non-zero code, per source/MainWindow.cpp:1836) | `nedit a.txt` where `a.txt` parses (code 0): the loop warns "file name too long" and opens nothing | open the file when the code is 0, as source/nedit.cpp:247 does | not executed; high | CommandLine.OpenTestInverted | CommandLine.OpensFile (used by CommandLine.WithFile; CommandLine.DashDashTakesFiles proves every parsed name is attempted) |
| source/nedit.cpp:158-161 | the first pass imports the file after `-importold`, but the argument loop has no `-importold` entry and exits on it as an unrecognised option (241-244) | `nedit -importold prefs` | skip `-importold` and its argument in the loop, as `-import` is skipped at 232-233 | not executed; high | CommandLine.ImportOldRejected | CommandLine.ImportOptionsSkipped (over CommandLine.LegacyOptions) |
| source/MainWindow.cpp:1124-1138 | the parent for a title is the first action with that text, whatever its kind. When it is a plain action, `menu()` is null and the next `addAction` dereferences it | user items named "Tools" then "Tools>Sort" | look for submenus only, and create one when none has the title | not executed; medium | UserMenu.ActionTitleClash | UserMenu.InsertThenLookup (over UserMenu.Insert, with UserMenu.InsertKeepsUniqueTitles) |
