/** Command-line processing at start-up, in its two versions: the one in
    source/Main.cpp, which works on a QStringList, and the older one in
    source/nedit.cpp, which works on argv. Both make a first pass that
    imports preference files, then walk the arguments once, setting flags
    and opening each file named. */
module CommandLine {
  import opened Strings

  /** Which of the two start-up routines. */
  datatype Dialect = QtMain | LegacyMain

  // -----------------------------------------------------------------------
  // What the routines depend on outside this model
  // -----------------------------------------------------------------------

  /** The outside world as the argument loop sees it: whether the macro
      parser accepts a text, the code ParseFilename returns for a name (0
      on success), whether opening a file yields a document, whether a tags
      file loads, and the open-in-tab preference. */
  datatype Env = Env(
    parses: string -> bool,
    filenameCode: string -> int,
    opens: string -> bool,
    loadsTags: string -> bool,
    openInTab: bool)

  // -----------------------------------------------------------------------
  // nextArg and checkDoMacroArg
  // -----------------------------------------------------------------------

  /** nextArg: the index of the option's argument, or None when there is
      none (the program then exits with a failure status). */
  function NextArg(count: nat, i: nat): (r: Option<nat>)
    ensures r.Some? <==> i + 1 < count
    ensures r.Some? ==> r.value == i + 1
  {
    if i + 1 >= count then None else Some(i + 1)
  }

  /** checkDoMacroArg in source/Main.cpp: a test parse of the macro with a
      newline added, since command-line users tend to leave it out. */
  function CheckDoMacroArg(macro: string, parses: string -> bool): bool {
    parses(macro + "\n")
  }

  /** checkDoMacroArg in source/nedit.cpp: the macro is copied into a fresh
      buffer two characters longer, followed by a newline and a NUL, and the
      parser reads the C string the buffer holds. An argv string holds no
      NUL, so this is the same test as the other version's. */
  method CheckDoMacroArgBuffer(macro: string, parses: string -> bool) returns (ok: bool)
    requires '\0' !in macro
    ensures ok == CheckDoMacroArg(macro, parses)
  {
    var macroLen := |macro|;
    var buffer := new char[macroLen + 2];
    for k := 0 to macroLen
      invariant buffer[..k] == macro[..k]
    {
      buffer[k] := macro[k];
    }
    buffer[macroLen] := '\n';
    buffer[macroLen + 1] := '\0';
    assert buffer[..] == macro + "\n" + "\0";
    var text := CString(buffer[..]);
    BufferText(macro);
    ok := parses(text);
  }

  /** The C string of the macro, a newline and a NUL is the macro and the
      newline. */
  lemma BufferText(macro: string)
    requires '\0' !in macro
    ensures CString(macro + "\n" + "\0") == macro + "\n"
  {
    var s := macro + "\n" + "\0";
    var r := CString(s);
    assert s[|macro| + 1] == '\0';
    assert '\0' !in s[..|macro| + 1] by {
      assert s[..|macro| + 1] == macro + "\n";
    }
    assert r == s[..|r|];
  }

  // -----------------------------------------------------------------------
  // The -import pass
  // -----------------------------------------------------------------------

  /** A preference file to import, and whether it is in the old format. */
  datatype Import = Import(file: string, oldFormat: bool)

  datatype ImportResult = Imports(files: seq<Import>) | ImportMissingArgument(option: string)

  /** The options the first pass acts on: -import in both versions, and
      -importold in source/nedit.cpp. */
  predicate IsImportOption(d: Dialect, arg: string) {
    arg == "-import" || (d == LegacyMain && arg == "-importold")
  }

  /** The first pass from index `i`: the files named after each import
      option, in order, up to the first `--` it meets. */
  function ImportScan(d: Dialect, args: seq<string>, i: nat): ImportResult
    decreases |args| - i
  {
    if i >= |args| || args[i] == "--" then Imports([])
    else if IsImportOption(d, args[i]) then
      match NextArg(|args|, i)
      case None => ImportMissingArgument(args[i])
      case Some(j) => Prepend([Import(args[j], args[i] == "-importold")], ImportScan(d, args, j + 1))
    else ImportScan(d, args, i + 1)
  }

  function Prepend(found: seq<Import>, r: ImportResult): ImportResult {
    match r
    case Imports(files) => Imports(found + files)
    case ImportMissingArgument(_) => r
  }

  /** The first pass as a loop over the arguments. */
  method ImportPass(d: Dialect, args: seq<string>) returns (r: ImportResult)
    ensures r == ImportScan(d, args, 1)
  {
    var found: seq<Import> := [];
    var i := 1;
    while i < |args|
      invariant 1 <= i
      invariant ImportScan(d, args, 1) == Prepend(found, ImportScan(d, args, i))
      decreases |args| - i
    {
      var arg := args[i];
      if arg == "--" {
        break;
      } else if IsImportOption(d, arg) {
        var next := NextArg(|args|, i);
        if next.None? {
          return ImportMissingArgument(arg);
        }
        i := next.value;
        PrependTwice(found, [Import(args[i], arg == "-importold")], ImportScan(d, args, i + 1));
        found := found + [Import(args[i], arg == "-importold")];
      }
      i := i + 1;
    }
    return Imports(found);
  }

  lemma PrependTwice(a: seq<Import>, b: seq<Import>, r: ImportResult)
    ensures Prepend(a, Prepend(b, r)) == Prepend(a + b, r)
  {
    if r.Imports? {
      assert a + (b + r.files) == (a + b) + r.files;
    }
  }

  /** Nothing after a `--` is imported, provided no import option comes
      before it (one would take the `--` as its file name). */
  lemma {:induction false} ImportStopsAtDashDash(d: Dialect, head: seq<string>, rest: seq<string>, i: nat)
    requires 1 <= i <= |head|
    requires forall k :: i <= k < |head| ==> !IsImportOption(d, head[k])
    ensures ImportScan(d, head + ["--"] + rest, i) == Imports([])
    decreases |head| - i
  {
    var args := head + ["--"] + rest;
    if i < |head| {
      assert args[i] == head[i];
      ImportStopsAtDashDash(d, head, rest, i + 1);
    } else {
      assert args[i] == "--";
    }
  }

  // -----------------------------------------------------------------------
  // Classifying an argument
  // -----------------------------------------------------------------------

  datatype WrapStyle = Continuous | NoWrap | Newline
  datatype IndentStyle = AutoIndent | NoIndent

  /** The options that consume the following argument. */
  datatype ValueOption =
    | TagsFile | DoMacro | ServerName | Font | Geometry | LangMode | SkipImport
    | Rows | Columns | Tabs | Line

  /** The options that stand alone. */
  datatype FlagOption =
    | EndOfOptions
    | WrapOpt(wrap: WrapStyle) | IndentOpt(indent: IndentStyle) | AutoSaveOpt(on: bool)
    | ReadOnly | NoCreateWarning | TabbedOpt(on: bool) | Group
    | Server | XWarn | Iconic(on: bool)

  /** What an option name found in the table asks for. */
  datatype NamedOption =
    | Valued(option: ValueOption)
    | Flag(flag: FlagOption)
    | Version | Help

  /** What an argument asks for: a named option, a `+n` line number, an
      unrecognised option, or a file name. */
  datatype ArgKind = Named(named: NamedOption) | PlusLine | Unknown | FileArg

  /** An option table: each name with what it asks for, in the order the
      source's chain of comparisons tests them. */
  type OptionTable = seq<(string, NamedOption)>

  /** The options source/Main.cpp recognises by name. */
  const QtOptions: OptionTable := [
    ("--", Flag(EndOfOptions)), ("-tags", Valued(TagsFile)), ("-do", Valued(DoMacro)),
    ("-svrname", Valued(ServerName)), ("-font", Valued(Font)), ("-fn", Valued(Font)),
    ("-wrap", Flag(WrapOpt(Continuous))), ("-nowrap", Flag(WrapOpt(NoWrap))),
    ("-autowrap", Flag(WrapOpt(Newline))),
    ("-autoindent", Flag(IndentOpt(AutoIndent))), ("-noautoindent", Flag(IndentOpt(NoIndent))),
    ("-autosave", Flag(AutoSaveOpt(true))), ("-noautosave", Flag(AutoSaveOpt(false))),
    ("-rows", Valued(Rows)), ("-columns", Valued(Columns)), ("-tabs", Valued(Tabs)),
    ("-read", Flag(ReadOnly)), ("-create", Flag(NoCreateWarning)),
    ("-tabbed", Flag(TabbedOpt(true))), ("-untabbed", Flag(TabbedOpt(false))),
    ("-group", Flag(Group)), ("-line", Valued(Line)), ("-server", Flag(Server)),
    ("-iconic", Flag(Iconic(true))), ("-icon", Flag(Iconic(true))), ("-noiconic", Flag(Iconic(false))),
    ("-geometry", Valued(Geometry)), ("-g", Valued(Geometry)), ("-lm", Valued(LangMode)),
    ("-import", Valued(SkipImport)), ("-V", Version), ("-version", Version),
    ("-h", Help), ("-help", Help)]

  /** The options the argument loop of source/nedit.cpp recognises by
      name, as written: -importold is not among them. */
  const LegacyOptionsAsWritten: OptionTable := [
    ("--", Flag(EndOfOptions)), ("-tags", Valued(TagsFile)), ("-do", Valued(DoMacro)),
    ("-read", Flag(ReadOnly)), ("-create", Flag(NoCreateWarning)),
    ("-tabbed", Flag(TabbedOpt(true))), ("-untabbed", Flag(TabbedOpt(false))),
    ("-group", Flag(Group)), ("-line", Valued(Line)), ("-server", Flag(Server)),
    ("-xwarn", Flag(XWarn)),
    ("-iconic", Flag(Iconic(true))), ("-icon", Flag(Iconic(true))), ("-noiconic", Flag(Iconic(false))),
    ("-geometry", Valued(Geometry)), ("-g", Valued(Geometry)), ("-lm", Valued(LangMode)),
    ("-import", Valued(SkipImport)), ("-V", Version), ("-version", Version),
    ("-h", Help), ("-help", Help)]

  /** The same, with -importold skipped like -import, as the first pass
      expects. */
  const LegacyOptions: OptionTable := LegacyOptionsAsWritten + [("-importold", Valued(SkipImport))]

  /** A name looked up in an option table from entry `k` on: the first
      entry with that name decides; any other name starting with '-' is
      unknown. */
  function LookupFrom(table: OptionTable, a: string, k: nat): (r: ArgKind)
    requires k <= |table|
    ensures r.Named? || r == Unknown
    decreases |table| - k
  {
    if k == |table| then Unknown
    else if table[k].0 == a then Named(table[k].1)
    else LookupFrom(table, a, k + 1)
  }

  /** The table a version of the program reads its options from. */
  function Options(d: Dialect): OptionTable {
    if d == QtMain then QtOptions else LegacyOptions
  }

  /** A name looked up in the whole table. */
  function Lookup(table: OptionTable, a: string): (r: ArgKind)
  {
    LookupFrom(table, a, 0)
  }

  /** The lookup finds the first entry with the name. */
  lemma {:induction false} LookupFirst(table: OptionTable, a: string, k: nat, e: nat)
    requires k <= e < |table| && table[e].0 == a
    requires forall j :: k <= j < e ==> table[j].0 != a
    ensures LookupFrom(table, a, k) == Named(table[e].1)
    decreases e - k
  {
    if k < e {
      LookupFirst(table, a, k + 1, e);
    }
  }

  /** A name in no entry is unknown. */
  lemma {:induction false} LookupMissing(table: OptionTable, a: string, k: nat)
    requires k <= |table|
    requires forall j :: k <= j < |table| ==> table[j].0 != a
    ensures LookupFrom(table, a, k) == Unknown
    decreases |table| - k
  {
    if k < |table| {
      LookupMissing(table, a, k + 1);
    }
  }

  /** What the argument loop makes of `a`. Every named option starts with
      '-', so checking the first character before the names decides the
      same way as the source's single chain, in which the `+n` test sits
      among the named options. */
  function Classify(options: OptionTable, a: string, opts: bool): (k: ArgKind)
    ensures k == FileArg <==> !opts || (!StartsWith(a, '-') && !StartsWith(a, '+'))
    ensures k == PlusLine <==> opts && StartsWith(a, '+')
    ensures opts && StartsWith(a, '-') ==>
      k == Lookup(options, a)
  {
    if !opts then FileArg
    else if StartsWith(a, '-') then Lookup(options, a)
    else if StartsWith(a, '+') then PlusLine
    else FileArg
  }

  /** Every option the first pass acts on is skipped, with its argument,
      by the argument loop. */
  lemma ImportOptionsSkipped(d: Dialect, a: string)
    requires IsImportOption(d, a)
    ensures Classify(Options(d), a, true) == Named(Valued(SkipImport))
  {
    ImportName(d);
    ImportOldName();
  }

  /** As written, source/nedit.cpp imports the file after -importold in the
      first pass and then stops with "Unrecognized option" on the same
      -importold in the argument loop. */
  lemma ImportOldRejected(program: string, file: string)
    ensures ImportScan(LegacyMain, [program, "-importold", file], 1) == Imports([Import(file, true)])
    ensures Lookup(LegacyOptionsAsWritten, "-importold") == Unknown
  {
    var args := [program, "-importold", file];
    assert args[1] == "-importold" && args[1] != "--";
    assert ImportScan(LegacyMain, args, 3) == Imports([]);
    LookupMissing(LegacyOptionsAsWritten, "-importold", 0);
  }

  // -----------------------------------------------------------------------
  // The state the argument loop keeps
  // -----------------------------------------------------------------------

  /** Preferences that source/Main.cpp sets from options. */
  datatype Settings = Settings(
    serverName: Option<string>,
    textFont: Option<string>,
    autoWrap: Option<WrapStyle>,
    autoIndent: Option<IndentStyle>,
    autoSave: Option<bool>,
    textRows: Option<int>,
    textCols: Option<int>,
    tabDistance: Option<int>)

  /** What applies to every file opened from here on. */
  datatype FileFlags = FileFlags(
    readOnly: bool,
    noCreateWarning: bool,
    iconic: bool,
    geometry: string,
    langMode: Option<string>)

  /** What applies to the whole session: server mode, preferences, tags
      files requested (whether or not they loaded). */
  datatype Config = Config(isServer: bool, settings: Settings, tagFiles: seq<string>)

  /** A complaint written to the standard error stream. */
  datatype Warning =
    | TagsNotLoaded(file: string)
    | MacroRejected(macro: string)
    | NotANumber(option: string)
    | FileNameTooLong(arg: string)

  /** One call to EditExistingFileEx for a file argument: the name, the
      window decision, the flags in force, whether a document came back,
      and what was then done with it (reading the macro init file, going to
      a line, running the -do macro). */
  datatype OpenAttempt = OpenAttempt(
    name: string,
    inTab: bool,
    flags: FileFlags,
    document: bool,
    readsInitFile: bool,
    line: Option<int>,
    macro: Option<string>)

  /** The local variables of the argument loop. `tabbed` is -1 (use the
      preference), 0 or 1; `group` is 0 (no group), 2 (the next file starts
      a group) or 1 (in a group). */
  datatype ArgState = ArgState(
    opts: bool,
    flags: FileFlags,
    gotoLine: bool,
    lineNum: int,
    tabbed: int,
    group: int,
    toDoCommand: Option<string>,
    config: Config,
    fileSpecified: bool,
    macroFileRead: bool,
    attempts: seq<OpenAttempt>,
    warnings: seq<Warning>)

  /** The state before the first argument; `isServer` starts from whether a
      server name preference is set. */
  function InitialState(serverNamePref: bool): ArgState {
    ArgState(true, FileFlags(false, false, false, "", None), false, 0, -1, 0, None,
      Config(serverNamePref, Settings(None, None, None, None, None, None, None, None), []),
      false, false, [], [])
  }

  /** Every macro in the attempts passed the test parse. */
  predicate MacrosParsed(env: Env, attempts: seq<OpenAttempt>) {
    forall k :: 0 <= k < |attempts| && attempts[k].macro.Some? ==>
      CheckDoMacroArg(attempts[k].macro.value, env.parses)
  }

  /** What the argument loop keeps true. */
  predicate ValidState(env: Env, st: ArgState) {
    && st.tabbed in {-1, 0, 1}
    && st.group in {0, 1, 2}
    && (st.toDoCommand.Some? ==> CheckDoMacroArg(st.toDoCommand.value, env.parses))
    && MacrosParsed(env, st.attempts)
  }

  // -----------------------------------------------------------------------
  // One argument
  // -----------------------------------------------------------------------

  /** The line number text of a -line or +n option read as a number: with
      QString::toInt (the whole string, `+` included) or with
      sscanf("%d"). */
  function LineNumber(d: Dialect, text: string): Option<int> {
    if d == QtMain then ToInt(text) else ScanInt(text)
  }

  /** A -line or +n request. On a bad number a warning is written and no
      new line is requested; source/Main.cpp stores toInt's 0 in lineNum
      all the same, while sscanf leaves it alone. */
  function RequestLine(d: Dialect, option: string, text: string, st: ArgState): (r: ArgState)
    ensures r.gotoLine == (LineNumber(d, text).Some? || st.gotoLine)
    ensures LineNumber(d, text).Some? ==> r.lineNum == LineNumber(d, text).value
    ensures LineNumber(d, text).None? ==> r.lineNum == (if d == QtMain then 0 else st.lineNum)
    ensures r == st.(lineNum := r.lineNum, gotoLine := r.gotoLine, warnings := r.warnings)
  {
    match LineNumber(d, text)
    case Some(n) => st.(lineNum := n, gotoLine := true)
    case None =>
      st.(lineNum := if d == QtMain then 0 else st.lineNum, warnings := st.warnings + [NotANumber(option)])
  }

  /** The preferences a number option sets. */
  datatype NumberField = TextRows | TextCols | TabDistance

  /** A number for -rows, -columns or -tabs, or a warning. */
  function NumberSetting(option: string, text: string, st: ArgState, field: NumberField): (r: ArgState)
    ensures r == st.(config := r.config, warnings := r.warnings)
  {
    var settings := st.config.settings;
    match ToInt(text)
    case Some(n) =>
      st.(config := st.config.(settings := match field
        case TextRows => settings.(textRows := Some(n))
        case TextCols => settings.(textCols := Some(n))
        case TabDistance => settings.(tabDistance := Some(n))))
    case None => st.(warnings := st.warnings + [NotANumber(option)])
  }

  /** An option that took the argument `value`. */
  function WithOption(d: Dialect, env: Env, option: ValueOption, name: string, value: string, st: ArgState): (r: ArgState)
    ensures r == st.(config := r.config, flags := r.flags, warnings := r.warnings, lineNum := r.lineNum,
                     gotoLine := r.gotoLine, toDoCommand := r.toDoCommand)
    ensures r.toDoCommand == (if option == DoMacro && CheckDoMacroArg(value, env.parses) then Some(value)
                              else st.toDoCommand)
  {
    var settings := st.config.settings;
    match option
    case TagsFile =>
      st.(config := st.config.(tagFiles := st.config.tagFiles + [value]),
          warnings := if env.loadsTags(value) then st.warnings else st.warnings + [TagsNotLoaded(value)])
    case DoMacro =>
      if CheckDoMacroArg(value, env.parses) then st.(toDoCommand := Some(value))
      else st.(warnings := st.warnings + [MacroRejected(value)])
    case ServerName => st.(config := st.config.(settings := settings.(serverName := Some(value))))
    case Font => st.(config := st.config.(settings := settings.(textFont := Some(value))))
    case Geometry => st.(flags := st.flags.(geometry := value))
    case LangMode => st.(flags := st.flags.(langMode := Some(value)))
    case SkipImport => st
    case Rows => NumberSetting(name, value, st, TextRows)
    case Columns => NumberSetting(name, value, st, TextCols)
    case Tabs => NumberSetting(name, value, st, TabDistance)
    case Line => RequestLine(d, name, value, st)
  }

  /** An option without an argument. */
  function WithFlag(flag: FlagOption, st: ArgState): (r: ArgState)
    ensures r.attempts == st.attempts && r.fileSpecified == st.fileSpecified
    ensures r.toDoCommand == st.toDoCommand
    ensures r.opts == (st.opts && flag != EndOfOptions)
    ensures st.tabbed in {-1, 0, 1} ==> r.tabbed in {-1, 0, 1}
    ensures st.group in {0, 1, 2} ==> r.group in {0, 1, 2}
  {
    var settings := st.config.settings;
    match flag
    case EndOfOptions => st.(opts := false)
    case WrapOpt(w) => st.(config := st.config.(settings := settings.(autoWrap := Some(w))))
    case IndentOpt(s) => st.(config := st.config.(settings := settings.(autoIndent := Some(s))))
    case AutoSaveOpt(on) => st.(config := st.config.(settings := settings.(autoSave := Some(on))))
    case ReadOnly => st.(flags := st.flags.(readOnly := true))
    case NoCreateWarning => st.(flags := st.flags.(noCreateWarning := true))
    case TabbedOpt(on) => st.(tabbed := if on then 1 else 0, group := 0)
    case Group => st.(group := 2)
    case Server => st.(config := st.config.(isServer := true))
    case XWarn => st
    case Iconic(on) => st.(flags := st.flags.(iconic := on))
  }

  /** What each flag sets: -tabbed and -untabbed choose tabs or windows
      and end any group; -group starts one; -read, -create and -iconic set
      a file flag; -wrap, -autoindent and -autosave and their opposites a
      preference; -server server mode; nothing else changes. */
  lemma FlagEffects(flag: FlagOption, st: ArgState)
    ensures var r := WithFlag(flag, st);
      && r == st.(opts := r.opts, flags := r.flags, tabbed := r.tabbed, group := r.group, config := r.config)
      && r.tabbed == (if flag.TabbedOpt? then (if flag.on then 1 else 0) else st.tabbed)
      && r.group == (if flag.TabbedOpt? then 0 else if flag.Group? then 2 else st.group)
    ensures var r := WithFlag(flag, st);
      && r.flags.readOnly == (st.flags.readOnly || flag.ReadOnly?)
      && r.flags.noCreateWarning == (st.flags.noCreateWarning || flag.NoCreateWarning?)
      && r.flags.iconic == (if flag.Iconic? then flag.on else st.flags.iconic)
      && r.flags.geometry == st.flags.geometry && r.flags.langMode == st.flags.langMode
    ensures var r := WithFlag(flag, st);
      && r.config.isServer == (st.config.isServer || flag.Server?)
      && r.config.tagFiles == st.config.tagFiles
      && r.config.settings.autoWrap == (if flag.WrapOpt? then Some(flag.wrap) else st.config.settings.autoWrap)
      && r.config.settings.autoIndent == (if flag.IndentOpt? then Some(flag.indent) else st.config.settings.autoIndent)
      && r.config.settings.autoSave == (if flag.AutoSaveOpt? then Some(flag.on) else st.config.settings.autoSave)
      && r.config.settings == st.config.settings.(autoWrap := r.config.settings.autoWrap,
           autoIndent := r.config.settings.autoIndent, autoSave := r.config.settings.autoSave)
  {
    match flag
    case EndOfOptions =>
    case WrapOpt(_) =>
    case IndentOpt(_) =>
    case AutoSaveOpt(_) =>
    case ReadOnly =>
    case NoCreateWarning =>
    case TabbedOpt(_) =>
    case Group =>
    case Server =>
    case XWarn =>
    case Iconic(_) =>
  }

  /** A `+n` argument: source/Main.cpp reads the whole argument, sign
      included, source/nedit.cpp the text after the `+`. */
  function WithPlusLine(d: Dialect, arg: string, st: ArgState): (r: ArgState)
    requires StartsWith(arg, '+')
    ensures r == st.(lineNum := r.lineNum, gotoLine := r.gotoLine, warnings := r.warnings)
    ensures d == QtMain ==> r.gotoLine == (ToInt(arg).Some? || st.gotoLine)
    ensures d != QtMain ==> r.gotoLine == (ScanInt(arg[1..]).Some? || st.gotoLine)
  {
    RequestLine(d, arg, if d == QtMain then arg else arg[1..], st)
  }

  /** `+n` with a written non-negative number requests line `n` in both
      versions, whichever way they read it. */
  lemma PlusLineReadsNumber(d: Dialect, n: int, st: ArgState)
    requires 0 <= n && IsInt32(n)
    ensures var r := WithPlusLine(d, "+" + Decimal(n), st);
      r.gotoLine && r.lineNum == n && r.warnings == st.warnings
  {
    var s := "+" + Decimal(n);
    if d == QtMain {
      var digits := DecimalDigits(n);
      assert s[1..] == digits;
      forall k | 1 <= k < |s| ensures IsDigit(s[k]) {
        assert s[k] == digits[k - 1];
      }
      assert !IsSpace(s[0]) && s[0] == '+';
      assert ReadFrom(s, 0, Leading, true) == ReadFrom(s, 1, Signed(false), true);
      ReadDigits(s, 1, |s|, false, true);
      assert s[1..|s|] == digits;
      DigitsValueOfDecimal(n);
      assert ToInt(s) == Some(n);
    } else {
      assert s[1..] == Decimal(n) && Decimal(n) + [] == Decimal(n);
      ScanIntDecimal(n, []);
      assert LineNumber(d, s[1..]) == Some(n);
    }
  }

  /** The window decision for a file: a group's first file opens a new
      window and later ones open tabs in it; outside a group, -tabbed or
      -untabbed decides, or else the preference. Returns whether to open a
      tab and the group state for the next file. */
  function TabDecision(group: int, tabbed: int, openInTab: bool): (r: (bool, int))
    ensures group == 2 ==> r == (false, 1)
    ensures group == 1 ==> r == (true, 1)
    ensures group !in {1, 2} ==> r == (if tabbed == -1 then openInTab else tabbed != 0, group)
  {
    if group == 2 then (false, 1)
    else if group == 1 then (true, 1)
    else (if tabbed == -1 then openInTab else tabbed != 0, group)
  }

  /** The test on ParseFilename's result in source/nedit.cpp, and the one
      source/Main.cpp evidently means: open the file when the name parsed. */
  predicate OpensFile(code: int) {
    code == 0
  }

  /** The test as source/Main.cpp writes it, `!ParseFilenameEx(...) == 0`:
      the `!` binds first, so the file is opened when the name did NOT
      parse. */
  predicate OpensFileAsWritten(d: Dialect, code: int) {
    if d == QtMain then (if code == 0 then 1 else 0) == 0 else code == 0
  }

  /** As written, source/Main.cpp turns the test around for every code:
      a name that parses is reported as too long and never opened. */
  lemma OpenTestInverted(code: int)
    ensures OpensFileAsWritten(QtMain, code) == !OpensFile(code)
    ensures OpensFileAsWritten(LegacyMain, code) == OpensFile(code)
    ensures !OpensFileAsWritten(QtMain, 0)
  {
  }

  /** The record of opening `arg`, with the flags in force. A document
      reads the macro init file if no earlier one has, goes to the
      requested line and runs the pending -do macro. */
  function Attempt(env: Env, arg: string, inTab: bool, st: ArgState): (a: OpenAttempt)
    ensures a.name == arg && a.inTab == inTab && a.flags == st.flags && a.document == env.opens(arg)
    ensures a.readsInitFile <==> a.document && !st.macroFileRead
    ensures a.line == (if a.document && st.gotoLine then Some(st.lineNum) else None)
    ensures a.macro == (if a.document then st.toDoCommand else None)
  {
    var doc := env.opens(arg);
    OpenAttempt(arg, inTab, st.flags, doc, doc && !st.macroFileRead,
      if doc && st.gotoLine then Some(st.lineNum) else None,
      if doc then st.toDoCommand else None)
  }

  /** A file argument: decide the window, open the file, and on a document
      read the macro init file (once), go to the requested line and run the
      pending -do macro (once). The line request ends here either way. */
  function WithFile(env: Env, arg: string, st: ArgState): (r: ArgState)
    ensures !r.gotoLine
    ensures OpensFile(env.filenameCode(arg)) ==> r.fileSpecified && |r.attempts| == |st.attempts| + 1
    ensures !OpensFile(env.filenameCode(arg)) ==> r.attempts == st.attempts
  {
    if OpensFile(env.filenameCode(arg)) then
      var (inTab, group) := TabDecision(st.group, st.tabbed, env.openInTab);
      var doc := env.opens(arg);
      st.(group := group, fileSpecified := true, attempts := st.attempts + [Attempt(env, arg, inTab, st)],
          macroFileRead := st.macroFileRead || doc,
          toDoCommand := if doc then None else st.toDoCommand, gotoLine := false)
    else
      st.(warnings := st.warnings + [FileNameTooLong(arg)], gotoLine := false)
  }

  /** How a run ends: -V or -help (success), a missing option argument or
      an unknown option (failure), or the editor starts, with the loop's
      final state and, when no file was named, an Untitled window that
      runs the pending -do macro. */
  datatype Untitled = NoUntitled | UntitledWindow(macro: Option<string>)
  datatype Outcome =
    | ShowVersion
    | ShowHelp
    | MissingArgument(option: string)
    | Unrecognized(option: string)
    | Started(final: ArgState, untitled: Untitled)

  datatype StepResult = Next(next: nat, st: ArgState) | Stop(outcome: Outcome)

  /** One pass of the loop body at index `i`. */
  function Step(d: Dialect, options: OptionTable, env: Env, args: seq<string>, i: nat, st: ArgState): (r: StepResult)
    requires i < |args|
    ensures r.Next? ==> i < r.next <= |args|
  {
    match Classify(options, args[i], st.opts)
    case Named(Valued(option)) =>
      (match NextArg(|args|, i)
       case None => Stop(MissingArgument(args[i]))
       case Some(j) => Next(j + 1, WithOption(d, env, option, args[i], args[j], st)))
    case Named(Flag(flag)) => Next(i + 1, WithFlag(flag, st))
    case Named(Version) => Stop(ShowVersion)
    case Named(Help) => Stop(ShowHelp)
    case PlusLine => Next(i + 1, WithPlusLine(d, args[i], st))
    case Unknown => Stop(Unrecognized(args[i]))
    case FileArg => Next(i + 1, WithFile(env, args[i], st))
  }

  /** The loop from index `i` to the end. */
  function Loop(d: Dialect, options: OptionTable, env: Env, args: seq<string>, i: nat, st: ArgState): Outcome
    decreases |args| - i
  {
    if i >= |args| then Finish(st)
    else
      match Step(d, options, env, args, i, st)
      case Next(j, st') => Loop(d, options, env, args, j, st')
      case Stop(o) => o
  }

  /** After the loop: an Untitled window when no file was named. */
  function Finish(st: ArgState): Outcome {
    Started(st, if st.fileSpecified then NoUntitled else UntitledWindow(st.toDoCommand))
  }

  /** The whole argument loop, from the first argument after the program
      name. */
  function RunWith(d: Dialect, options: OptionTable, env: Env, serverNamePref: bool, args: seq<string>): Outcome {
    Loop(d, options, env, args, 1, InitialState(serverNamePref))
  }

  /** The argument loop of each version, with its own option table. */
  function Run(d: Dialect, env: Env, serverNamePref: bool, args: seq<string>): Outcome {
    RunWith(d, Options(d), env, serverNamePref, args)
  }

  /** Start-up: the first pass over the arguments, which exits when an
      import option has no argument, before the argument loop runs; then
      the argument loop. */
  function StartUp(d: Dialect, env: Env, serverNamePref: bool, args: seq<string>): (r: Outcome)
    ensures ImportScan(d, args, 1).ImportMissingArgument? ==> r == MissingArgument(ImportScan(d, args, 1).option)
    ensures ImportScan(d, args, 1).Imports? ==> r == Run(d, env, serverNamePref, args)
  {
    match ImportScan(d, args, 1)
    case ImportMissingArgument(option) => MissingArgument(option)
    case Imports(_) => Run(d, env, serverNamePref, args)
  }

  /** A step that goes on leaves the rest of the loop to the next index. */
  lemma LoopNext(d: Dialect, options: OptionTable, env: Env, args: seq<string>, i: nat, st: ArgState, j: nat, st': ArgState)
    requires i < |args| && Step(d, options, env, args, i, st) == Next(j, st')
    ensures Loop(d, options, env, args, i, st) == Loop(d, options, env, args, j, st')
  {
  }

  /** A step that stops ends the loop with its outcome. */
  lemma LoopStop(d: Dialect, options: OptionTable, env: Env, args: seq<string>, i: nat, st: ArgState, o: Outcome)
    requires i < |args| && Step(d, options, env, args, i, st) == Stop(o)
    ensures Loop(d, options, env, args, i, st) == o
  {
  }

  /** The step over a file argument. */
  lemma StepFile(d: Dialect, options: OptionTable, env: Env, args: seq<string>, i: nat, st: ArgState)
    requires i < |args| && (!st.opts || (!StartsWith(args[i], '-') && !StartsWith(args[i], '+')))
    ensures Loop(d, options, env, args, i, st) == Loop(d, options, env, args, i + 1, WithFile(env, args[i], st))
  {
    assert Classify(options, args[i], st.opts) == FileArg;
    LoopNext(d, options, env, args, i, st, i + 1, WithFile(env, args[i], st));
  }

  /** The step over an option without an argument. */
  lemma StepFlag(d: Dialect, options: OptionTable, env: Env, args: seq<string>, i: nat, st: ArgState, flag: FlagOption)
    requires i < |args| && Classify(options, args[i], st.opts) == Named(Flag(flag))
    ensures Loop(d, options, env, args, i, st) == Loop(d, options, env, args, i + 1, WithFlag(flag, st))
  {
    LoopNext(d, options, env, args, i, st, i + 1, WithFlag(flag, st));
  }

  /** The step over an option and its argument. */
  lemma StepValued(d: Dialect, options: OptionTable, env: Env, args: seq<string>, i: nat, st: ArgState, option: ValueOption)
    requires i + 1 < |args| && Classify(options, args[i], st.opts) == Named(Valued(option))
    ensures Loop(d, options, env, args, i, st)
      == Loop(d, options, env, args, i + 2, WithOption(d, env, option, args[i], args[i + 1], st))
  {
    LoopNext(d, options, env, args, i, st, i + 2, WithOption(d, env, option, args[i], args[i + 1], st));
  }

  // Where the names used below sit in the two tables: each lookup walks
  // the table up to the name's entry.

  lemma DashDashName(d: Dialect)
    ensures Lookup(Options(d), "--") == Named(Flag(EndOfOptions))
  {
    LookupFirst(Options(d), "--", 0, 0);
  }

  lemma DoName(d: Dialect)
    ensures Lookup(Options(d), "-do") == Named(Valued(DoMacro))
  {
    LookupFirst(Options(d), "-do", 0, 2);
  }

  lemma TabbedName(d: Dialect)
    ensures Lookup(Options(d), "-tabbed") == Named(Flag(TabbedOpt(true)))
  {
    LookupFirst(Options(d), "-tabbed", 0, if d == QtMain then 18 else 5);
  }

  lemma GroupName(d: Dialect)
    ensures Lookup(Options(d), "-group") == Named(Flag(Group))
  {
    LookupFirst(Options(d), "-group", 0, if d == QtMain then 20 else 7);
  }

  lemma LineName(d: Dialect)
    ensures Lookup(Options(d), "-line") == Named(Valued(Line))
  {
    LookupFirst(Options(d), "-line", 0, if d == QtMain then 21 else 8);
  }

  lemma ImportName(d: Dialect)
    ensures Lookup(Options(d), "-import") == Named(Valued(SkipImport))
  {
    LookupFirst(Options(d), "-import", 0, if d == QtMain then 29 else 17);
  }

  lemma ImportOldName()
    ensures Lookup(LegacyOptions, "-importold") == Named(Valued(SkipImport))
  {
    LookupFirst(LegacyOptions, "-importold", 0, 22);
  }

  lemma VersionName(d: Dialect)
    ensures Lookup(Options(d), "-V") == Named(Version)
  {
    LookupFirst(Options(d), "-V", 0, if d == QtMain then 30 else 18);
  }

  lemma HelpName(d: Dialect)
    ensures Lookup(Options(d), "-help") == Named(Help)
  {
    LookupFirst(Options(d), "-help", 0, if d == QtMain then 33 else 21);
  }

  /** The body of the argument loop, for the argument at `i`. */
  method ProcessArgument(d: Dialect, options: OptionTable, env: Env, args: seq<string>, i: nat, st: ArgState)
    returns (r: StepResult)
    requires i < |args|
    ensures r == Step(d, options, env, args, i, st)
  {
    match Classify(options, args[i], st.opts) {
      case Named(Valued(option)) =>
        var next := NextArg(|args|, i);
        if next.None? {
          return Stop(MissingArgument(args[i]));
        }
        r := Next(next.value + 1, WithOption(d, env, option, args[i], args[next.value], st));
      case Named(Flag(flag)) =>
        r := Next(i + 1, WithFlag(flag, st));
      case PlusLine =>
        r := Next(i + 1, WithPlusLine(d, args[i], st));
      case Named(Version) =>
        r := Stop(ShowVersion);
      case Named(Help) =>
        r := Stop(ShowHelp);
      case Unknown =>
        r := Stop(Unrecognized(args[i]));
      case FileArg =>
        r := Next(i + 1, WithFile(env, args[i], st));
    }
  }

  /** The argument loop as the source runs it: one argument per turn, until
      the arguments run out or one of them ends the run. */
  method ProcessArguments(d: Dialect, env: Env, serverNamePref: bool, args: seq<string>)
    returns (outcome: Outcome)
    ensures outcome == Run(d, env, serverNamePref, args)
  {
    var options := Options(d);
    var st := InitialState(serverNamePref);
    var i := 1;
    while i < |args|
      invariant 1 <= i
      invariant Loop(d, options, env, args, i, st) == Run(d, env, serverNamePref, args)
      decreases |args| - i
    {
      var r := ProcessArgument(d, options, env, args, i, st);
      match r {
        case Stop(o) =>
          LoopStop(d, options, env, args, i, st, o);
          return o;
        case Next(j, st') =>
          LoopNext(d, options, env, args, i, st, j, st');
          i, st := j, st';
      }
    }
    return Finish(st);
  }

  // -----------------------------------------------------------------------
  // What a run guarantees
  // -----------------------------------------------------------------------

  /** Opening a file keeps the state valid. */
  lemma FileKeepsValid(env: Env, arg: string, st: ArgState)
    requires ValidState(env, st)
    ensures ValidState(env, WithFile(env, arg, st))
  {
    var r := WithFile(env, arg, st);
    if OpensFile(env.filenameCode(arg)) {
      var a := Attempt(env, arg, TabDecision(st.group, st.tabbed, env.openInTab).0, st);
      assert r.attempts == st.attempts + [a];
      assert MacrosParsed(env, r.attempts) by {
        forall k | 0 <= k < |r.attempts| && r.attempts[k].macro.Some?
          ensures CheckDoMacroArg(r.attempts[k].macro.value, env.parses)
        {
          if k < |st.attempts| {
            assert r.attempts[k] == st.attempts[k];
          }
        }
      }
    }
  }

  /** An option with its argument keeps the state valid: -do keeps only a
      macro that parsed. */
  lemma OptionKeepsValid(d: Dialect, env: Env, option: ValueOption, name: string, value: string, st: ArgState)
    requires ValidState(env, st)
    ensures ValidState(env, WithOption(d, env, option, name, value, st))
  {
  }

  /** Each step keeps the state valid. */
  lemma StepKeepsValid(d: Dialect, options: OptionTable, env: Env, args: seq<string>, i: nat, st: ArgState)
    requires i < |args| && ValidState(env, st)
    ensures Step(d, options, env, args, i, st).Next? ==> ValidState(env, Step(d, options, env, args, i, st).st)
  {
    var r := Step(d, options, env, args, i, st);
    match Classify(options, args[i], st.opts)
    case FileArg =>
      FileKeepsValid(env, args[i], st);
      assert r == Next(i + 1, WithFile(env, args[i], st));
    case Named(Valued(option)) =>
      if i + 1 < |args| {
        OptionKeepsValid(d, env, option, args[i], args[i + 1], st);
        assert r == Next(i + 2, WithOption(d, env, option, args[i], args[i + 1], st));
      }
    case Named(Flag(flag)) =>
      assert r == Next(i + 1, WithFlag(flag, st));
    case PlusLine =>
      assert r == Next(i + 1, WithPlusLine(d, args[i], st));
    case _ =>
  }

  /** Only a macro that passed the test parse is ever run, whether on an
      opened file or on the Untitled window. */
  lemma {:induction false} OnlyParsedMacrosRun(d: Dialect, options: OptionTable, env: Env, args: seq<string>, i: nat, st: ArgState)
    requires ValidState(env, st)
    ensures var o := Loop(d, options, env, args, i, st);
      o.Started? ==>
        && ValidState(env, o.final)
        && (o.untitled.UntitledWindow? && o.untitled.macro.Some? ==> CheckDoMacroArg(o.untitled.macro.value, env.parses))
    decreases |args| - i
  {
    if i < |args| {
      StepKeepsValid(d, options, env, args, i, st);
      var s := Step(d, options, env, args, i, st);
      if s.Next? {
        LoopNext(d, options, env, args, i, st, s.next, s.st);
        OnlyParsedMacrosRun(d, options, env, args, s.next, s.st);
      }
    }
  }

  /** A file step ends any line request, so -line and +n apply to the next
      file argument only; and a pending -do macro goes to the first file
      that yields a document. */
  lemma FileStepConsumes(env: Env, arg: string, st: ArgState)
    requires OpensFile(env.filenameCode(arg)) && env.opens(arg)
    ensures var r := WithFile(env, arg, st);
      && !r.gotoLine && r.toDoCommand == None
      && r.attempts == st.attempts + [r.attempts[|st.attempts|]]
      && r.attempts[|st.attempts|].line == (if st.gotoLine then Some(st.lineNum) else None)
      && r.attempts[|st.attempts|].macro == st.toDoCommand
  {
    var a := Attempt(env, arg, TabDecision(st.group, st.tabbed, env.openInTab).0, st);
    assert WithFile(env, arg, st).attempts == st.attempts + [a];
  }

  /** Names of the files attempted, in order. */
  function Names(attempts: seq<OpenAttempt>): (names: seq<string>)
    ensures |names| == |attempts|
  {
    if attempts == [] then [] else [attempts[0].name] + Names(attempts[1..])
  }

  lemma {:induction false} NamesSnoc(attempts: seq<OpenAttempt>, a: OpenAttempt)
    ensures Names(attempts + [a]) == Names(attempts) + [a.name]
    decreases |attempts|
  {
    if attempts != [] {
      assert (attempts + [a])[1..] == attempts[1..] + [a];
      NamesSnoc(attempts[1..], a);
    }
  }

  /** An argument the loop takes for a file name whatever the state of the
      option switch. */
  predicate PlainArg(a: string) {
    !StartsWith(a, '-') && !StartsWith(a, '+')
  }

  /** The arguments from `i` on are file names that parse. */
  predicate FilesFrom(env: Env, args: seq<string>, i: nat, opts: bool) {
    forall k :: i <= k < |args| ==> (!opts || PlainArg(args[k])) && OpensFile(env.filenameCode(args[k]))
  }

  /** One file step over a name that parses adds its attempt. */
  lemma FileStepAppends(env: Env, arg: string, st: ArgState)
    requires OpensFile(env.filenameCode(arg))
    ensures var r := WithFile(env, arg, st);
      && r.opts == st.opts && r.fileSpecified
      && r.attempts[..|st.attempts|] == st.attempts
      && Names(r.attempts) == Names(st.attempts) + [arg]
      && (st.group == 1 ==> r.group == 1 && r.attempts[|st.attempts|].inTab)
      && (st.group == 0 ==>
            r.group == 0 && r.tabbed == st.tabbed
            && r.attempts[|st.attempts|].inTab == (if st.tabbed == -1 then env.openInTab else st.tabbed != 0))
  {
    var a := Attempt(env, arg, TabDecision(st.group, st.tabbed, env.openInTab).0, st);
    var r := WithFile(env, arg, st);
    assert r.attempts == st.attempts + [a];
    NamesSnoc(st.attempts, a);
  }

  /** The file steps over `names`, one after the other. */
  function OpenAll(env: Env, names: seq<string>, st: ArgState): ArgState
    decreases |names|
  {
    if names == [] then st else OpenAll(env, names[1..], WithFile(env, names[0], st))
  }

  /** With only file names that parse left, the loop never exits: it makes
      the file steps over all of them and finishes. */
  lemma {:induction false} FilesRun(d: Dialect, options: OptionTable, env: Env, args: seq<string>, i: nat, st: ArgState)
    requires i <= |args| && FilesFrom(env, args, i, st.opts)
    ensures Loop(d, options, env, args, i, st) == Finish(OpenAll(env, args[i..], st))
    decreases |args| - i
  {
    if i < |args| {
      var r := WithFile(env, args[i], st);
      StepFile(d, options, env, args, i, st);
      FileStepAppends(env, args[i], st);
      FilesRun(d, options, env, args, i + 1, r);
      assert args[i..][1..] == args[i + 1..];
    } else {
      assert args[i..] == [];
    }
  }

  /** The file steps over names that parse attempt each of them, in order,
      after what was attempted before; in a group every one opens a tab. */
  lemma {:induction false} OpenAllAttempts(env: Env, names: seq<string>, st: ArgState)
    requires forall k :: 0 <= k < |names| ==> OpensFile(env.filenameCode(names[k]))
    ensures var r := OpenAll(env, names, st);
      && Names(r.attempts) == Names(st.attempts) + names
      && r.attempts[..|st.attempts|] == st.attempts
      && (r.fileSpecified <==> st.fileSpecified || names != [])
      && (st.group == 1 ==> forall k :: |st.attempts| <= k < |r.attempts| ==> r.attempts[k].inTab)
      && (st.group == 0 && st.tabbed == 1 ==> forall k :: |st.attempts| <= k < |r.attempts| ==> r.attempts[k].inTab)
    decreases |names|
  {
    if names != [] {
      var r1 := WithFile(env, names[0], st);
      FileStepAppends(env, names[0], st);
      OpenAllAttempts(env, names[1..], r1);
      var r := OpenAll(env, names[1..], r1);
      assert names == [names[0]] + names[1..];
      assert r.attempts[..|st.attempts|] == r.attempts[..|r1.attempts|][..|st.attempts|];
      if st.group == 1 || (st.group == 0 && st.tabbed == 1) {
        assert r.attempts[|st.attempts|] == r.attempts[..|r1.attempts|][|st.attempts|];
      }
    }
  }

  /** With only file names that parse left, the loop never exits: it
      attempts every remaining name, in order. */
  lemma FilesAllAttempted(d: Dialect, options: OptionTable, env: Env, args: seq<string>, i: nat, st: ArgState)
    requires i <= |args| && FilesFrom(env, args, i, st.opts)
    ensures var o := Loop(d, options, env, args, i, st);
      && o.Started?
      && Names(o.final.attempts) == Names(st.attempts) + args[i..]
      && o.final.attempts[..|st.attempts|] == st.attempts
      && o == Finish(o.final)
      && (o.final.fileSpecified <==> st.fileSpecified || i < |args|)
      && (st.group == 1 ==> forall k :: |st.attempts| <= k < |o.final.attempts| ==> o.final.attempts[k].inTab)
  {
    FilesRun(d, options, env, args, i, st);
    OpenAllAttempts(env, args[i..], st);
  }

  // The lemmas below hold for any option table that has the names they
  // use; the lemmas above show that both versions' tables do.

  /** `nedit -- files...` opens every file named, even one that looks like
      an option, and opens no Untitled window unless no file was named. */
  lemma DashDashTakesFiles(d: Dialect, options: OptionTable, env: Env, serverNamePref: bool,
                           program: string, files: seq<string>)
    requires Lookup(options, "--") == Named(Flag(EndOfOptions))
    requires forall k :: 0 <= k < |files| ==> OpensFile(env.filenameCode(files[k]))
    ensures var o := RunWith(d, options, env, serverNamePref, [program, "--"] + files);
      o.Started? && Names(o.final.attempts) == files && (o.untitled.UntitledWindow? <==> files == [])
  {
    var args := [program, "--"] + files;
    var st := InitialState(serverNamePref);
    assert args[1] == "--";
    StepFlag(d, options, env, args, 1, st, EndOfOptions);
    var st1 := WithFlag(EndOfOptions, st);
    assert FilesFrom(env, args, 2, false) by {
      forall k | 2 <= k < |args| ensures OpensFile(env.filenameCode(args[k])) {
        assert args[k] == files[k - 2];
      }
    }
    FilesRun(d, options, env, args, 2, st1);
    assert args[2..] == files;
    OpenAllAttempts(env, files, st1);
  }

  /** In a group, the first file opens a new window and every later one a
      tab in it. */
  lemma GroupOpens(env: Env, files: seq<string>, st: ArgState)
    requires |files| >= 1 && st.group == 2 && st.attempts == []
    requires forall k :: 0 <= k < |files| ==> OpensFile(env.filenameCode(files[k]))
    ensures var r := OpenAll(env, files, st);
      && Names(r.attempts) == files
      && !r.attempts[0].inTab
      && forall k :: 1 <= k < |files| ==> r.attempts[k].inTab
  {
    var st2 := WithFile(env, files[0], st);
    assert OpenAll(env, files, st) == OpenAll(env, files[1..], st2);
    assert st2.attempts == [Attempt(env, files[0], false, st)] && st2.group == 1;
    OpenAllAttempts(env, files[1..], st2);
    assert files == [files[0]] + files[1..];
  }

  /** `nedit -group f1 f2 ...`: the first file opens a new window and every
      later one a tab in it. */
  lemma GroupSequence(d: Dialect, options: OptionTable, env: Env, serverNamePref: bool,
                      program: string, files: seq<string>)
    requires Lookup(options, "-group") == Named(Flag(Group))
    requires |files| >= 1
    requires forall k :: 0 <= k < |files| ==> PlainArg(files[k]) && OpensFile(env.filenameCode(files[k]))
    ensures var o := RunWith(d, options, env, serverNamePref, [program, "-group"] + files);
      && o.Started? && Names(o.final.attempts) == files
      && !o.final.attempts[0].inTab
      && forall k :: 1 <= k < |files| ==> o.final.attempts[k].inTab
  {
    var args := [program, "-group"] + files;
    var st := InitialState(serverNamePref);
    assert args[1] == "-group";
    StepFlag(d, options, env, args, 1, st, Group);
    var st1 := WithFlag(Group, st);
    assert st1.group == 2 && st1.opts && st1.attempts == [];
    assert FilesFrom(env, args, 2, true) by {
      forall k | 2 <= k < |args| ensures PlainArg(args[k]) && OpensFile(env.filenameCode(args[k])) {
        assert args[k] == files[k - 2];
      }
    }
    FilesRun(d, options, env, args, 2, st1);
    assert args[2..] == files;
    GroupOpens(env, files, st1);
  }
  /** `-group -tabbed f1 f2 …`: -tabbed ends the group -group started, so
      no file opens a new window and every file opens as a tab. */
  lemma TabbedEndsGroup(d: Dialect, options: OptionTable, env: Env, serverNamePref: bool,
                        program: string, files: seq<string>)
    requires Lookup(options, "-group") == Named(Flag(Group))
    requires Lookup(options, "-tabbed") == Named(Flag(TabbedOpt(true)))
    requires forall k :: 0 <= k < |files| ==> PlainArg(files[k]) && OpensFile(env.filenameCode(files[k]))
    ensures var o := RunWith(d, options, env, serverNamePref, [program, "-group", "-tabbed"] + files);
      && o.Started? && Names(o.final.attempts) == files
      && forall k :: 0 <= k < |files| ==> o.final.attempts[k].inTab
  {
    var args := [program, "-group", "-tabbed"] + files;
    var st := InitialState(serverNamePref);
    assert args[1] == "-group" && args[2] == "-tabbed";
    StepFlag(d, options, env, args, 1, st, Group);
    var st1 := WithFlag(Group, st);
    StepFlag(d, options, env, args, 2, st1, TabbedOpt(true));
    var st2 := WithFlag(TabbedOpt(true), st1);
    assert st2.group == 0 && st2.tabbed == 1 && st2.opts && st2.attempts == [];
    assert FilesFrom(env, args, 3, true) by {
      forall k | 3 <= k < |args| ensures PlainArg(args[k]) && OpensFile(env.filenameCode(args[k])) {
        assert args[k] == files[k - 3];
      }
    }
    FilesRun(d, options, env, args, 3, st2);
    assert args[3..] == files;
    OpenAllAttempts(env, files, st2);
  }


  /** An unknown option ends the run with a failure before anything is
      opened, and -V and -help end it with success. */
  lemma OptionsThatEndTheRun(d: Dialect, options: OptionTable, env: Env, serverNamePref: bool,
                             program: string, a: string, rest: seq<string>)
    requires StartsWith(a, '-')
    ensures Lookup(options, a) == Unknown ==>
      RunWith(d, options, env, serverNamePref, [program, a] + rest) == Unrecognized(a)
    ensures Lookup(options, a) == Named(Version) ==>
      RunWith(d, options, env, serverNamePref, [program, a] + rest) == ShowVersion
    ensures Lookup(options, a) == Named(Help) ==>
      RunWith(d, options, env, serverNamePref, [program, a] + rest) == ShowHelp
  {
    var args := [program, a] + rest;
    assert args[1] == a;
  }

  /** An option that needs an argument and is last ends the run with a
      failure. */
  lemma MissingArgumentFails(d: Dialect, options: OptionTable, env: Env, serverNamePref: bool,
                             program: string, a: string)
    requires StartsWith(a, '-') && Lookup(options, a).Named? && Lookup(options, a).named.Valued?
    ensures RunWith(d, options, env, serverNamePref, [program, a]) == MissingArgument(a)
  {
    var args := [program, a];
    assert args[1] == a;
  }

  /** `nedit -do m` with no file: the Untitled window runs `m` when it
      passes the test parse, and nothing otherwise. */
  lemma DoGoesToUntitled(d: Dialect, options: OptionTable, env: Env, serverNamePref: bool,
                         program: string, m: string)
    requires Lookup(options, "-do") == Named(Valued(DoMacro))
    ensures RunWith(d, options, env, serverNamePref, [program, "-do", m]).Started?
    ensures RunWith(d, options, env, serverNamePref, [program, "-do", m]).untitled
      == UntitledWindow(if CheckDoMacroArg(m, env.parses) then Some(m) else None)
  {
    var args := [program, "-do", m];
    var st := InitialState(serverNamePref);
    assert args[1] == "-do" && args[2] == m;
    StepValued(d, options, env, args, 1, st, DoMacro);
  }
  /** `nedit -do -import`: the argument loop alone reads "-import" as the
      macro and starts the editor, but the first pass has already exited,
      because it takes "-import" for an import option with no file after
      it. */
  lemma ImportPassExitsFirst(d: Dialect, env: Env, serverNamePref: bool, program: string)
    ensures Run(d, env, serverNamePref, [program, "-do", "-import"]).Started?
    ensures StartUp(d, env, serverNamePref, [program, "-do", "-import"]) == MissingArgument("-import")
  {
    var args := [program, "-do", "-import"];
    DoName(d);
    DoGoesToUntitled(d, Options(d), env, serverNamePref, program, "-import");
    assert args[1] == "-do" && args[2] == "-import";
    assert ImportScan(d, args, 1) == ImportScan(d, args, 2);
    assert NextArg(|args|, 2).None?;
  }


  /** `nedit -line n a b` (both names parse and open): the line goes to `a`
      only, and the next file opens at no particular line. */
  lemma LineAppliesToNextFileOnly(d: Dialect, options: OptionTable, env: Env, serverNamePref: bool,
                                  program: string, n: int, a: string, b: string)
    requires Lookup(options, "-line") == Named(Valued(Line))
    requires IsInt32(n)
    requires PlainArg(a) && PlainArg(b)
    requires OpensFile(env.filenameCode(a)) && env.opens(a)
    requires OpensFile(env.filenameCode(b)) && env.opens(b)
    ensures var o := RunWith(d, options, env, serverNamePref, [program, "-line", Decimal(n), a, b]);
      o.Started? && |o.final.attempts| == 2
      && o.final.attempts[0].line == Some(n) && o.final.attempts[1].line == None
  {
    var args := [program, "-line", Decimal(n), a, b];
    var st := InitialState(serverNamePref);
    assert args[1] == "-line" && args[2] == Decimal(n) && args[3] == a && args[4] == b;
    LineNumberOfDecimal(d, n);
    StepValued(d, options, env, args, 1, st, Line);
    var st1 := WithOption(d, env, Line, "-line", Decimal(n), st);
    assert st1 == RequestLine(d, "-line", Decimal(n), st);
    assert st1.gotoLine && st1.lineNum == n && st1.attempts == [] && st1.opts;
    var st2 := WithFile(env, a, st1);
    StepFile(d, options, env, args, 3, st1);
    FileStepConsumes(env, a, st1);
    FileStepAppends(env, a, st1);
    var st3 := WithFile(env, b, st2);
    StepFile(d, options, env, args, 4, st2);
    FileStepConsumes(env, b, st2);
  }

  /** Both ways of reading a line number read a written one back. */
  lemma LineNumberOfDecimal(d: Dialect, n: int)
    requires IsInt32(n)
    ensures LineNumber(d, Decimal(n)) == Some(n)
  {
    ToIntDecimal(n);
    ScanIntDecimal(n, []);
    assert Decimal(n) + [] == Decimal(n);
  }

  // -----------------------------------------------------------------------

  predicate IsVersionOption(a: string) {
    a == "-V" || a == "-version"
  }

  /** When no display can be opened, source/nedit.cpp still answers -V and
      -version that come before the first `--`. */
  function VersionRequested(args: seq<string>, i: nat): bool
    decreases |args| - i
  {
    if i >= |args| || args[i] == "--" then false
    else IsVersionOption(args[i]) || VersionRequested(args, i + 1)
  }

  /** The scan as a loop. */
  method NoDisplayVersionScan(args: seq<string>) returns (version: bool)
    ensures version == VersionRequested(args, 1)
  {
    var i := 1;
    while i < |args| && args[i] != "--"
      invariant 1 <= i
      invariant VersionRequested(args, 1) == VersionRequested(args, i)
      decreases |args| - i
    {
      if IsVersionOption(args[i]) {
        return true;
      }
      i := i + 1;
    }
    return false;
  }

  /** A version option is answered exactly when no `--` comes before it. */
  lemma {:induction false} VersionRequestedMeans(args: seq<string>, i: nat)
    requires i <= |args|
    ensures VersionRequested(args, i) <==>
      exists k :: i <= k < |args| && IsVersionOption(args[k]) && "--" !in args[i..k]
    decreases |args| - i
  {
    if i < |args| {
      VersionRequestedMeans(args, i + 1);
      if args[i] == "--" {
        forall k | i < k < |args| ensures "--" in args[i..k] {
          assert args[i..k][0] == "--";
        }
      } else if IsVersionOption(args[i]) {
        assert args[i..i] == [];
      } else if VersionRequested(args, i + 1) {
        var k :| i + 1 <= k < |args| && IsVersionOption(args[k]) && "--" !in args[i + 1..k];
        assert args[i..k] == [args[i]] + args[i + 1..k];
      } else {
        forall k | i <= k < |args| && IsVersionOption(args[k]) ensures "--" in args[i..k] {
          assert k != i;
          assert args[i..k] == [args[i]] + args[i + 1..k];
        }
      }
    }
  }
}
