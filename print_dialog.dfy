/** The print dialog (source/ui/DialogPrint.cpp): the seven print
    preferences and their defaults, the search of PATH for the flpr
    program, the print command the dialog synthesises from its fields, the
    flag that tells whether the user typed the command by hand, and the
    shell pipeline that runs it. */
module PrintDialog {
  import opened Strings

  /** Separator between the directories listed in PATH. */
  const PathSeparator: char := ':'

  /** Number of entries in the print preference table, and their order. */
  const PrintPrefCount: nat := 7
  const PrintCommandIndex: nat := 0
  const CopiesOptionIndex: nat := 1
  const QueueOptionIndex: nat := 2
  const NameOptionIndex: nat := 3
  const HostOptionIndex: nat := 4
  const DefaultQueueIndex: nat := 5
  const DefaultHostIndex: nat := 6

  /** The error text kept from a failed print command: at most this many
      bytes, less one for the terminating NUL. */
  const MaxPrintErrorLength: nat := 1024

  /** The seven print preferences: the command, the flags that introduce
      the copies, queue, job name and host arguments, and the default
      queue and host shown in the dialog's labels. */
  datatype PrintOptions = PrintOptions(
    printCommand: string,
    copiesOption: string,
    queueOption: string,
    nameOption: string,
    hostOption: string,
    defaultQueue: string,
    defaultHost: string)

  /** What LoadPrintPreferencesEx learns from the environment: the PATH,
      FLPQUE, FLPHOST and PRINTER variables (None when unset), and the
      `queue` and `host` entries of /usr/local/etc/flp.defaults (None
      when the file or the entry is missing). */
  datatype PrintEnvironment = PrintEnvironment(
    path: Option<string>,
    flpQue: Option<string>,
    flpHost: Option<string>,
    printer: Option<string>,
    queueTag: Option<string>,
    hostTag: Option<string>)

  // -----------------------------------------------------------------------
  // fileInPath: the directories of PATH
  // -----------------------------------------------------------------------

  /** The directories fileInPath examines, in order: the PATH pieces
      between separators, except that an empty last piece is not
      searched (so an empty PATH searches nothing). */
  function SearchedDirs(path: string): (dirs: seq<string>)
    ensures forall k :: 0 <= k < |dirs| ==> PathSeparator !in dirs[k]
  {
    SplitPiecesFree(path, PathSeparator);
    var parts := Split(path, PathSeparator);
    if parts[|parts| - 1] == [] then parts[..|parts| - 1] else parts
  }

  /** Whether some searched directory passes the check `inDir` (for flpr:
      it holds an entry of that name with an execute bit set). */
  predicate InPath(path: Option<string>, inDir: string -> bool) {
    path.Some? && exists k :: 0 <= k < |SearchedDirs(path.value)| && inDir(SearchedDirs(path.value)[k])
  }

  /** The searched directories, joined by separators, give PATH back, less
      a separator that ends it. */
  lemma SearchedDirsJoin(path: string)
    requires path != []
    ensures |SearchedDirs(path)| >= 1
    ensures Join(SearchedDirs(path), PathSeparator)
      + (if path[|path| - 1] == PathSeparator then [PathSeparator] else []) == path
  {
    var parts := Split(path, PathSeparator);
    var n := |parts|;
    JoinSplit(path, PathSeparator);
    SplitPiecesFree(path, PathSeparator);
    if n == 1 {
      assert Join(parts, PathSeparator) == parts[0];
      assert parts[0] != [];
      assert PathSeparator !in parts[0];
      assert path[|path| - 1] == parts[0][|parts[0]| - 1];
    } else {
      assert parts == parts[..n - 1] + [parts[n - 1]];
      JoinSnoc(parts[..n - 1], parts[n - 1], PathSeparator);
      var last := parts[n - 1];
      if last != [] {
        assert PathSeparator !in last;
        assert path[|path| - 1] == last[|last| - 1];
      }
    }
  }

  /** A separator that ends a non-empty PATH changes nothing. */
  lemma TrailingSeparatorIgnored(path: string)
    requires path != [] && path[|path| - 1] != PathSeparator
    ensures SearchedDirs(path + [PathSeparator]) == SearchedDirs(path)
  {
    var p := path + [PathSeparator];
    SearchedDirsJoin(path);
    SearchedDirsJoin(p);
    var a, b := SearchedDirs(path), SearchedDirs(p);
    assert p[|p| - 1] == PathSeparator;
    var jb := Join(b, PathSeparator);
    assert jb + [PathSeparator] == p;
    assert jb == (jb + [PathSeparator])[..|jb|] == p[..|path|] == path;
    assert Join(a, PathSeparator) == path;
    SplitJoin(a, PathSeparator);
    SplitJoin(b, PathSeparator);
  }

  /** What the searched directories are once the walk has taken `done`
      and `last` is the final piece. */
  lemma SearchedAfter(path: string, done: seq<string>, last: string)
    requires done + [last] == Split(path, PathSeparator)
    ensures SearchedDirs(path) == if last == [] then done else done + [last]
  {
    var parts := Split(path, PathSeparator);
    assert parts[|parts| - 1] == last;
    assert parts[..|parts| - 1] == done;
  }

  /** A piece the walk takes before the end of PATH, or a non-empty last
      one, is a searched directory. */
  lemma SearchedNext(path: string, done: seq<string>, dir: string, rest: seq<string>)
    requires done + ([dir] + rest) == Split(path, PathSeparator)
    requires rest != [] || dir != []
    ensures |done| < |SearchedDirs(path)| && SearchedDirs(path)[|done|] == dir
  {
    var parts := Split(path, PathSeparator);
    assert parts[|done|] == dir;
  }

  /** The walk has reached the end of PATH: nothing was found. */
  lemma WalkEnd(path: string, done: seq<string>, inDir: string -> bool)
    requires done + Split(path[|path|..], PathSeparator) == Split(path, PathSeparator)
    requires forall k :: 0 <= k < |done| ==> !inDir(done[k])
    ensures !InPath(Some(path), inDir)
  {
    assert Split(path[|path|..], PathSeparator) == [[]];
    SearchedAfter(path, done, []);
  }

  /** No separator is left: the rest of PATH is the last directory, and it
      alone decides. */
  lemma WalkLast(path: string, pos: nat, done: seq<string>, inDir: string -> bool)
    requires pos < |path| && forall j :: pos <= j < |path| ==> path[j] != PathSeparator
    requires done + Split(path[pos..], PathSeparator) == Split(path, PathSeparator)
    requires forall k :: 0 <= k < |done| ==> !inDir(done[k])
    ensures InPath(Some(path), inDir) == inDir(path[pos..])
  {
    var dir := path[pos..];
    SplitRest(path, PathSeparator, pos, done);
    SearchedAfter(path, done, dir);
    if inDir(dir) {
      SearchedNext(path, done, dir, []);
    }
  }

  /** The directory before the next separator passes the check. */
  lemma WalkFound(path: string, pos: nat, sep: nat, done: seq<string>, inDir: string -> bool)
    requires pos <= sep < |path| && path[sep] == PathSeparator
    requires forall j :: pos <= j < sep ==> path[j] != PathSeparator
    requires done + Split(path[pos..], PathSeparator) == Split(path, PathSeparator)
    requires inDir(path[pos..sep])
    ensures InPath(Some(path), inDir)
  {
    PiecesFrom(path, PathSeparator, pos, sep);
    SearchedNext(path, done, path[pos..sep], Split(path[sep + 1..], PathSeparator));
  }

  /** fileInPath: walk PATH from left to right, one directory at a time,
      and report whether one of them passes `inDir`. An unset PATH finds
      nothing, and so does an empty remainder (an empty PATH, or what
      follows a final separator). */
  method FileInPath(pathEnv: Option<string>, inDir: string -> bool) returns (found: bool)
    ensures found == InPath(pathEnv, inDir)
  {
    if pathEnv.None? {
      return false;
    }
    var path := pathEnv.value;
    var pos := 0;
    ghost var done: seq<string> := [];
    while true
      invariant 0 <= pos <= |path|
      invariant done + Split(path[pos..], PathSeparator) == Split(path, PathSeparator)
      invariant forall k :: 0 <= k < |done| ==> !inDir(done[k])
      decreases |path| - pos
    {
      if pos == |path| {
        WalkEnd(path, done, inDir);
        return false;
      }
      var sep := IndexOf(path, PathSeparator, pos);
      if sep == -1 {
        WalkLast(path, pos, done, inDir);
        return inDir(path[pos..]);
      }
      var dir := path[pos..sep];
      if inDir(dir) {
        WalkFound(path, pos, sep, done, inDir);
        return true;
      }
      ghost var before, from := done, pos;
      done := done + [dir];
      pos := sep + 1;
      SplitStep(path, PathSeparator, from, pos, before, done);
    }
  }

  // -----------------------------------------------------------------------
  // The default preference table and the preferences read over it
  // -----------------------------------------------------------------------

  /** getFlprQueueDefault: FLPQUE, else the flp.defaults entry, else "". */
  function FlprQueueDefault(env: PrintEnvironment): string {
    if env.flpQue.Some? then env.flpQue.value
    else if env.queueTag.Some? then env.queueTag.value
    else ""
  }

  /** getFlprHostDefault: FLPHOST, else the flp.defaults entry, else "". */
  function FlprHostDefault(env: PrintEnvironment): string {
    if env.flpHost.Some? then env.flpHost.value
    else if env.hostTag.Some? then env.hostTag.value
    else ""
  }

  /** getLprQueueDefault: PRINTER, else "". */
  function LprQueueDefault(env: PrintEnvironment): string {
    if env.printer.Some? then env.printer.value else ""
  }

  /** The default strings LoadPrintPreferencesEx installs, in table order:
      those for flpr when it was looked for and found, else those for lpr. */
  function DefaultTable(flpr: bool, env: PrintEnvironment): (table: seq<string>)
    ensures |table| == PrintPrefCount
  {
    if flpr then ["flpr", "", "-q", "-j ", "-h", FlprQueueDefault(env), FlprHostDefault(env)]
    else ["lpr", "-# ", "-P ", "-J ", "", LprQueueDefault(env), ""]
  }

  /** One preference as RestorePreferences sets it: the resource database's
      value when it has one, else the default. */
  function Restored(table: seq<string>, database: map<nat, string>, i: nat): string
    requires i < |table|
  {
    if i in database then database[i] else table[i]
  }

  /** All seven preferences read over the default table. */
  function RestoredOptions(table: seq<string>, database: map<nat, string>): PrintOptions
    requires |table| == PrintPrefCount
  {
    PrintOptions(
      Restored(table, database, PrintCommandIndex),
      Restored(table, database, CopiesOptionIndex),
      Restored(table, database, QueueOptionIndex),
      Restored(table, database, NameOptionIndex),
      Restored(table, database, HostOptionIndex),
      Restored(table, database, DefaultQueueIndex),
      Restored(table, database, DefaultHostIndex))
  }

  /** Without flpr and without a resource database, the preferences are
      lpr's: copies with "-# ", queue with "-P ", job name with "-J ", no
      host option and no default host. */
  lemma LprDefaults(env: PrintEnvironment)
    ensures RestoredOptions(DefaultTable(false, env), map[])
      == PrintOptions("lpr", "-# ", "-P ", "-J ", "", LprQueueDefault(env), "")
  {
  }

  /** With flpr and no resource database: no copies option, queue "-q",
      job name "-j ", host "-h", and the defaults flpr's own settings
      give. */
  lemma FlprDefaults(env: PrintEnvironment)
    ensures RestoredOptions(DefaultTable(true, env), map[])
      == PrintOptions("flpr", "", "-q", "-j ", "-h", FlprQueueDefault(env), FlprHostDefault(env))
  {
  }

  // -----------------------------------------------------------------------
  // The synthesised print command
  // -----------------------------------------------------------------------

  /** The copies argument: the option followed by the number, present only
      when there is a copies option and a number other than zero. */
  function CopiesArg(copiesOption: string, copies: int): string {
    if copiesOption != [] && copies != 0 then " " + copiesOption + Decimal(copies) else ""
  }

  /** The queue or host argument: the option followed by the field's text,
      present only when both are non-empty. */
  function FieldArg(option: string, text: string): string {
    if option != [] && text != [] then " " + option + text else ""
  }

  /** The job argument: the option followed by the job name in double
      quotes, present whenever there is a job name option. */
  function JobArg(nameOption: string, jobName: string): string {
    if nameOption != [] then " " + nameOption + "\"" + jobName + "\"" else ""
  }

  /** The command updatePrintCmd composes: the print command, then the
      copies, queue, host and job arguments in that order. */
  function PrintCmd(o: PrintOptions, copies: int, queue: string, host: string, jobName: string): (cmd: string)
    ensures o.printCommand <= cmd
  {
    o.printCommand + CopiesArg(o.copiesOption, copies) + FieldArg(o.queueOption, queue)
      + FieldArg(o.hostOption, host) + JobArg(o.nameOption, jobName)
  }

  /** Every argument that is present starts with a space, so the command
      is the print command followed by separate words. */
  lemma ArgumentsStartWithSpace(o: PrintOptions, copies: int, queue: string, host: string, jobName: string)
    ensures CopiesArg(o.copiesOption, copies) == [] || CopiesArg(o.copiesOption, copies)[0] == ' '
    ensures FieldArg(o.queueOption, queue) == [] || FieldArg(o.queueOption, queue)[0] == ' '
    ensures FieldArg(o.hostOption, host) == [] || FieldArg(o.hostOption, host)[0] == ' '
    ensures JobArg(o.nameOption, jobName) == [] || JobArg(o.nameOption, jobName)[0] == ' '
  {
  }

  /** With every option flag empty, the fields make no difference: the
      command is the print command alone. */
  lemma NoOptionsBareCommand(o: PrintOptions, copies: int, queue: string, host: string, jobName: string)
    requires o.copiesOption == [] && o.queueOption == [] && o.hostOption == [] && o.nameOption == []
    ensures PrintCmd(o, copies, queue, host, jobName) == o.printCommand
  {
  }

  /** Empty fields (and zero copies) add nothing but the job argument. */
  lemma EmptyFieldsOmitted(o: PrintOptions, jobName: string)
    ensures PrintCmd(o, 0, [], [], jobName) == o.printCommand + JobArg(o.nameOption, jobName)
  {
  }

  /** The number of copies can be read back from its argument: after the
      space and the option comes exactly the number. */
  lemma CopiesReadBack(copiesOption: string, copies: int)
    requires copiesOption != [] && copies != 0 && IsInt32(copies)
    ensures var arg := CopiesArg(copiesOption, copies);
      |arg| > |copiesOption| + 1
      && arg[1..|copiesOption| + 1] == copiesOption
      && ToInt(arg[|copiesOption| + 1..]) == Some(copies)
  {
    var arg := CopiesArg(copiesOption, copies);
    assert arg[|copiesOption| + 1..] == Decimal(copies);
    DecimalSign(copies);
    ToIntDecimal(copies);
  }

  /** The job name sits between the last two double quotes. */
  lemma JobNameQuoted(nameOption: string, jobName: string)
    requires nameOption != []
    ensures var arg := JobArg(nameOption, jobName);
      |arg| == |nameOption| + |jobName| + 3
      && arg[|arg| - 1] == '"' && arg[|nameOption| + 1] == '"'
      && arg[|nameOption| + 2..|arg| - 1] == jobName
  {
  }

  // -----------------------------------------------------------------------
  // Running the command
  // -----------------------------------------------------------------------

  /** The shell pipeline on_buttonPrint_clicked hands to popen: the file is
      piped into the command, whose error output joins its output. */
  function Pipeline(printFileName: string, cmd: string): string {
    "cat " + printFileName + " | " + cmd + " 2>&1"
  }

  /** How popen and pclose turned out: popen failed with an error message,
      or the command ran, printed `output` and exited with `status`. */
  datatype PipeResult = PipeFailed(reason: string) | Ran(output: string, status: int)

  /** The error text shown for a failed command: what one read of at most
      1023 bytes returned, up to its first NUL. */
  function ErrorReport(output: string): (r: string)
    ensures r <= output && '\0' !in r && |r| < MaxPrintErrorLength
    ensures |r| < |output| && |r| < MaxPrintErrorLength - 1 ==> output[|r|] == '\0'
  {
    var read := if |output| < MaxPrintErrorLength then output else output[..MaxPrintErrorLength - 1];
    CString(read)
  }

  function UnableToPrint(detail: string): string {
    "Unable to Print:\n" + detail
  }

  // -----------------------------------------------------------------------
  // The process-wide state and the dialog
  // -----------------------------------------------------------------------

  /** The file-scope state DialogPrint.cpp keeps between dialogs: the
      preference table's default strings, the preferences, and what the
      last successful print used. */
  class PrintSettings {
    const defaults: array<string>
    var options: PrintOptions
    var loaded: bool
    var copies: int
    var queue: string
    var host: string
    var cmdText: string
    var cmdFieldModified: bool

    /** Program start: no preferences loaded, nothing printed, the command
        not edited. */
    constructor ()
      ensures fresh(defaults) && defaults.Length == PrintPrefCount
      ensures options == PrintOptions("", "", "", "", "", "", "") && !loaded
      ensures copies == 0 && queue == [] && host == [] && cmdText == []
      ensures !cmdFieldModified
    {
      defaults := new string[PrintPrefCount](_ => "");
      options := PrintOptions("", "", "", "", "", "", "");
      loaded := false;
      copies := 0;
      queue, host, cmdText := [], [], [];
      cmdFieldModified := false;
    }

    /** LoadPrintPreferencesEx: install the flpr defaults when flpr was
        asked for and is found along PATH (`flprIn` says whether a
        directory holds an executable flpr), else the lpr defaults; then
        read each preference from the resource database over them. */
    method LoadPrintPreferences(lookForFlpr: bool, env: PrintEnvironment, flprIn: string -> bool,
                                database: map<nat, string>)
      requires defaults.Length == PrintPrefCount
      modifies defaults, this`options, this`loaded
      ensures defaults[..] == DefaultTable(lookForFlpr && InPath(env.path, flprIn), env)
      ensures options == RestoredOptions(defaults[..], database)
      ensures loaded
    {
      var flpr := false;
      if lookForFlpr {
        flpr := FileInPath(env.path, flprIn);
      }
      if flpr {
        defaults[PrintCommandIndex] := "flpr";
        defaults[CopiesOptionIndex] := "";
        defaults[QueueOptionIndex] := "-q";
        defaults[NameOptionIndex] := "-j ";
        defaults[HostOptionIndex] := "-h";
        defaults[DefaultQueueIndex] := FlprQueueDefault(env);
        defaults[DefaultHostIndex] := FlprHostDefault(env);
      } else {
        defaults[PrintCommandIndex] := "lpr";
        defaults[CopiesOptionIndex] := "-# ";
        defaults[QueueOptionIndex] := "-P ";
        defaults[NameOptionIndex] := "-J ";
        defaults[HostOptionIndex] := "";
        defaults[DefaultQueueIndex] := LprQueueDefault(env);
        defaults[DefaultHostIndex] := "";
      }
      options := RestoredOptions(defaults[..], database);
      loaded := true;
    }
  }

  /** The characters the queue and host fields refuse, because they would
      upset a shell command line. */
  predicate FieldCharRefused(c: char) {
    c == ' ' || c == '\t' || c == ',' || c == ';' || c == '|' || c == '<' || c == '>'
    || c == '(' || c == ')' || c == '[' || c == ']' || c == '{' || c == '}'
    || c == '!' || c == '@' || c == '?'
  }

  predicate FieldTextAccepted(text: string) {
    forall k :: 0 <= k < |text| ==> !FieldCharRefused(text[k])
  }

  /** One print dialog: its widgets' values and the shared settings. */
  class DialogPrint {
    const settings: PrintSettings
    const printFileName: string
    const jobName: string
    var copiesField: int
    var queueField: string
    var hostField: string
    var commandField: string
    var hostVisible: bool
    var accepted: bool

    /** The dialog opens: load the preferences if nobody has (looking for
        flpr, with no resource database), show the host field only when
        there is a host option, and put either the command the user last
        typed and printed or a freshly synthesised one in the command
        field. The copies spin box starts at `initialCopies` and the text
        fields empty. */
    constructor (settings: PrintSettings, printFileName: string, jobName: string, initialCopies: int,
                 env: PrintEnvironment, flprIn: string -> bool)
      requires settings.defaults.Length == PrintPrefCount
      modifies settings, settings.defaults
      ensures this.settings == settings && this.printFileName == printFileName && this.jobName == jobName
      ensures settings.loaded
      ensures !old(settings.loaded) ==>
        settings.defaults[..] == DefaultTable(InPath(env.path, flprIn), env)
        && settings.options == RestoredOptions(settings.defaults[..], map[])
      ensures old(settings.loaded) ==>
        settings.options == old(settings.options) && settings.defaults[..] == old(settings.defaults[..])
      ensures copiesField == initialCopies && queueField == [] && hostField == [] && !accepted
      ensures hostVisible == (settings.options.hostOption != [])
      ensures old(settings.cmdFieldModified) ==> commandField == settings.cmdText && settings.cmdFieldModified
      ensures !old(settings.cmdFieldModified) ==>
        commandField == PrintCmd(settings.options, initialCopies, [], [], jobName) && !settings.cmdFieldModified
      ensures settings.copies == old(settings.copies) && settings.queue == old(settings.queue)
      ensures settings.host == old(settings.host) && settings.cmdText == old(settings.cmdText)
    {
      this.settings := settings;
      this.printFileName := printFileName;
      this.jobName := jobName;
      copiesField := initialCopies;
      queueField := [];
      hostField := [];
      commandField := [];
      hostVisible := false;
      accepted := false;
      new;
      if !settings.loaded {
        settings.LoadPrintPreferences(true, env, flprIn, map[]);
      }
      hostVisible := settings.options.hostOption != [];
      if settings.cmdFieldModified {
        commandField := settings.cmdText;
      } else {
        UpdatePrintCmd();
      }
    }

    /** updatePrintCmd: synthesise the command from the fields and record
        that the command field no longer holds anything typed by hand. */
    method UpdatePrintCmd()
      modifies this`commandField, settings`cmdFieldModified
      ensures commandField == PrintCmd(settings.options, copiesField, queueField, hostField, jobName)
      ensures !settings.cmdFieldModified
    {
      var o := settings.options;
      var copiesArg, queueArg, hostArg, jobArg := "", "", "", "";
      if o.copiesOption != [] {
        if copiesField != 0 {
          copiesArg := " " + o.copiesOption + Decimal(copiesField);
        }
      }
      if o.queueOption != [] {
        if queueField != [] {
          queueArg := " " + o.queueOption + queueField;
        }
      }
      if o.hostOption != [] {
        if hostField != [] {
          hostArg := " " + o.hostOption + hostField;
        }
      }
      if o.nameOption != [] {
        jobArg := " " + o.nameOption + "\"" + jobName + "\"";
      }
      commandField := o.printCommand + copiesArg + queueArg + hostArg + jobArg;
      settings.cmdFieldModified := false;
    }

    /** The copies spin box is set to `n`. Only a real change emits
        valueChanged, whose slot synthesises the command again. */
    method SetCopies(n: int)
      modifies this`copiesField, this`commandField, settings`cmdFieldModified
      ensures copiesField == n
      ensures n != old(copiesField) ==>
        commandField == PrintCmd(settings.options, n, queueField, hostField, jobName)
        && !settings.cmdFieldModified
      ensures n == old(copiesField) ==>
        commandField == old(commandField) && settings.cmdFieldModified == old(settings.cmdFieldModified)
    {
      if n != copiesField {
        copiesField := n;
        UpdatePrintCmd();
      }
    }

    /** The user edits the queue field. Text with a refused character is
        turned away and nothing happens; text that differs from the field's
        emits textChanged, whose slot synthesises the command again. */
    method SetQueueText(text: string)
      modifies this`queueField, this`commandField, settings`cmdFieldModified
      ensures !FieldTextAccepted(text) || text == old(queueField) ==>
        queueField == old(queueField) && commandField == old(commandField)
        && settings.cmdFieldModified == old(settings.cmdFieldModified)
      ensures FieldTextAccepted(text) && text != old(queueField) ==>
        queueField == text && !settings.cmdFieldModified
        && commandField == PrintCmd(settings.options, copiesField, text, hostField, jobName)
    {
      if FieldTextAccepted(text) && text != queueField {
        queueField := text;
        UpdatePrintCmd();
      }
    }

    /** The user edits the host field, with the same rule. */
    method SetHostText(text: string)
      modifies this`hostField, this`commandField, settings`cmdFieldModified
      ensures !FieldTextAccepted(text) || text == old(hostField) ==>
        hostField == old(hostField) && commandField == old(commandField)
        && settings.cmdFieldModified == old(settings.cmdFieldModified)
      ensures FieldTextAccepted(text) && text != old(hostField) ==>
        hostField == text && !settings.cmdFieldModified
        && commandField == PrintCmd(settings.options, copiesField, queueField, text, jobName)
    {
      if FieldTextAccepted(text) && text != hostField {
        hostField := text;
        UpdatePrintCmd();
      }
    }

    /** The user types in the command field itself. */
    method EditCommand(text: string)
      modifies this`commandField, settings`cmdFieldModified
      ensures commandField == text && settings.cmdFieldModified
    {
      commandField := text;
      settings.cmdFieldModified := true;
    }

    /** on_buttonPrint_clicked: run the pipeline; on failure report it and
        keep everything; on success remember the copies, queue and host
        (each only when its option exists) and the command, and close the
        dialog. */
    method PrintClicked(result: PipeResult) returns (command: string, message: Option<string>)
      modifies this`accepted, settings`copies, settings`queue, settings`host, settings`cmdText
      ensures command == Pipeline(printFileName, commandField)
      ensures result.PipeFailed? ==> message == Some(UnableToPrint(result.reason))
      ensures result.Ran? && result.status != 0 ==> message == Some(UnableToPrint(ErrorReport(result.output)))
      ensures message.Some? ==>
        accepted == old(accepted) && settings.copies == old(settings.copies) && settings.queue == old(settings.queue)
        && settings.host == old(settings.host) && settings.cmdText == old(settings.cmdText)
      ensures message.None? <==> result.Ran? && result.status == 0
      ensures message.None? ==>
        accepted && settings.cmdText == commandField
        && settings.copies == (if settings.options.copiesOption != [] then copiesField else old(settings.copies))
        && settings.queue == (if settings.options.queueOption != [] then queueField else old(settings.queue))
        && settings.host == (if settings.options.hostOption != [] then hostField else old(settings.host))
    {
      command := "cat " + printFileName + " | " + commandField + " 2>&1";
      if result.PipeFailed? {
        return command, Some(UnableToPrint(result.reason));
      }
      if result.status != 0 {
        return command, Some(UnableToPrint(ErrorReport(result.output)));
      }
      var o := settings.options;
      if o.copiesOption != [] {
        settings.copies := copiesField;
      }
      if o.queueOption != [] {
        settings.queue := queueField;
      }
      if o.hostOption != [] {
        settings.host := hostField;
      }
      settings.cmdText := commandField;
      accepted := true;
      message := None;
    }
  }

  // -----------------------------------------------------------------------
  // The command field across dialogs
  // -----------------------------------------------------------------------

  /** A command typed by hand and printed comes back in the next dialog. */
  method EditedCommandSurvives(settings: PrintSettings, file: string, job: string, copies: int,
                               env: PrintEnvironment, flprIn: string -> bool, typed: string)
    returns (shown: string)
    requires settings.defaults.Length == PrintPrefCount
    modifies settings, settings.defaults
    ensures shown == typed
  {
    var first := new DialogPrint(settings, file, job, copies, env, flprIn);
    first.EditCommand(typed);
    var _, _ := first.PrintClicked(Ran("", 0));
    var second := new DialogPrint(settings, file, job, copies, env, flprIn);
    shown := second.commandField;
  }

  /** Once the copies are changed after the edit, the command is
      synthesised again, and so is the next dialog's. Setting the spin box
      to the value it already shows changes nothing: the edit stays marked,
      and the next dialog shows the last printed command. */
  method FieldChangeForgetsEdit(settings: PrintSettings, file: string, job: string, copies: int,
                                env: PrintEnvironment, flprIn: string -> bool, typed: string, n: int)
    returns (shown: string)
    requires settings.defaults.Length == PrintPrefCount
    modifies settings, settings.defaults
    ensures n != copies ==> shown == PrintCmd(settings.options, copies, [], [], job)
    ensures n == copies ==> shown == old(settings.cmdText)
  {
    var first := new DialogPrint(settings, file, job, copies, env, flprIn);
    first.EditCommand(typed);
    first.SetCopies(n);
    var second := new DialogPrint(settings, file, job, copies, env, flprIn);
    shown := second.commandField;
  }

  /** A command typed by hand but not printed is not kept: the next dialog
      shows the command of the last successful print instead (empty when
      there was none), because the flag is set by the edit while the text
      is saved only by a successful print. */
  method UnprintedEditNotKept(settings: PrintSettings, file: string, job: string, copies: int,
                              env: PrintEnvironment, flprIn: string -> bool, typed: string)
    returns (shown: string)
    requires settings.defaults.Length == PrintPrefCount
    modifies settings, settings.defaults
    ensures shown == old(settings.cmdText)
  {
    var first := new DialogPrint(settings, file, job, copies, env, flprIn);
    first.EditCommand(typed);
    var second := new DialogPrint(settings, file, job, copies, env, flprIn);
    shown := second.commandField;
  }
}
