/** `CommandLineArgs`: the start-up options `-c <config file>`,
    `-k <key file>` and `-p <port>`, and the creation of the configuration
    file's directory that follows the parse. */
module CommandLineArgs {
  import opened JavaText

  /** The three options' values. */
  datatype Settings = Settings(configPath: string, keyPath: string, port: Int32)

  const Defaults: Settings := Settings("config.json", "key.txt", 30900)

  predicate IsFlag(arg: string) {
    arg == "-c" || arg == "-p" || arg == "-k"
  }

  /** The settings after the scan of `args` from position `i` on. A flag
      takes the next argument as its value when there is one; a flag in last
      position and any other argument are passed over. `-p` with a value
      `Integer.parseInt` rejects keeps the port but still consumes the value. */
  function ParseFrom(args: seq<string>, i: nat, s: Settings): Settings
    decreases |args| - i
  {
    if i >= |args| then s
    else if args[i] == "-c" && i + 1 < |args| then ParseFrom(args, i + 2, s.(configPath := args[i + 1]))
    else if args[i] == "-p" && i + 1 < |args| then
      match ParseInt(args[i + 1])
      case Some(p) => ParseFrom(args, i + 2, s.(port := p))
      case None => ParseFrom(args, i + 2, s)
    else if args[i] == "-k" && i + 1 < |args| then ParseFrom(args, i + 2, s.(keyPath := args[i + 1]))
    else ParseFrom(args, i + 1, s)
  }

  function ParseArgs(args: seq<string>): Settings {
    ParseFrom(args, 0, Defaults)
  }

  /** The options object `parse` fills through its setters. */
  class CommandLineArgs {
    var configPath: string
    var keyPath: string
    var port: Int32

    constructor ()
      ensures configPath == Defaults.configPath && keyPath == Defaults.keyPath && port == Defaults.port
    {
      configPath := "config.json";
      keyPath := "key.txt";
      port := 30900;
    }

    function Current(): Settings
      reads this
    {
      Settings(configPath, keyPath, port)
    }
  }

  /** The argument loop of `parse(args)`. */
  method ParseArguments(args: seq<string>) returns (cmdArgs: CommandLineArgs)
    ensures fresh(cmdArgs)
    ensures cmdArgs.Current() == ParseArgs(args)
  {
    cmdArgs := new CommandLineArgs();
    var i := 0;
    while i < |args|
      invariant 0 <= i
      invariant ParseFrom(args, i, cmdArgs.Current()) == ParseArgs(args)
      decreases |args| - i
    {
      var arg := args[i];
      if arg == "-c" && i + 1 < |args| {
        i := i + 1;
        cmdArgs.configPath := args[i];
      } else if arg == "-p" && i + 1 < |args| {
        i := i + 1;
        var p := ParseInt(args[i]);
        if p.Some? {
          cmdArgs.port := p.value;
        }
      } else if arg == "-k" && i + 1 < |args| {
        i := i + 1;
        cmdArgs.keyPath := args[i];
      }
      i := i + 1;
    }
  }

  // Properties of the scan.

  /** Without any recognised flag the defaults stand: "config.json",
      "key.txt" and port 30900. */
  lemma {:induction false} NoFlagsKeepDefaults(args: seq<string>, i: nat, s: Settings)
    requires forall j :: 0 <= j < |args| ==> !IsFlag(args[j])
    ensures ParseFrom(args, i, s) == s
    decreases |args| - i
  {
    if i < |args| {
      NoFlagsKeepDefaults(args, i + 1, s);
    }
  }

  /** Arguments ending in anything but a flag are scanned to their end
      exactly, so whatever follows is scanned on its own. */
  lemma {:induction false} ParseAppend(a: seq<string>, b: seq<string>, i: nat, s: Settings)
    requires i <= |a|
    requires a == [] || !IsFlag(a[|a| - 1])
    ensures ParseFrom(a + b, i, s) == ParseFrom(b, 0, ParseFrom(a, i, s))
    decreases |a| - i
  {
    var ab := a + b;
    if i == |a| {
      ScanFromJoin(a, b, s);
    } else {
      assert ab[i] == a[i];
      if i + 1 < |a| {
        assert ab[i + 1] == a[i + 1];
      }
      if a[i] == "-c" && i + 1 < |a| {
        ParseAppend(a, b, i + 2, s.(configPath := a[i + 1]));
      } else if a[i] == "-p" && i + 1 < |a| {
        match ParseInt(a[i + 1])
        case Some(p) => ParseAppend(a, b, i + 2, s.(port := p));
        case None => ParseAppend(a, b, i + 2, s);
      } else if a[i] == "-k" && i + 1 < |a| {
        ParseAppend(a, b, i + 2, s.(keyPath := a[i + 1]));
      } else {
        ParseAppend(a, b, i + 1, s);
      }
    }
  }

  /** Scanning `a + b` from the end of `a` is scanning `b` from its start. */
  lemma {:induction false} ScanFromJoin(a: seq<string>, b: seq<string>, s: Settings)
    ensures ParseFrom(a + b, |a|, s) == ParseFrom(b, 0, s)
  {
    ShiftedScan(a, b, 0, s);
  }

  lemma {:induction false} ShiftedScan(a: seq<string>, b: seq<string>, j: nat, s: Settings)
    ensures ParseFrom(a + b, |a| + j, s) == ParseFrom(b, j, s)
    decreases |b| - j
  {
    var ab := a + b;
    if j < |b| {
      assert ab[|a| + j] == b[j];
      if j + 1 < |b| {
        assert ab[|a| + j + 1] == b[j + 1];
      }
      if b[j] == "-c" && j + 1 < |b| {
        ShiftedScan(a, b, j + 2, s.(configPath := b[j + 1]));
      } else if b[j] == "-p" && j + 1 < |b| {
        match ParseInt(b[j + 1])
        case Some(p) => ShiftedScan(a, b, j + 2, s.(port := p));
        case None => ShiftedScan(a, b, j + 2, s);
      } else if b[j] == "-k" && j + 1 < |b| {
        ShiftedScan(a, b, j + 2, s.(keyPath := b[j + 1]));
      } else {
        ShiftedScan(a, b, j + 1, s);
      }
    }
  }

  /** Arguments free of `-c` leave the configuration path alone. */
  lemma {:induction false} NoConfigFlag(args: seq<string>, i: nat, s: Settings)
    requires forall j :: 0 <= j < |args| ==> args[j] != "-c"
    ensures ParseFrom(args, i, s).configPath == s.configPath
    decreases |args| - i
  {
    if i < |args| {
      if i + 1 < |args| {
        NoConfigFlag(args, i + 2, s.(keyPath := args[i + 1]));
        NoConfigFlag(args, i + 2, s);
        if ParseInt(args[i + 1]).Some? {
          NoConfigFlag(args, i + 2, s.(port := ParseInt(args[i + 1]).value));
        }
      }
      NoConfigFlag(args, i + 1, s);
    }
  }

  /** The last `-c` wins: after `-c path`, arguments without another `-c`
      leave the configuration path at `path`. */
  lemma LastConfigFlagWins(a: seq<string>, path: string, b: seq<string>)
    requires a == [] || !IsFlag(a[|a| - 1])
    requires forall j :: 0 <= j < |b| ==> b[j] != "-c"
    ensures ParseArgs(a + ["-c", path] + b).configPath == path
  {
    ParseAppend(a, ["-c", path] + b, 0, Defaults);
    assert a + ["-c", path] + b == a + (["-c", path] + b);
    var s := ParseFrom(a, 0, Defaults);
    var rest := ["-c", path] + b;
    assert ParseFrom(rest, 0, s) == ParseFrom(rest, 2, s.(configPath := path));
    ScanFromJoin(["-c", path], b, s.(configPath := path));
    NoConfigFlag(b, 0, s.(configPath := path));
  }

  /** Arguments free of `-k` leave the key file path alone. */
  lemma {:induction false} NoKeyFlag(args: seq<string>, i: nat, s: Settings)
    requires forall j :: 0 <= j < |args| ==> args[j] != "-k"
    ensures ParseFrom(args, i, s).keyPath == s.keyPath
    decreases |args| - i
  {
    if i < |args| {
      if i + 1 < |args| {
        NoKeyFlag(args, i + 2, s.(configPath := args[i + 1]));
        NoKeyFlag(args, i + 2, s);
        if ParseInt(args[i + 1]).Some? {
          NoKeyFlag(args, i + 2, s.(port := ParseInt(args[i + 1]).value));
        }
      }
      NoKeyFlag(args, i + 1, s);
    }
  }

  /** The last `-k` wins: after `-k path`, arguments without another `-k`
      leave the key file path at `path`. */
  lemma LastKeyFlagWins(a: seq<string>, path: string, b: seq<string>)
    requires a == [] || !IsFlag(a[|a| - 1])
    requires forall j :: 0 <= j < |b| ==> b[j] != "-k"
    ensures ParseArgs(a + ["-k", path] + b).keyPath == path
  {
    ParseAppend(a, ["-k", path] + b, 0, Defaults);
    assert a + ["-k", path] + b == a + (["-k", path] + b);
    var s := ParseFrom(a, 0, Defaults);
    var rest := ["-k", path] + b;
    assert ParseFrom(rest, 0, s) == ParseFrom(rest, 2, s.(keyPath := path));
    ScanFromJoin(["-k", path], b, s.(keyPath := path));
    NoKeyFlag(b, 0, s.(keyPath := path));
  }

  /** Arguments free of `-p` leave the port alone. */
  lemma {:induction false} NoPortFlag(args: seq<string>, i: nat, s: Settings)
    requires forall j :: 0 <= j < |args| ==> args[j] != "-p"
    ensures ParseFrom(args, i, s).port == s.port
    decreases |args| - i
  {
    if i < |args| {
      if i + 1 < |args| {
        NoPortFlag(args, i + 2, s.(configPath := args[i + 1]));
        NoPortFlag(args, i + 2, s.(keyPath := args[i + 1]));
      }
      NoPortFlag(args, i + 1, s);
    }
  }

  /** The last `-p` with a valid int wins: after `-p n`, with `n` any int
      written in decimal, arguments without another `-p` leave the port at
      `n`. */
  lemma LastPortFlagWins(a: seq<string>, n: int, b: seq<string>)
    requires a == [] || !IsFlag(a[|a| - 1])
    requires MinInt32 <= n <= MaxInt32
    requires forall j :: 0 <= j < |b| ==> b[j] != "-p"
    ensures ParseArgs(a + ["-p", IntToDecimal(n)] + b).port == n
  {
    var text := IntToDecimal(n);
    ParseSignedOfIntDecimal(n, MinInt32, MaxInt32);
    ParseAppend(a, ["-p", text] + b, 0, Defaults);
    assert a + ["-p", text] + b == a + (["-p", text] + b);
    var s := ParseFrom(a, 0, Defaults);
    var rest := ["-p", text] + b;
    assert ParseFrom(rest, 0, s) == ParseFrom(rest, 2, s.(port := n));
    ScanFromJoin(["-p", text], b, s.(port := n));
    NoPortFlag(b, 0, s.(port := n));
  }

  /** A flag in last position has no value and is ignored. */
  lemma DanglingFlagIgnored(a: seq<string>, flag: string)
    requires a == [] || !IsFlag(a[|a| - 1])
    ensures ParseArgs(a + [flag]) == ParseArgs(a)
  {
    ParseAppend(a, [flag], 0, Defaults);
  }

  /** `-p` with a value that is not a decimal int keeps the port, and the
      value is consumed even when it is itself a flag. */
  lemma BadPortConsumed(a: seq<string>, value: string, b: seq<string>)
    requires a == [] || !IsFlag(a[|a| - 1])
    requires ParseInt(value).None?
    ensures ParseArgs(a + ["-p", value] + b) == ParseArgs(a + b)
  {
    ParseAppend(a, ["-p", value] + b, 0, Defaults);
    ParseAppend(a, b, 0, Defaults);
    assert a + ["-p", value] + b == a + (["-p", value] + b);
    var s := ParseFrom(a, 0, Defaults);
    ScanFromJoin(["-p", value], b, s);
  }

  /** The port is whatever int `-p` gives: no range check, so negative
      values, 0 and values above 65535 are taken as they are. */
  lemma PortNotRangeChecked(n: int)
    requires MinInt32 <= n <= MaxInt32
    ensures ParseArgs(["-p", IntToDecimal(n)]).port == n
  {
    LastPortFlagWins([], n, []);
    assert [] + ["-p", IntToDecimal(n)] + [] == ["-p", IntToDecimal(n)];
  }

  // The configuration directory.

  /** The position of the last '/' in `path`, if any. */
  function LastSlash(path: string): (r: Option<nat>)
    ensures r.Some? ==> r.value < |path| && path[r.value] == '/'
                        && forall j :: r.value < j < |path| ==> path[j] != '/'
    ensures r.None? <==> '/' !in path
  {
    if |path| == 0 then None
    else if path[|path| - 1] == '/' then Some(|path| - 1)
    else
      var r := LastSlash(path[..|path| - 1]);
      assert forall j :: 0 <= j < |path| - 1 ==> path[..|path| - 1][j] == path[j];
      assert '/' in path ==> '/' in path[..|path| - 1];
      r
  }

  /** `new File(path).getParentFile()` for a normalised Unix path: the text
      before the last '/', the root "/" for a file directly under it, and
      null for a name without any '/'. */
  function ParentPath(path: string): Option<string> {
    var prefixLength := if |path| > 0 && path[0] == '/' then 1 else 0;
    match LastSlash(path)
    case None => None
    case Some(index) =>
      if index < prefixLength then (if |path| > prefixLength then Some(path[..prefixLength]) else None)
      else Some(path[..index])
  }

  /** How `parse` ends: it returns the options, having asked for the
      configuration file's directory to be created, or it throws. */
  datatype Startup = NullReferenceThrown | Started(settings: Settings, createdDir: Option<string>)

  /** `parse(args)` as written: `getParentFile()` is null for a
      configuration path without a directory part, and calling `toPath()` on
      it throws an NPE (Java's null-reference exception), which the `catch (IOException)`
      does not catch. */
  function ParseAsWritten(args: seq<string>): (r: Startup)
    ensures r.Started? ==> r.settings == ParseArgs(args) && r.createdDir.Some?
  {
    var settings := ParseArgs(args);
    match ParentPath(settings.configPath)
    case None => NullReferenceThrown
    case Some(dir) => Started(settings, Some(dir))
  }

  /** As written, the default configuration path "config.json" (and any
      `-c` value without a '/') makes `parse` throw: the program cannot
      start without `-c` naming a directory. */
  lemma BareConfigNameThrows(args: seq<string>)
    requires '/' !in ParseArgs(args).configPath
    ensures ParseAsWritten(args) == NullReferenceThrown
  {
  }

  lemma DefaultArgumentsThrow()
    ensures ParseAsWritten([]) == NullReferenceThrown
  {
    assert ParseArgs([]) == Defaults;
    assert '/' !in "config.json";
    BareConfigNameThrows([]);
  }

  /** `parse(args)` with the directory created only when the configuration
      path has one. */
  function Parse(args: seq<string>): Startup {
    var settings := ParseArgs(args);
    Started(settings, ParentPath(settings.configPath))
  }

  /** The corrected parse never throws, returns the scanned options, and
      creates a directory exactly when the configuration path names one;
      where the as-written parse does not throw, the two agree. */
  lemma ParseNeverThrows(args: seq<string>)
    ensures Parse(args).Started? && Parse(args).settings == ParseArgs(args)
    ensures Parse(args).createdDir.None? <==> ParentPath(ParseArgs(args).configPath).None?
    ensures ParseAsWritten(args).Started? ==> ParseAsWritten(args) == Parse(args)
    ensures Parse(args).createdDir.Some? ==> ParseAsWritten(args) == Parse(args)
  {
  }

  /** A configuration path with a directory part has that directory created. */
  lemma ConfigDirectoryCreated(dir: string, name: string)
    requires |dir| > 0 && dir[0] != '/' && '/' !in name
    ensures Parse(["-c", dir + "/" + name]).createdDir == Some(dir)
  {
    var path := dir + "/" + name;
    var args := ["-c", path];
    assert ParseArgs(args) == ParseFrom(args, 2, Defaults.(configPath := path));
    assert path[|dir|] == '/';
    assert forall j :: |dir| < j < |path| ==> path[j] == name[j - |dir| - 1];
    assert LastSlash(path) == Some(|dir|);
    assert path[..|dir|] == dir;
  }
}
