/** The settings application's start-up and exit rules (App.xaml.cs): the
    command-line parser, the choice between the settings view and a silent
    game launch, the choice of the game process to wait for, and the guard
    that keeps the API layer enabled while another instance runs. */
module Startup {
  import opened Common
  import opened Text

  datatype Options = Options(gamePath: Option<string>, gameArgs: Option<string>, waitForExit: bool)

  const NoOptions := Options(None, None, false)

  const GamePathFlag := "-gamepath"
  const GameArgsFlag := "-gameargs"
  const WaitForExitFlag := "-waitforexit"

  /** Consumes the argument queue from the front, on top of the options read
      so far. An error is one of the two missing-value messages or names a
      token of the queue; every option the queue changes comes from a flag in
      it, a value from the token right after its flag. */
  function ParseFrom(args: seq<string>, acc: Options): (r: Result<Options, string>)
    ensures r.Err? ==>
              || r.error == "No value specified for -gamepath"
              || r.error == "No value specified for -gameargs"
              || exists i :: 0 <= i < |args| && r.error == "Unknown argument: " + args[i]
    ensures r.Ok? && r.value.gamePath != acc.gamePath ==>
              exists i :: 0 <= i < |args| - 1 && Lower(args[i]) == GamePathFlag && r.value.gamePath == Some(args[i + 1])
    ensures r.Ok? && r.value.gameArgs != acc.gameArgs ==>
              exists i :: 0 <= i < |args| - 1 && Lower(args[i]) == GameArgsFlag && r.value.gameArgs == Some(args[i + 1])
    ensures r.Ok? && r.value.waitForExit != acc.waitForExit ==>
              r.value.waitForExit && exists i :: 0 <= i < |args| && Lower(args[i]) == WaitForExitFlag
    decreases |args|
  {
    if |args| == 0 then Ok(acc)
    else
      var flag := Lower(args[0]);
      if flag == GamePathFlag then
        if |args| < 2 then Err("No value specified for -gamepath")
        else ParseFrom(args[2..], acc.(gamePath := Some(args[1])))
      else if flag == GameArgsFlag then
        if |args| < 2 then Err("No value specified for -gameargs")
        else ParseFrom(args[2..], acc.(gameArgs := Some(args[1])))
      else if flag == WaitForExitFlag then
        ParseFrom(args[1..], acc.(waitForExit := true))
      else Err("Unknown argument: " + args[0])
  }

  /** The argument loop of OnStartup: no arguments give no options, and a
      game path read from the arguments follows a -gamepath flag in them. */
  function ParseArguments(args: seq<string>): (r: Result<Options, string>)
    ensures |args| == 0 ==> r == Ok(NoOptions)
    ensures r.Ok? && r.value.gamePath.Some? ==>
              exists i :: 0 <= i < |args| - 1 && Lower(args[i]) == GamePathFlag && r.value.gamePath == Some(args[i + 1])
  {
    ParseFrom(args, NoOptions)
  }

  /** What start-up does once the arguments are read. */
  datatype Launch = ShowSettingsView | StartSilently(gamePath: string, gameArgs: string, waitForExit: bool)

  function Decide(o: Options): (r: Launch)
    ensures r.ShowSettingsView? <==> o.gamePath.None? || o.gamePath.value == ""
    ensures r.StartSilently? ==>
              && Some(r.gamePath) == o.gamePath
              && r.gameArgs == (if o.gameArgs.Some? then o.gameArgs.value else "")
              && r.waitForExit == o.waitForExit
  {
    if o.gamePath.None? || o.gamePath.value == "" then ShowSettingsView
    else StartSilently(o.gamePath.value, if o.gameArgs.Some? then o.gameArgs.value else "", o.waitForExit)
  }

  /** OnStartup: an argument error surfaces as an exception with its message;
      a silent launch only happens for a non-empty game path that follows a
      -gamepath flag in the arguments. */
  function OnStartup(args: seq<string>): (r: Result<Launch, string>)
    ensures r.Err? <==> ParseArguments(args).Err?
    ensures r.Err? ==> r.error == ParseArguments(args).error
    ensures |args| == 0 ==> r == Ok(ShowSettingsView)
    ensures r.Ok? && r.value.StartSilently? ==>
              && r.value.gamePath != ""
              && exists i :: 0 <= i < |args| - 1 && Lower(args[i]) == GamePathFlag && args[i + 1] == r.value.gamePath
  {
    match ParseArguments(args)
    case Ok(o) => Ok(Decide(o))
    case Err(e) => Err(e)
  }

  /** An argument list that sets each option the way `o` says. */
  function Format(o: Options): seq<string> {
    (if o.gamePath.Some? then [GamePathFlag, o.gamePath.value] else [])
    + (if o.gameArgs.Some? then [GameArgsFlag, o.gameArgs.value] else [])
    + (if o.waitForExit then [WaitForExitFlag] else [])
  }

  /** Parsing is compositional: once a prefix parses, the rest is parsed on
      top of the options it produced. */
  lemma {:induction false} ParseFromAppend(a: seq<string>, b: seq<string>, acc: Options)
    requires ParseFrom(a, acc).Ok?
    ensures ParseFrom(a + b, acc) == ParseFrom(b, ParseFrom(a, acc).value)
    decreases |a|
  {
    if |a| == 0 {
      assert a + b == b;
    } else {
      var flag := Lower(a[0]);
      assert (a + b)[0] == a[0];
      if flag == GamePathFlag || flag == GameArgsFlag {
        assert (a + b)[1] == a[1];
        assert (a + b)[2..] == a[2..] + b;
        var acc' := if flag == GamePathFlag then acc.(gamePath := Some(a[1])) else acc.(gameArgs := Some(a[1]));
        ParseFromAppend(a[2..], b, acc');
      } else {
        assert (a + b)[1..] == a[1..] + b;
        ParseFromAppend(a[1..], b, acc.(waitForExit := true));
      }
    }
  }

  /** The three flags are written in lower case, so each matches itself. */
  lemma FlagsAreLowerCase()
    ensures Lower(GamePathFlag) == GamePathFlag
    ensures Lower(GameArgsFlag) == GameArgsFlag
    ensures Lower(WaitForExitFlag) == WaitForExitFlag
  {
    assert forall i :: 0 <= i < |GamePathFlag| ==> LowerChar(GamePathFlag[i]) == GamePathFlag[i];
    assert forall i :: 0 <= i < |GameArgsFlag| ==> LowerChar(GameArgsFlag[i]) == GameArgsFlag[i];
    assert forall i :: 0 <= i < |WaitForExitFlag| ==> LowerChar(WaitForExitFlag[i]) == WaitForExitFlag[i];
  }

  /** Reading back formatted options yields those options. */
  lemma FormatRoundTrip(o: Options)
    ensures ParseArguments(Format(o)) == Ok(o)
  {
    FlagsAreLowerCase();
    var p := if o.gamePath.Some? then [GamePathFlag, o.gamePath.value] else [];
    var g := if o.gameArgs.Some? then [GameArgsFlag, o.gameArgs.value] else [];
    var w := if o.waitForExit then [WaitForExitFlag] else [];
    var o1 := NoOptions.(gamePath := o.gamePath);
    var o2 := o1.(gameArgs := o.gameArgs);
    assert ParseFrom(p, NoOptions) == Ok(o1);
    assert ParseFrom(g, o1) == Ok(o2);
    assert ParseFrom(w, o2) == Ok(o);
    ParseFromAppend(p, g, NoOptions);
    ParseFromAppend(p + g, w, NoOptions);
  }

  /** A later -gamepath overrides an earlier one, and its value is taken
      verbatim even when it looks like a flag. */
  lemma LaterGamePathWins(args: seq<string>, flag: string, value: string)
    requires ParseArguments(args).Ok?
    requires Lower(flag) == GamePathFlag
    ensures ParseArguments(args + [flag, value]) == Ok(ParseArguments(args).value.(gamePath := Some(value)))
  {
    ParseFromAppend(args, [flag, value], NoOptions);
  }

  /** The same for -gameargs. */
  lemma LaterGameArgsWins(args: seq<string>, flag: string, value: string)
    requires ParseArguments(args).Ok?
    requires Lower(flag) == GameArgsFlag
    ensures ParseArguments(args + [flag, value]) == Ok(ParseArguments(args).value.(gameArgs := Some(value)))
  {
    ParseFromAppend(args, [flag, value], NoOptions);
  }

  /** -waitforexit only sets its flag, and repeating it changes nothing. */
  lemma WaitForExitIdempotent(args: seq<string>, flag: string)
    requires ParseArguments(args).Ok?
    requires Lower(flag) == WaitForExitFlag
    ensures ParseArguments(args + [flag]) == Ok(ParseArguments(args).value.(waitForExit := true))
    ensures ParseArguments(args + [flag] + [flag]) == ParseArguments(args + [flag])
  {
    ParseFromAppend(args, [flag], NoOptions);
    ParseFromAppend(args + [flag], [flag], NoOptions);
  }

  /** A trailing -gamepath or -gameargs without a value is an error. */
  lemma MissingValueIsError(args: seq<string>, flag: string)
    requires ParseArguments(args).Ok?
    requires Lower(flag) == GamePathFlag || Lower(flag) == GameArgsFlag
    ensures ParseArguments(args + [flag]).Err?
  {
    ParseFromAppend(args, [flag], NoOptions);
  }

  /** Any token that is none of the three flags, in any letter case, is an
      "Unknown argument" error naming the token as given. */
  lemma UnknownArgumentIsError(args: seq<string>, token: string, rest: seq<string>)
    requires ParseArguments(args).Ok?
    requires Lower(token) !in {GamePathFlag, GameArgsFlag, WaitForExitFlag}
    ensures ParseArguments(args + [token] + rest) == Err("Unknown argument: " + token)
  {
    assert args + [token] + rest == args + ([token] + rest);
    ParseFromAppend(args, [token] + rest, NoOptions);
  }

  /** Start-up on formatted options does what the launch decision says for
      those options. */
  lemma OnStartupFormat(o: Options)
    ensures OnStartup(Format(o)) == Ok(Decide(o))
  {
    FormatRoundTrip(o);
  }

  /** The four tokens a desktop shortcut intends to pass launch the game
      silently with those values, without waiting for it to exit. */
  lemma ShortcutArgumentsStartSilently(gamePath: string, gameArgs: string)
    requires gamePath != ""
    ensures OnStartup([GamePathFlag, gamePath, GameArgsFlag, gameArgs]) == Ok(StartSilently(gamePath, gameArgs, false))
  {
    var o := Options(Some(gamePath), Some(gameArgs), false);
    OnStartupFormat(o);
    assert Format(o) == [GamePathFlag, gamePath, GameArgsFlag, gameArgs];
  }

  /** FindProcess: the first process whose main module path equals the
      preferred path ignoring case, else the first process; none for an
      empty list. Paths that cannot be read are None. */
  method FindProcess(paths: seq<Option<string>>, preferredPath: string) returns (r: Option<nat>)
    ensures r.None? <==> |paths| == 0
    ensures r.Some? ==> r.value < |paths|
    ensures r.Some? && (exists i :: 0 <= i < |paths| && Matches(paths[i], preferredPath)) ==>
              Matches(paths[r.value], preferredPath)
              && forall j :: 0 <= j < r.value ==> !Matches(paths[j], preferredPath)
    ensures r.Some? && (forall i :: 0 <= i < |paths| ==> !Matches(paths[i], preferredPath)) ==> r.value == 0
  {
    if |paths| == 0 {
      return None;
    }
    var i := 0;
    while i < |paths|
      invariant 0 <= i <= |paths|
      invariant forall j :: 0 <= j < i ==> !Matches(paths[j], preferredPath)
    {
      if Matches(paths[i], preferredPath) {
        return Some(i);
      }
      i := i + 1;
    }
    return Some(0);
  }

  /** A process matches when its path is readable and equals the preferred
      path ignoring case. */
  function Matches(path: Option<string>, preferredPath: string): (r: bool)
    ensures path == Some(preferredPath) ==> r
    ensures r ==> path.Some? && |path.value| == |preferredPath|
  {
    path.Some? && EqualsIgnoreCase(path.value, preferredPath)
  }

  /** GetAppInstanceCount: how many listed processes run the same executable
      as this one, ignoring case; two unreadable paths compare equal. */
  function InstanceCount(paths: seq<Option<string>>, current: Option<string>): (n: nat)
    ensures n <= |paths|
  {
    if |paths| == 0 then 0
    else (if NullableEqualsIgnoreCase(paths[0], current) then 1 else 0) + InstanceCount(paths[1..], current)
  }

  /** OnExit disables the API layer only if at most one instance is counted,
      that is, exactly when no two distinct listed processes run this
      program's executable. */
  function ShouldDisableApiLayer(paths: seq<Option<string>>, current: Option<string>): (r: bool)
    ensures r <==>
              !exists i, j :: 0 <= i < j < |paths| && NullableEqualsIgnoreCase(paths[i], current)
                                                   && NullableEqualsIgnoreCase(paths[j], current)
  {
    AtMostOneIffNoPair(paths, current);
    InstanceCount(paths, current) <= 1
  }

  /** At most one instance is counted exactly when no two distinct listed
      processes match. */
  lemma {:induction false} AtMostOneIffNoPair(paths: seq<Option<string>>, current: Option<string>)
    ensures InstanceCount(paths, current) <= 1 <==>
              !exists i, j :: 0 <= i < j < |paths| && NullableEqualsIgnoreCase(paths[i], current)
                                                   && NullableEqualsIgnoreCase(paths[j], current)
    decreases |paths|
  {
    if |paths| > 0 {
      var tail := paths[1..];
      AtMostOneIffNoPair(tail, current);
      CountZeroIffNone(tail, current);
      if NullableEqualsIgnoreCase(paths[0], current) {
        if InstanceCount(tail, current) > 0 {
          var j :| 0 <= j < |tail| && NullableEqualsIgnoreCase(tail[j], current);
          assert NullableEqualsIgnoreCase(paths[j + 1], current);
        }
      } else {
        if exists i, j :: 0 <= i < j < |paths| && NullableEqualsIgnoreCase(paths[i], current)
                                              && NullableEqualsIgnoreCase(paths[j], current) {
          var i, j :| 0 <= i < j < |paths| && NullableEqualsIgnoreCase(paths[i], current)
                                            && NullableEqualsIgnoreCase(paths[j], current);
          assert i > 0;
          assert NullableEqualsIgnoreCase(tail[i - 1], current) && NullableEqualsIgnoreCase(tail[j - 1], current);
        }
      }
    }
  }

  lemma {:induction false} CountZeroIffNone(paths: seq<Option<string>>, current: Option<string>)
    ensures InstanceCount(paths, current) == 0 <==>
              forall i :: 0 <= i < |paths| ==> !NullableEqualsIgnoreCase(paths[i], current)
    decreases |paths|
  {
    if |paths| > 0 {
      CountZeroIffNone(paths[1..], current);
      assert forall i :: 1 <= i < |paths| ==> paths[i] == paths[1..][i - 1];
    }
  }
}
