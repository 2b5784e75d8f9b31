/**
 The scanners put together: the argument vector, the options files it names, the groups, the loop that
 takes the line apart, and the second scan through which the command reads its arguments.
 */
module CommandInvocation {
  import opened Common
  import OptionsFile
  import ArgvScanner
  import FileScanner
  import Groups
  import GroupScanner
  import opened OptionParser
  import opened CommandLine
  import opened CommandChunks

  function Values(args: seq<OptionsFile.Arg>): seq<string> {
    if args == [] then [] else [args[0].value] + Values(args[1..])
  }

  /** Read a scanner to its end. */
  method Drain(s: FileScanner.Scanner) returns (ts: seq<string>, e: Option<OptionsFile.Error>)
    requires s.Valid()
    modifies s, s.base, s.base.argv
    ensures ts == Values(old(s.Pending()).args) && e == old(s.Pending()).error
  {
    ghost var all := s.Pending();
    ts, e := [], None;
    while true
      invariant s.Valid() && s.Pending().error == all.error
      invariant ts + Values(s.Pending().args) == Values(all.args)
      decreases |s.Pending().args|
    {
      ghost var args := s.Pending().args;
      var more := s.More();
      if more.Err? {
        return ts, Some(more.error);
      }
      if !more.value {
        return ts, None;
      }
      Associative(ts, [args[0].value], Values(args[1..]));
      var a := s.Next();
      ts := ts + [a.value.value];
    }
  }

  /** Read the group of the argument just scanned. */
  method TakeGroup(s: GroupScanner.Scanner) returns (group: seq<string>)
    requires s.Valid() && s.state.Scanned? && s.handled == 0
    modifies s`handled
    ensures s.Valid() && s.Handled() && s.Pending() == old(s.Pending()) && group == s.group
  {
    group := [];
    while s.handled < |s.group|
      invariant s.Valid() && s.Pending() == old(s.Pending()) && group == s.group[..s.handled]
      decreases |s.group| - s.handled
    {
      var v := s.NextInGroup();
      group := group + [v];
    }
  }

  /** Read all arguments with their groups. */
  method ScanItems(s: GroupScanner.Scanner) returns (items: seq<Item>, e: Option<Groups.Error>)
    requires s.Valid() && s.Handled()
    modifies s, s.scan
    ensures items == old(s.Pending()).items && e == old(s.Pending()).error
  {
    hide Groups.Parse, Groups.ParseArgument;
    ghost var all := s.Pending();
    items, e := [], None;
    while true
      invariant s.Valid() && s.Handled() && s.Pending().error == all.error
      invariant items + s.Pending().items == all.items
      decreases |s.Pending().items|
    {
      ghost var left := s.Pending().items;
      var more := s.More();
      if !more.value {
        return items, None;
      }
      var a := s.Next();
      if a.Err? {
        return items, Some(a.error);
      }
      var group := TakeGroup(s);
      assert left[0] == Groups.Item(a.value, group);
      Groups.HeadAndTail(left);
      Associative(items, [left[0]], left[1..]);
      items := items + [Groups.Item(a.value, group)];
    }
  }

  datatype Invocation<+O> =
    | Ready(opts: O, args: Groups.Parsed)
    | Unexpanded(fileError: OptionsFile.Error)
    | Untaken(problem: Problem)

  /** What an argument vector comes to, stage after stage. */
  function Invoke<O>(fs: OptionsFile.Files, options: set<string>, g: Grammar<O>, keep: bool, o: O, argv: seq<string>)
    : Invocation<O>
  {
    var x := OptionsFile.Expand(fs, options, argv, false);
    var p := Groups.Parse(Values(x.args));
    if x.error.Some? then Unexpanded(x.error.value)
    else if p.error.Some? then Untaken(Unscanned(p.error.value))
    else
      match Init(g, keep, Taken(o, []), p.items)
      case Err(e) => Untaken(e)
      case Ok(y) => Ready(y.opts, Groups.Parse(y.args))
  }

  /**
   The scanners on top of each other: options and arguments reach the command exactly as expansion,
   grouping, taking apart and grouping again say, and if one of these fails the command is not run.
   */
  method RunScanners<O>(argv: array<string>, start: nat, fs: OptionsFile.Files, options: set<string>,
                        g: Grammar<O>, keep: bool, o: O) returns (r: Invocation<O>)
    requires start <= argv.Length
    modifies argv
    ensures
      var goal := Invoke(fs, options, g, keep, o, old(argv[start..]));
      (r.Ready? <==> goal.Ready?) && (goal.Ready? || goal.Unexpanded? ==> r == goal)
  {
    var vector := new ArgvScanner.Scanner(start, argv, false);
    assert vector.Rest() == argv[start..];
    var files := new FileScanner.Scanner(vector, fs, options);
    var ts, fileError := Drain(files);
    if fileError.Some? {
      return Unexpanded(fileError.value);
    }
    var tokens := new GroupScanner.VectorScanner(ts);
    var scan := new GroupScanner.Scanner(tokens);
    var taken := InitLoop(g, keep, o, scan);
    if taken.Err? {
      return Untaken(taken.error);
    }
    var copied := new GroupScanner.VectorScanner(taken.value.args);
    var args := new GroupScanner.Scanner(copied);
    var items, groupError := ScanItems(args);
    r := Ready(taken.value.opts, Groups.Parsed(items, groupError));
  }

  /**
   A vector that expands and groups to clear chunks and a tail runs its command if and only if these are
   acceptable, with the settings of the options and names, and with exactly the grouped arguments.
   */
  lemma LineReachesCommand<O(!new)>(fs: OptionsFile.Files, options: set<string>, g: Grammar<O>, keep: bool, o: O,
                                    argv: seq<string>, cs: seq<Chunk>, tail: seq<Item>)
    requires Sensible(g) && AllClear(g, cs) && IsTail(tail)
    requires OptionsFile.Expand(fs, options, argv, false).error.None?
    requires Groups.Parse(Values(OptionsFile.Expand(fs, options, argv, false).args)) ==
               Groups.Parsed(RenderAll(cs) + tail, None)
    ensures
      var r := Invoke(fs, options, g, keep, o, argv);
      && (r.Ready? <==> Acceptable(keep, cs, tail))
      && (r.Ready? ==> r == Ready(Settings(g, o, cs), Groups.Parsed(ItemsOf(cs) + TailItems(keep, tail), None)))
  {
    hide OptionsFile.Expand, Groups.Parse, Init;
    ArgumentsReachCommand(g, keep, o, Values(OptionsFile.Expand(fs, options, argv, false).args), cs, tail);
  }
}
