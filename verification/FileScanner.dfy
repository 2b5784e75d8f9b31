/**
 The scanner that expands options files lazily, as the stateful object it is: an erasing or plain
 argument vector scanner, a queue of arguments loaded from files, and the "no more file options"
 flag. Every call is specified by what it does to the expansion still to be delivered.
 */
module FileScanner {
  import opened Common
  import opened OptionsFile
  import ArgvScanner

  class Scanner {
    const base: ArgvScanner.Scanner
    const fs: Files
    const options: set<string>
    var args: seq<Arg>
    var skip: bool

    constructor (base: ArgvScanner.Scanner, fs: Files, options: set<string>)
      requires base.Valid()
      ensures Valid() && this.base == base && this.fs == fs && this.options == options && fresh(this)
      ensures Pending() == Expand(fs, options, base.Rest(), false)
    {
      this.base, this.fs, this.options := base, fs, options;
      args, skip := [], false;
    }

    ghost predicate Valid()
      reads this, base
    {
      base.Valid()
    }

    /** What is still to be delivered. */
    ghost function Pending(): Expansion
      requires Valid()
      reads this, base, base.argv
    {
      Precede(args, Expand(fs, options, base.Rest(), skip))
    }

    /** Append what a file loads to. */
    method LoadFile(file: string, active: set<string>) returns (e: Option<Error>)
      modifies this
      ensures
        match Load(fs, options, active, file, old(skip))
        case Err(err) => e == Some(err)
        case Ok(loaded) => e == None && args == old(args) + loaded.args && skip == loaded.skip
      decreases fs.Keys - active, 0
    {
      if file !in fs {
        return Some(FileFailure(file));
      }
      if file in active {
        return Some(Endless(file));
      }
      e := LoadAll(file, Lines(fs[file]), active + {file});
    }

    method LoadAll(file: string, lines: seq<string>, active: set<string>) returns (e: Option<Error>)
      modifies this
      ensures
        match LoadLines(fs, options, active, file, lines, 1, old(skip))
        case Err(err) => e == Some(err)
        case Ok(loaded) => e == None && args == old(args) + loaded.args && skip == loaded.skip
      decreases fs.Keys - active, 2
    {
      hide LoadLine;
      ghost var goal := LoadLines(fs, options, active, file, lines, 1, skip);
      ghost var gained: seq<Arg> := [];
      PrependedNothing(goal);
      assert lines[0..] == lines;
      var k := 0;
      while k < |lines|
        invariant 0 <= k <= |lines| && args == old(args) + gained
        invariant goal == Prepended(gained, LoadLines(fs, options, active, file, lines[k..], k + 1, skip))
      {
        LineByLine(fs, options, active, file, lines, k, skip, gained);
        ghost var one := LoadLine(fs, options, active, file, lines[k], k + 1, skip);
        e := LoadOne(file, lines[k], k + 1, active);
        if e.Some? {
          return;
        }
        Associative(old(args), gained, one.value.args);
        gained := gained + one.value.args;
        k := k + 1;
      }
      e := None;
    }

    method LoadOne(file: string, line: string, n: nat, active: set<string>) returns (e: Option<Error>)
      modifies this
      ensures
        match LoadLine(fs, options, active, file, line, n, old(skip))
        case Err(err) => e == Some(err)
        case Ok(loaded) => e == None && args == old(args) + loaded.args && skip == loaded.skip
      decreases fs.Keys - active, 1
    {
      e := None;
      match ReadLine(line)
      case Ignored =>
      case Malformed(err) => e := Some(err);
      case Plain(v, separator) =>
        if !skip {
          skip := separator;
        }
        args := args + [Arg(v, file, n)];
      case Valued(o, v) =>
        if !skip && o in options {
          if v == "" {
            return Some(MissingValue(o));
          }
          e := LoadFile(v, active);
          return;
        }
        args := args + [Arg(o, file, n)];
        args := args + [Arg(v, file, n)];
    }

    /** The next argument has been loaded from a file or is next on the command line. */
    ghost predicate AtHand()
      requires Valid()
      reads this, base, base.argv
    {
      || args != []
      || (base.More() && FindFileOption(options, base.Rest(), skip).NotFileOption? && (base.Rest()[0] == "--" ==> skip))
    }

    /** Make sure the next argument, if any, is at hand. */
    method More() returns (r: Result<bool, Error>)
      requires Valid()
      modifies this, base, base.argv
      ensures r.Err? ==> old(Pending()) == Expansion([], Some(r.error))
      ensures r.Ok? ==> Valid() && Pending() == old(Pending())
      ensures r == Ok(true) ==> AtHand() && Pending().args != []
      ensures r == Ok(false) ==> Pending() == Expansion([], None)
    {
      if args != [] {
        return Ok(true);
      }
      PrecedeNothing(Expand(fs, options, base.Rest(), skip));
      while base.More()
        invariant Valid() && args == []
        invariant Expand(fs, options, base.Rest(), skip) == old(Pending())
        decreases |base.Rest()|
      {
        r := Fill();
        if r.Err? || r.value {
          return;
        }
        PrecedeNothing(Expand(fs, options, base.Rest(), skip));
      }
      PrecedeNothing(Expansion([], None));
      r := Ok(false);
    }

    /** Look at the front of the command line; load the file it names, if it names one. */
    method Fill() returns (r: Result<bool, Error>)
      requires Valid() && args == [] && base.More()
      modifies this, base, base.argv
      ensures r.Err? ==> old(Expand(fs, options, base.Rest(), skip)) == Expansion([], Some(r.error))
      ensures r.Ok? ==> Valid() && Pending() == old(Expand(fs, options, base.Rest(), skip))
      ensures r == Ok(true) ==> AtHand() && Pending().args != []
      ensures r == Ok(false) ==> args == [] && |base.Rest()| < old(|base.Rest()|)
    {
      hide Expand, Load;
      ghost var x := Expand(fs, options, base.Rest(), skip);
      ExpandByFront(fs, options, base.Rest(), skip);
      var a := base.Peek().value;
      var file, ok := TakeFileOption();
      if !ok {
        return Err(MissingValue(a));
      }
      if file.None? {
        if !skip {
          skip := a == "--";
        }
        PrecedeNothing(x);
        return Ok(true);
      }
      var e := LoadFile(file.value, {});
      if e.Some? {
        return Err(e.value);
      }
      r := Ok(args != []);
    }

    /** Consume a file option at the front, if there is one. */
    method TakeFileOption() returns (file: Option<string>, ok: bool)
      requires Valid() && base.More()
      modifies base, base.argv
      ensures
        match FindFileOption(options, old(base.Rest()), skip)
        case Dangling(o) => !ok
        case NotFileOption => ok && file == None && Valid() && base.Rest() == old(base.Rest())
        case Names(f, width) => ok && file == Some(f) && Valid() && base.Rest() == old(base.Rest())[width..]
    {
      var a := base.Peek().value;
      if !skip {
        if a in options {
          var _ := base.Next();
          if !base.More() {
            return None, false;
          }
          file := base.Next();
          return file, true;
        } else if a != "" && a[0] == '-' {
          var cut := IndexOf(a, '=');
          if cut < |a| && a[..cut] in options {
            var _ := base.Next();
            return Some(a[cut + 1..]), true;
          }
        }
      }
      return None, true;
    }

    /** Show the next argument with its file and line, without consuming it. */
    method Peek() returns (r: Result<Arg, Error>)
      requires Valid()
      modifies this, base, base.argv
      ensures r.Ok? ==> Valid() && Pending() == old(Pending())
      ensures r == Front(old(Pending()))
    {
      var more := More();
      if more.Err? {
        return Err(more.error);
      }
      if !more.value {
        return Err(EndOfStream);
      }
      r := Ok(if args == [] then Arg(base.Peek().value, "", 0) else args[0]);
    }

    /** Deliver the next argument. */
    method Next() returns (r: Result<Arg, Error>)
      requires Valid()
      modifies this, base, base.argv
      ensures r == Front(old(Pending()))
      ensures old(Pending()).args != [] ==> r == Ok(old(Pending()).args[0])
      ensures old(Pending()).args == [] && old(Pending()).error.Some? ==> r == Err(old(Pending()).error.value)
      ensures r.Ok? ==> Valid() && Pending() == old(Pending()).(args := old(Pending()).args[1..])
    {
      var more := More();
      if more.Err? {
        return Err(more.error);
      }
      if !more.value {
        return Err(EndOfStream);
      }
      if args == [] {
        ghost var x := Expand(fs, options, base.Rest()[1..], skip);
        PrecedeNothing(x);
        assert ([Arg(base.Rest()[0], "", 0)] + x.args)[1..] == x.args;
        var a := base.Next();
        r := Ok(Arg(a.value, "", 0));
      } else {
        ghost var x := Expand(fs, options, base.Rest(), skip);
        assert (args + x.args)[1..] == args[1..] + x.args;
        r := Ok(args[0]);
        args := args[1..];
      }
    }

    /** Pass over the next argument. */
    method Skip() returns (r: Result<(), Error>)
      requires Valid()
      modifies this, base, base.argv
      ensures r == if Front(old(Pending())).Ok? then Ok(()) else Err(Front(old(Pending())).error)
      ensures r.Ok? ==> Valid() && Pending() == old(Pending()).(args := old(Pending()).args[1..])
    {
      var more := More();
      if more.Err? {
        return Err(more.error);
      }
      if !more.value {
        return Err(EndOfStream);
      }
      if args == [] {
        ghost var x := Expand(fs, options, base.Rest()[1..], skip);
        PrecedeNothing(x);
        assert ([Arg(base.Rest()[0], "", 0)] + x.args)[1..] == x.args;
        var _ := base.Skip();
      } else {
        ghost var x := Expand(fs, options, base.Rest(), skip);
        assert (args + x.args)[1..] == args[1..] + x.args;
        args := args[1..];
      }
      r := Ok(());
    }
  }

  function Prepended(args: seq<Arg>, r: Result<Loaded, Error>): Result<Loaded, Error> {
    if r.Err? then r else Ok(Loaded(args + r.value.args, r.value.skip))
  }

  lemma PrependedTwice(a: seq<Arg>, b: seq<Arg>, r: Result<Loaded, Error>)
    ensures Prepended(a, Prepended(b, r)) == Prepended(a + b, r)
  {
    if r.Ok? {
      Associative(a, b, r.value.args);
    }
  }

  /** Loading the lines from the k-th on is loading that one and then the others. */
  lemma LineByLine(fs: Files, options: set<string>, active: set<string>, file: string, lines: seq<string>, k: nat,
                   skip: bool, gained: seq<Arg>)
    requires k < |lines|
    ensures
      Prepended(gained, LoadLines(fs, options, active, file, lines[k..], k + 1, skip)) ==
        match LoadLine(fs, options, active, file, lines[k], k + 1, skip)
        case Err(e) => Err(e)
        case Ok(one) =>
          Prepended(gained + one.args, LoadLines(fs, options, active, file, lines[k + 1..], k + 2, one.skip))
  {
    assert lines[k..][0] == lines[k] && lines[k..][1..] == lines[k + 1..];
    var one := LoadLine(fs, options, active, file, lines[k], k + 1, skip);
    if one.Ok? {
      PrependedTwice(gained, one.value.args,
                     LoadLines(fs, options, active, file, lines[k + 1..], k + 2, one.value.skip));
    }
  }

  /** What expanding comes to, by what stands in front. */
  lemma ExpandByFront(fs: Files, options: set<string>, argv: seq<string>, skip: bool)
    requires argv != []
    ensures
      var x := Expand(fs, options, argv, skip);
      match FindFileOption(options, argv, skip)
      case Dangling(o) => o == argv[0] && x == Expansion([], Some(MissingValue(o)))
      case NotFileOption =>
        && x.args != [] && FindFileOption(options, argv, skip || argv[0] == "--").NotFileOption?
        && Expand(fs, options, argv, skip || argv[0] == "--") == x
      case Names(file, width) =>
        match Load(fs, options, {}, file, skip)
        case Err(e) => x == Expansion([], Some(e))
        case Ok(loaded) => x == Precede(loaded.args, Expand(fs, options, argv[width..], loaded.skip))
  {
  }

  lemma PrependedNothing(r: Result<Loaded, Error>)
    ensures Prepended([], r) == r
  {
    if r.Ok? {
      assert [] + r.value.args == r.value.args;
    }
  }

  lemma PrecedeNothing(x: Expansion)
    ensures Precede([], x) == x
  {
    assert [] + x.args == x.args;
  }

  /** What a call that wants an argument gets. */
  function Front(x: Expansion): Result<Arg, Error> {
    if x.args != [] then Ok(x.args[0])
    else if x.error.Some? then Err(x.error.value)
    else Err(EndOfStream)
  }

  datatype Call = More | Peek | Next | Skip

  /** The arguments the calls named Next return when nothing goes wrong. */
  function Returns(x: Expansion, calls: seq<Call>): seq<Arg>
    decreases |calls|
  {
    if calls == [] then [] else One(x, calls[0]) + Returns(Left(x, calls[0]), calls[1..])
  }

  /** What one call returns. */
  function One(x: Expansion, call: Call): seq<Arg> {
    if call.Next? && x.args != [] then [x.args[0]] else []
  }

  /** What is left to be delivered after it. */
  function Left(x: Expansion, call: Call): Expansion {
    if (call.Next? || call.Skip?) && x.args != [] then x.(args := x.args[1..]) else x
  }

  /** The arguments passed over by the calls named Skip. */
  function PassedOver(x: Expansion, calls: seq<Call>): seq<Arg>
    decreases |calls|
  {
    if calls == [] then [] else Skipped(x, calls[0]) + PassedOver(Left(x, calls[0]), calls[1..])
  }

  /** What is left after all the calls. */
  function LeftAfter(x: Expansion, calls: seq<Call>): Expansion
    decreases |calls|
  {
    if calls == [] then x else LeftAfter(Left(x, calls[0]), calls[1..])
  }

  /** Without skipping, what is returned is the beginning of the expansion. */
  lemma {:induction false} ReturnsPrefix(x: Expansion, calls: seq<Call>)
    requires Call.Skip !in calls
    ensures Returns(x, calls) <= x.args
    decreases |calls|
  {
    if calls != [] {
      assert calls[0] in calls;
      ReturnsPrefix(Left(x, calls[0]), calls[1..]);
    }
  }

  /** What one call passes over. */
  function Skipped(x: Expansion, call: Call): seq<Arg> {
    if call.Skip? && x.args != [] then [x.args[0]] else []
  }

  lemma OneCall(x: Expansion, call: Call)
    ensures multiset(x.args) == multiset(One(x, call)) + multiset(Skipped(x, call)) + multiset(Left(x, call).args)
  {
    if x.args != [] {
      assert x.args == [x.args[0]] + x.args[1..];
    }
  }

  /** Every argument of the expansion is returned, passed over or left, none twice. */
  lemma {:induction false} NothingIsLost(x: Expansion, calls: seq<Call>)
    ensures multiset(x.args) ==
              multiset(Returns(x, calls)) + multiset(PassedOver(x, calls)) + multiset(LeftAfter(x, calls).args)
    decreases |calls|
  {
    if calls != [] {
      hide One, Skipped, Left;
      OneCall(x, calls[0]);
      NothingIsLost(Left(x, calls[0]), calls[1..]);
    }
  }

  /** One call of a run; it fails only when no argument is left. */
  method Perform(s: Scanner, call: Call) returns (out: seq<Arg>, ok: bool)
    requires s.Valid()
    modifies s, s.base, s.base.argv
    ensures !ok ==> old(s.Pending()).args == []
    ensures ok ==> s.Valid() && out == One(old(s.Pending()), call) && s.Pending() == Left(old(s.Pending()), call)
  {
    out := [];
    match call
    case More =>
      var r := s.More();
      ok := r.Ok?;
    case Peek =>
      var r := s.Peek();
      ok := r.Ok?;
    case Next =>
      var r := s.Next();
      ok := r.Ok?;
      if ok {
        out := [r.value];
      }
    case Skip =>
      var r := s.Skip();
      ok := r.Ok?;
  }

  lemma CallByCall(returned: seq<Arg>, x: Expansion, calls: seq<Call>, k: nat)
    requires k < |calls|
    ensures returned + Returns(x, calls[k..]) ==
              returned + One(x, calls[k]) + Returns(Left(x, calls[k]), calls[k + 1..])
  {
    assert calls[k..][0] == calls[k] && calls[k..][1..] == calls[k + 1..];
    Associative(returned, One(x, calls[k]), Returns(Left(x, calls[k]), calls[k + 1..]));
  }

  /** Any interleaving of calls returns, in order, the arguments the whole vector expands to but for those skipped. */
  method Replay(s: Scanner, calls: seq<Call>) returns (returned: seq<Arg>)
    requires s.Valid()
    modifies s, s.base, s.base.argv
    ensures returned == Returns(old(s.Pending()), calls)
    ensures Call.Skip !in calls ==> returned <= old(s.Pending()).args
  {
    hide Returns, Expand, Left, One;
    ghost var x := s.Pending();
    if Call.Skip !in calls {
      ReturnsPrefix(x, calls);
    }
    returned := [];
    assert calls[0..] == calls;
    var k := 0;
    while k < |calls|
      invariant s.Valid() && k <= |calls|
      invariant returned + Returns(s.Pending(), calls[k..]) == Returns(x, calls)
    {
      ghost var s0 := s.Pending();
      CallByCall(returned, s0, calls, k);
      var out, ok := Perform(s, calls[k]);
      if !ok {
        NothingReturned(s0, calls[k..]);
        return;
      }
      returned := returned + out;
      k := k + 1;
    }
    NoCallsLeft(s.Pending(), calls[k..]);
  }

  lemma {:induction false} NothingReturned(x: Expansion, calls: seq<Call>)
    requires x.args == []
    ensures Returns(x, calls) == []
    decreases |calls|
  {
    if calls != [] {
      NothingReturned(x, calls[1..]);
    }
  }

  lemma NoCallsLeft(x: Expansion, calls: seq<Call>)
    requires calls == []
    ensures Returns(x, calls) == []
  {
  }
}
