/**
 When and where loading options files goes wrong: the chain of file options that is followed to the
 line at fault, and why being in the middle of a file already means never to return.
 */
module LoadFailures {
  import opened Common
  import opened OptionsFile

  // ---- The empty value ----------------------------------------------------------------------------

  lemma {:induction false} TrimmedEnd(s: string)
    ensures
      var t := TrimRight(s);
      t != "" ==> !IsBlank(t[|t| - 1])
  {
    if s != "" && IsBlank(s[|s| - 1]) {
      TrimmedEnd(s[..|s| - 1]);
    }
  }

  lemma {:induction false} TrimLeftKeepsEnd(s: string)
    requires s != "" && !IsBlank(s[|s| - 1])
    ensures TrimLeft(s) != ""
  {
    if IsBlank(s[0]) {
      TrimLeftKeepsEnd(s[1..]);
    }
  }

  /** A line has an empty value exactly if, without the blanks around it, it is an option name and `=`. */
  lemma EmptyValueLine(raw: string, o: string)
    ensures ReadLine(raw) == Malformed(EmptyValue(o)) <==>
              IsOptionName(o) && TrimRight(TrimLeft(raw)) == o + ['=']
  {
    var line := TrimRight(TrimLeft(raw));
    TrimmedEnd(TrimLeft(raw));
    if IsOptionName(o) && line == o + ['='] {
      assert o + ['='] + "" == line;
      CutBehindName(o, '=', "");
    }
    if ReadTrimmed(line) == Malformed(EmptyValue(o)) {
      EmptyValueCut(line, o);
    }
  }

  lemma EmptyValueCut(line: string, o: string)
    requires ReadTrimmed(line) == Malformed(EmptyValue(o)) && !IsBlank(line[|line| - 1])
    ensures IsOptionName(o) && line == o + ['=']
  {
    var blank, equal := IndexOf(line, ' '), IndexOf(line, '=');
    var cut := if equal < blank then equal else blank;
    assert o == line[..cut];
    if line[cut] == '=' {
      assert line[cut + 1..] == "";
    } else {
      assert cut < |line| - 1;
      var rest := line[cut + 1..];
      assert rest[|rest| - 1] == line[|line| - 1];
      TrimLeftKeepsEnd(rest);
      assert false;
    }
  }

  // ---- The chain of file options followed -----------------------------------------------------------

  /** A line about to be loaded: the files open around it, its text, and the flag. */
  datatype Place = Place(active: set<string>, raw: string, skip: bool)

  /** The file that a line asks to be loaded. */
  function NamedFile(options: set<string>, raw: string, skip: bool): Option<string> {
    match ReadLine(raw)
    case Valued(o, v) => if !skip && o in options && v != "" then Some(v) else None
    case _ => None
  }

  /** What is wrong with a line itself, whatever the file it names holds. */
  function Fault(fs: Files, options: set<string>, p: Place): Option<Error> {
    match ReadLine(p.raw)
    case Malformed(e) => Some(e)
    case Valued(o, v) =>
      if p.skip || o !in options then None
      else if v == "" then Some(MissingValue(o))
      else if v !in fs then Some(FileFailure(v))
      else if v in p.active then Some(Endless(v))
      else None
    case _ => None
  }

  /**
   Loading the file gets to this place: on each line of the trail it has got past the lines before it,
   and each but the last names the file in which the trail goes on.
   */
  ghost predicate Leads(fs: Files, options: set<string>, active: set<string>, file: string, skip: bool,
                        trail: seq<nat>, p: Place)
    decreases |trail|
  {
    && trail != [] && file in fs && file !in active && trail[0] < |Lines(fs[file])|
    && var lines, k, here := Lines(fs[file]), trail[0], active + {file};
       var before := LoadLines(fs, options, here, file, lines[..k], 1, skip);
       && before.Ok?
       && if |trail| == 1 then p == Place(here, lines[k], before.value.skip)
          else
            var next := NamedFile(options, lines[k], before.value.skip);
            next.Some? && Leads(fs, options, here, next.value, before.value.skip, trail[1..], p)
  }

  /** Lines that load are out of the way of those that follow. */
  lemma {:induction false} LinesAppend(fs: Files, options: set<string>, active: set<string>, file: string,
                                       a: seq<string>, b: seq<string>, n: nat, skip: bool)
    requires LoadLines(fs, options, active, file, a, n, skip).Ok?
    ensures
      var all := LoadLines(fs, options, active, file, a + b, n, skip);
      var flag := LoadLines(fs, options, active, file, a, n, skip).value.skip;
      var rest := LoadLines(fs, options, active, file, b, n + |a|, flag);
      && (all.Err? <==> rest.Err?) && (all.Err? ==> all.error == rest.error)
      && (all.Ok? ==>
            && all.value.skip == rest.value.skip
            && all.value.args == LoadLines(fs, options, active, file, a, n, skip).value.args + rest.value.args)
    decreases |a|
  {
    hide LoadLine;
    if a == [] {
      assert a + b == b;
      var rest := LoadLines(fs, options, active, file, b, n, skip);
      assert rest.Ok? ==> [] + rest.value.args == rest.value.args;
    } else {
      assert (a + b)[0] == a[0] && (a + b)[1..] == a[1..] + b;
      var one := LoadLine(fs, options, active, file, a[0], n, skip).value;
      LinesAppend(fs, options, active, file, a[1..], b, n + 1, one.skip);
      var more := LoadLines(fs, options, active, file, a[1..], n + 1, one.skip).value;
      var rest := LoadLines(fs, options, active, file, b, n + |a|, more.skip);
      if rest.Ok? {
        Associative(one.args, more.args, rest.value.args);
      }
    }
  }

  /** Lines that do not load have a first one that does not. */
  lemma {:induction false} FirstBadLine(fs: Files, options: set<string>, active: set<string>, file: string,
                                        lines: seq<string>, n: nat, skip: bool) returns (k: nat)
    requires LoadLines(fs, options, active, file, lines, n, skip).Err?
    ensures k < |lines|
    ensures
      var before := LoadLines(fs, options, active, file, lines[..k], n, skip);
      && before.Ok?
      && LoadLine(fs, options, active, file, lines[k], n + k, before.value.skip) ==
           Err(LoadLines(fs, options, active, file, lines, n, skip).error)
    decreases |lines|
  {
    hide LoadLine;
    var one := LoadLine(fs, options, active, file, lines[0], n, skip);
    if one.Err? {
      k := 0;
    } else {
      var j := FirstBadLine(fs, options, active, file, lines[1..], n + 1, one.value.skip);
      k := j + 1;
      assert lines[..k][0] == lines[0] && lines[..k][1..] == lines[1..][..j];
    }
  }

  /** A line fails by its own fault or by that of the file it names. */
  lemma LineFails(fs: Files, options: set<string>, file: string, n: nat, p: Place)
    ensures
      var r := LoadLine(fs, options, p.active, file, p.raw, n, p.skip);
      match Fault(fs, options, p)
      case Some(e) => r == Err(e)
      case None =>
        match NamedFile(options, p.raw, p.skip)
        case None => r.Ok?
        case Some(next) => next in fs && next !in p.active && r == Load(fs, options, p.active, next, p.skip)
  {
  }

  /** Whatever error loading ends in, there is a trail to the line at fault. */
  lemma {:induction false} FailureHasTrail(fs: Files, options: set<string>, active: set<string>, file: string,
                                           skip: bool)
    returns (trail: seq<nat>, p: Place)
    requires file in fs && file !in active && Load(fs, options, active, file, skip).Err?
    ensures Leads(fs, options, active, file, skip, trail, p)
    ensures Fault(fs, options, p) == Some(Load(fs, options, active, file, skip).error)
    decreases fs.Keys - active
  {
    var here, lines := active + {file}, Lines(fs[file]);
    var k := FirstBadLine(fs, options, here, file, lines, 1, skip);
    var before := LoadLines(fs, options, here, file, lines[..k], 1, skip);
    p := Place(here, lines[k], before.value.skip);
    LineFails(fs, options, file, 1 + k, p);
    if Fault(fs, options, p).Some? {
      trail := [k];
    } else {
      var next := NamedFile(options, lines[k], before.value.skip).value;
      var further;
      further, p := FailureHasTrail(fs, options, here, next, before.value.skip);
      trail := [k] + further;
      assert trail[1..] == further;
    }
  }

  /** And a trail to a line at fault makes loading end in its error. */
  lemma {:induction false} TrailFails(fs: Files, options: set<string>, active: set<string>, file: string, skip: bool,
                                      trail: seq<nat>, p: Place)
    requires Leads(fs, options, active, file, skip, trail, p) && Fault(fs, options, p).Some?
    ensures Load(fs, options, active, file, skip) == Err(Fault(fs, options, p).value)
    decreases |trail|
  {
    var here, lines, k := active + {file}, Lines(fs[file]), trail[0];
    var before := LoadLines(fs, options, here, file, lines[..k], 1, skip);
    var at := Place(here, lines[k], before.value.skip);
    LineFails(fs, options, file, 1 + k, at);
    if |trail| > 1 {
      var next := NamedFile(options, lines[k], before.value.skip).value;
      TrailFails(fs, options, here, next, before.value.skip, trail[1..], p);
    }
    assert lines == lines[..k] + lines[k..] && lines[k..][0] == lines[k];
    LinesAppend(fs, options, here, file, lines[..k], lines[k..], 1, skip);
  }

  /** Loading fails with an error if and only if the file options lead to a line with that fault. */
  lemma LoadFailsExactly(fs: Files, options: set<string>, active: set<string>, file: string, skip: bool, e: Error)
    requires file in fs && file !in active
    ensures Load(fs, options, active, file, skip) == Err(e) <==>
              exists trail, p :: Leads(fs, options, active, file, skip, trail, p) && Fault(fs, options, p) == Some(e)
  {
    hide Load, Leads;
    var r := Load(fs, options, active, file, skip);
    if r == Err(e) {
      var trail, p := FailureHasTrail(fs, options, active, file, skip);
      assert Fault(fs, options, p) == Some(r.error) == Some(e);
      assert exists trail, p :: Leads(fs, options, active, file, skip, trail, p) && Fault(fs, options, p) == Some(e);
    }
    forall trail, p | Leads(fs, options, active, file, skip, trail, p) && Fault(fs, options, p) == Some(e)
      ensures r == Err(e)
    {
      TrailFails(fs, options, active, file, skip, trail, p);
    }
  }

  /** Loading meets an empty value if and only if the file options lead to a line `option=`. */
  lemma EmptyValueExactly(fs: Files, options: set<string>, active: set<string>, file: string, skip: bool, o: string)
    requires file in fs && file !in active
    ensures Load(fs, options, active, file, skip) == Err(EmptyValue(o)) <==>
              exists trail, p :: Leads(fs, options, active, file, skip, trail, p)
                                 && IsOptionName(o) && TrimRight(TrimLeft(p.raw)) == o + ['=']
  {
    hide Load, Leads, ReadLine;
    LoadFailsExactly(fs, options, active, file, skip, EmptyValue(o));
    forall trail, p | Leads(fs, options, active, file, skip, trail, p)
      ensures Fault(fs, options, p) == Some(EmptyValue(o)) <==>
                IsOptionName(o) && TrimRight(TrimLeft(p.raw)) == o + ['=']
    {
      EmptyValueLine(p.raw, o);
    }
  }

  /** Loading meets a file within itself if and only if the file options lead to a line naming an open file. */
  lemma CircleExactly(fs: Files, options: set<string>, active: set<string>, file: string, skip: bool, again: string)
    requires file in fs && file !in active
    ensures Load(fs, options, active, file, skip) == Err(Endless(again)) <==>
              exists trail, p :: Leads(fs, options, active, file, skip, trail, p)
                                 && NamedFile(options, p.raw, p.skip) == Some(again) && again in fs && again in p.active
  {
    hide Load, Leads;
    LoadFailsExactly(fs, options, active, file, skip, Endless(again));
    forall trail, p | Leads(fs, options, active, file, skip, trail, p)
      ensures Fault(fs, options, p) == Some(Endless(again)) <==>
                NamedFile(options, p.raw, p.skip) == Some(again) && again in fs && again in p.active
    {
      MalformedIsNotEndless(p.raw);
    }
  }

  lemma MalformedIsNotEndless(raw: string)
    ensures ReadLine(raw).Malformed? ==> !ReadLine(raw).error.Endless?
  {
  }

  /** A file whose first line names it is loaded within itself, whatever else there is. */
  lemma SelfNamingFile(fs: Files, options: set<string>, active: set<string>, file: string)
    requires file in fs && file !in active && NamedFile(options, Lines(fs[file])[0], false) == Some(file)
    ensures Load(fs, options, active, file, false) == Err(Endless(file))
  {
    assert LoadLine(fs, options, active + {file}, file, Lines(fs[file])[0], 1, false) == Err(Endless(file));
  }

  // ---- Whole argument vectors -------------------------------------------------------------------------

  /** What goes wrong with the file option, if any, in front of a vector. */
  function FrontFails(fs: Files, options: set<string>, argv: seq<string>, skip: bool): Option<Error>
    requires argv != []
  {
    match FindFileOption(options, argv, skip)
    case Dangling(o) => Some(MissingValue(o))
    case NotFileOption => None
    case Names(file, _) =>
      match Load(fs, options, {}, file, skip)
      case Err(e) => Some(e)
      case Ok(_) => None
  }

  /** The expansion stops with an error if and only if it gets to a file option that fails with it. */
  lemma ExpandFailsExactly(fs: Files, options: set<string>, argv: seq<string>, skip: bool, e: Error)
    ensures Expand(fs, options, argv, skip).error == Some(e) <==>
              exists k :: StopsAt(fs, options, argv, skip, k, e)
  {
    if Expand(fs, options, argv, skip).error == Some(e) {
      var k := FirstBadOption(fs, options, argv, skip);
      assert StopsAt(fs, options, argv, skip, k, e);
    }
    forall k: nat | StopsAt(fs, options, argv, skip, k, e)
      ensures Expand(fs, options, argv, skip).error == Some(e)
    {
      assert argv[..k] + argv[k..] == argv;
      ExpandAppend(fs, options, argv[..k], argv[k..], skip);
    }
  }

  /** All before the k-th argument is delivered, and the file option there fails. */
  ghost predicate StopsAt(fs: Files, options: set<string>, argv: seq<string>, skip: bool, k: nat, e: Error) {
    && k < |argv| && Expand(fs, options, argv[..k], skip).error.None?
    && FrontFails(fs, options, argv[k..], SkipAfter(fs, options, argv[..k], skip)) == Some(e)
  }

  lemma {:induction false} FirstBadOption(fs: Files, options: set<string>, argv: seq<string>, skip: bool)
    returns (k: nat)
    requires Expand(fs, options, argv, skip).error.Some?
    ensures StopsAt(fs, options, argv, skip, k, Expand(fs, options, argv, skip).error.value)
    decreases |argv|
  {
    if FrontFails(fs, options, argv, skip).Some? {
      k := 0;
      FrontFailsFirst(fs, options, argv, skip);
    } else {
      hide Expand, SkipAfter, Load;
      var found := FindFileOption(options, argv, skip);
      var width := if found.Names? then found.width else 1;
      var flag := SkipAfter(fs, options, argv[..width], skip);
      FrontDelivered(fs, options, argv, skip, width);
      var j := FirstBadOption(fs, options, argv[width..], flag);
      k := width + j;
      SplitTwice(argv, width, j);
      ExpandAppend(fs, options, argv[..width], argv[width..][..j], skip);
      SkipAppend(fs, options, argv[..width], argv[width..][..j], skip);
    }
  }

  lemma SplitTwice(s: seq<string>, m: nat, j: nat)
    requires m + j <= |s|
    ensures s[..m + j] == s[..m] + s[m..][..j] && s[m + j..] == s[m..][j..]
  {
  }

  lemma FrontFailsFirst(fs: Files, options: set<string>, argv: seq<string>, skip: bool)
    requires argv != [] && FrontFails(fs, options, argv, skip).Some?
    ensures Expand(fs, options, argv, skip).error == FrontFails(fs, options, argv, skip)
    ensures StopsAt(fs, options, argv, skip, 0, FrontFails(fs, options, argv, skip).value)
  {
    assert argv[0..] == argv;
  }

  lemma FrontDelivered(fs: Files, options: set<string>, argv: seq<string>, skip: bool, width: nat)
    requires argv != [] && FrontFails(fs, options, argv, skip).None?
    requires
      var found := FindFileOption(options, argv, skip);
      width == if found.Names? then found.width else 1
    ensures width <= |argv| && Expand(fs, options, argv[..width], skip).error.None?
    ensures Expand(fs, options, argv, skip).error ==
              Expand(fs, options, argv[width..], SkipAfter(fs, options, argv[..width], skip)).error
  {
    var a, b := argv[..width], argv[width..];
    assert a + b == argv && a[0] == argv[0] && (width == 2 ==> a[1] == argv[1]);
    assert FindFileOption(options, a, skip) == FindFileOption(options, argv, skip);
    assert a[width..] == [];
    ExpandAppend(fs, options, a, b, skip);
  }

  lemma {:induction false} SkipAppend(fs: Files, options: set<string>, a: seq<string>, b: seq<string>, skip: bool)
    requires Expand(fs, options, a, skip).error.None?
    ensures SkipAfter(fs, options, a + b, skip) == SkipAfter(fs, options, b, SkipAfter(fs, options, a, skip))
    decreases |a|
  {
    if a == [] {
      assert a + b == b;
    } else {
      FindAppend(options, a, b, skip);
      match FindFileOption(options, a, skip)
      case NotFileOption =>
        assert (a + b)[1..] == a[1..] + b;
        SkipAppend(fs, options, a[1..], b, skip || a[0] == "--");
      case Names(file, width) =>
        assert (a + b)[width..] == a[width..] + b;
        SkipAppend(fs, options, a[width..], b, Load(fs, options, {}, file, skip).value.skip);
    }
  }

  // ---- Endless means never to return --------------------------------------------------------------------

  /**
   Loading as the program does it, without noticing that a file is open already, but only down to
   some depth of files within files; nothing if that is not enough.
   */
  function Unroll(fs: Files, options: set<string>, depth: nat, file: string, skip: bool)
    : Option<Result<Loaded, Error>>
    decreases depth, 0, 0
  {
    if file !in fs then Some(Err(FileFailure(file)))
    else if depth == 0 then None
    else UnrollLines(fs, options, depth - 1, file, Lines(fs[file]), 1, skip)
  }

  function UnrollLines(fs: Files, options: set<string>, depth: nat, file: string, lines: seq<string>, n: nat,
                       skip: bool)
    : Option<Result<Loaded, Error>>
    decreases depth, 1, |lines|
  {
    if lines == [] then Some(Ok(Loaded([], skip)))
    else
      match UnrollLine(fs, options, depth, file, lines[0], n, skip)
      case Some(Ok(one)) => Behind(one.args, UnrollLines(fs, options, depth, file, lines[1..], n + 1, one.skip))
      case r => r
  }

  function UnrollLine(fs: Files, options: set<string>, depth: nat, file: string, line: string, n: nat, skip: bool)
    : Option<Result<Loaded, Error>>
    decreases depth, 1, 0
  {
    match ReadLine(line)
    case Ignored => Some(Ok(Loaded([], skip)))
    case Malformed(e) => Some(Err(e))
    case Plain(v, separator) => Some(Ok(Loaded([Arg(v, file, n)], skip || separator)))
    case Valued(o, v) =>
      if skip || o !in options then Some(Ok(Loaded([Arg(o, file, n), Arg(v, file, n)], skip)))
      else if v == "" then Some(Err(MissingValue(o)))
      else Unroll(fs, options, depth, v, skip)
  }

  function Behind(args: seq<Arg>, r: Option<Result<Loaded, Error>>): Option<Result<Loaded, Error>> {
    match r
    case Some(Ok(more)) => Some(Ok(Loaded(args + more.args, more.skip)))
    case _ => r
  }

  predicate IsEndless(r: Result<Loaded, Error>) {
    r.Err? && r.error.Endless?
  }

  /** What is loaded is what unrolling comes to, if it is deep enough to come to anything. */
  ghost predicate Agrees(r: Result<Loaded, Error>, u: Option<Result<Loaded, Error>>, deep: bool) {
    (u.Some? ==> u.value == r) && (deep ==> u.Some?)
  }

  lemma {:induction false} LoadUnrolls(fs: Files, options: set<string>, active: set<string>, depth: nat,
                                       file: string, skip: bool, deep: bool)
    requires !IsEndless(Load(fs, options, active, file, skip)) && (deep ==> depth >= |fs.Keys - active|)
    ensures Agrees(Load(fs, options, active, file, skip), Unroll(fs, options, depth, file, skip), deep)
    decreases depth, 0, 0
  {
    if file in fs {
      var here := active + {file};
      assert fs.Keys - here == (fs.Keys - active) - {file};
      if depth > 0 {
        LinesUnroll(fs, options, here, depth - 1, file, Lines(fs[file]), 1, skip, deep);
      }
    }
  }

  lemma {:induction false} LinesUnroll(fs: Files, options: set<string>, active: set<string>, depth: nat,
                                       file: string, lines: seq<string>, n: nat, skip: bool, deep: bool)
    requires !IsEndless(LoadLines(fs, options, active, file, lines, n, skip))
    requires deep ==> depth >= |fs.Keys - active|
    ensures Agrees(LoadLines(fs, options, active, file, lines, n, skip),
                   UnrollLines(fs, options, depth, file, lines, n, skip), deep)
    decreases depth, 1, |lines|
  {
    if lines != [] {
      LineUnrolls(fs, options, active, depth, file, lines[0], n, skip, deep);
      var one := LoadLine(fs, options, active, file, lines[0], n, skip);
      if one.Ok? {
        LinesUnroll(fs, options, active, depth, file, lines[1..], n + 1, one.value.skip, deep);
      }
    }
  }

  lemma {:induction false} LineUnrolls(fs: Files, options: set<string>, active: set<string>, depth: nat,
                                       file: string, line: string, n: nat, skip: bool, deep: bool)
    requires !IsEndless(LoadLine(fs, options, active, file, line, n, skip))
    requires deep ==> depth >= |fs.Keys - active|
    ensures Agrees(LoadLine(fs, options, active, file, line, n, skip),
                   UnrollLine(fs, options, depth, file, line, n, skip), deep)
    decreases depth, 1, 0
  {
    match ReadLine(line)
    case Valued(o, v) =>
      if !skip && o in options && v != "" {
        LoadUnrolls(fs, options, active, depth, v, skip, deep);
      }
    case _ =>
  }

  /** If the file met again cannot be unrolled to one depth less, this one cannot to this depth. */
  lemma {:induction false} NoWayRound(fs: Files, options: set<string>, active: set<string>, depth: nat,
                                      file: string, again: string)
    requires file in fs && file !in active && Load(fs, options, active, file, false) == Err(Endless(again))
    requires forall d: nat :: d < depth ==> Unroll(fs, options, d, again, false).None?
    ensures Unroll(fs, options, depth, file, false).None?
    decreases depth, 0, 0
  {
    if depth > 0 {
      NoLinesRound(fs, options, active + {file}, depth - 1, file, Lines(fs[file]), 1, false, again);
    }
  }

  lemma {:induction false} NoLinesRound(fs: Files, options: set<string>, active: set<string>, depth: nat,
                                        file: string, lines: seq<string>, n: nat, skip: bool, again: string)
    requires LoadLines(fs, options, active, file, lines, n, skip) == Err(Endless(again))
    requires forall d: nat :: d <= depth ==> Unroll(fs, options, d, again, false).None?
    ensures UnrollLines(fs, options, depth, file, lines, n, skip).None?
    decreases depth, 1, |lines|
  {
    hide LoadLine, UnrollLine;
    var one := LoadLine(fs, options, active, file, lines[0], n, skip);
    if one.Ok? {
      LineUnrolls(fs, options, active, depth, file, lines[0], n, skip, false);
      NoLinesRound(fs, options, active, depth, file, lines[1..], n + 1, one.value.skip, again);
    } else {
      NoLineRound(fs, options, active, depth, file, lines[0], n, skip, again);
    }
  }

  lemma {:induction false} NoLineRound(fs: Files, options: set<string>, active: set<string>, depth: nat,
                                       file: string, line: string, n: nat, skip: bool, again: string)
    requires LoadLine(fs, options, active, file, line, n, skip) == Err(Endless(again))
    requires forall d: nat :: d <= depth ==> Unroll(fs, options, d, again, false).None?
    ensures UnrollLine(fs, options, depth, file, line, n, skip).None?
    decreases depth, 1, 0
  {
    MalformedIsNotEndless(line);
    var next := ReadLine(line).value;
    if next !in active {
      NoWayRound(fs, options, active, depth, next, again);
    }
  }

  /** The file met again is itself loaded on the way. */
  lemma {:induction false} IsEntered(fs: Files, options: set<string>, active: set<string>, file: string, again: string)
    returns (around: set<string>)
    requires file in fs && file !in active && Load(fs, options, active, file, false) == Err(Endless(again))
    requires again !in active
    ensures again in fs && again !in around && Load(fs, options, around, again, false) == Err(Endless(again))
    decreases fs.Keys - active
  {
    if file == again {
      around := active;
    } else {
      var here, lines := active + {file}, Lines(fs[file]);
      var k := FirstBadLine(fs, options, here, file, lines, 1, false);
      var p := Place(here, lines[k], LoadLines(fs, options, here, file, lines[..k], 1, false).value.skip);
      LineFails(fs, options, file, 1 + k, p);
      MalformedIsNotEndless(lines[k]);
      around := IsEntered(fs, options, here, NamedFile(options, p.raw, p.skip).value, again);
    }
  }

  lemma {:induction false} NeverBottom(fs: Files, options: set<string>, around: set<string>, file: string, depth: nat)
    requires file in fs && file !in around && Load(fs, options, around, file, false) == Err(Endless(file))
    ensures Unroll(fs, options, depth, file, false).None?
    decreases depth
  {
    forall d: nat | d < depth
      ensures Unroll(fs, options, d, file, false).None?
    {
      NeverBottom(fs, options, around, file, d);
    }
    NoWayRound(fs, options, around, depth, file, file);
  }

  /**
   Loading reports a circle if and only if the program would go down into files for ever; otherwise
   it is what the program comes to, which takes no more files within files than there are.
   */
  lemma EndlessExactly(fs: Files, options: set<string>, file: string)
    ensures IsEndless(Load(fs, options, {}, file, false)) <==>
              forall depth: nat :: Unroll(fs, options, depth, file, false).None?
    ensures !IsEndless(Load(fs, options, {}, file, false)) ==>
              forall depth: nat :: depth >= |fs| ==>
                Unroll(fs, options, depth, file, false) == Some(Load(fs, options, {}, file, false))
  {
    hide Load, Unroll;
    var r := Load(fs, options, {}, file, false);
    assert fs.Keys - {} == fs.Keys && |fs.Keys| == |fs|;
    if IsEndless(r) {
      EndlessNeverReturns(fs, options, file);
    } else {
      forall depth: nat | depth >= |fs|
        ensures Unroll(fs, options, depth, file, false) == Some(r)
      {
        LoadUnrolls(fs, options, {}, depth, file, false, true);
      }
      var enough: nat := |fs|;
      assert !Unroll(fs, options, enough, file, false).None?;
      assert !forall depth: nat :: Unroll(fs, options, depth, file, false).None?;
    }
  }

  lemma EndlessNeverReturns(fs: Files, options: set<string>, file: string)
    requires IsEndless(Load(fs, options, {}, file, false))
    ensures forall depth: nat :: Unroll(fs, options, depth, file, false).None?
  {
    hide Unroll;
    var again := Load(fs, options, {}, file, false).error.file;
    var around := IsEntered(fs, options, {}, file, again);
    forall depth: nat
      ensures Unroll(fs, options, depth, file, false).None?
    {
      forall d: nat
        ensures Unroll(fs, options, d, again, false).None?
      {
        NeverBottom(fs, options, around, again, d);
      }
      NoWayRound(fs, options, {}, depth, file, again);
    }
  }
}
