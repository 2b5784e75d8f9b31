/** Options files and file options by their text: what each kind of line and argument comes to. */
module OptionsFileText {
  import opened Common
  import opened OptionsFile
  import opened LoadFailures

  // ---- Lines -----------------------------------------------------------------------------------

  /** A blank, a tab or a carriage return. */
  predicate IsPadding(c: char) {
    c == ' ' || c == '\t' || c == '\r'
  }

  predicate IsMark(c: char) {
    c == '"' || c == '\''
  }

  /** Nothing to be trimmed, and something left. */
  predicate IsTrimmed(t: string) {
    t != "" && !IsPadding(t[0]) && !IsPadding(t[|t| - 1])
  }

  lemma {:induction false} LeftTrimmed(s: string) returns (a: string)
    ensures AllBlank(a) && s == a + TrimLeft(s) && (TrimLeft(s) != "" ==> !IsPadding(TrimLeft(s)[0]))
  {
    if s != "" && IsBlank(s[0]) {
      a := LeftTrimmed(s[1..]);
      a := [s[0]] + a;
    } else {
      a := "";
    }
  }

  lemma {:induction false} RightTrimmed(s: string) returns (b: string)
    ensures AllBlank(b) && s == TrimRight(s) + b
    ensures TrimRight(s) != "" ==> !IsPadding(TrimRight(s)[|TrimRight(s)| - 1]) && TrimRight(s)[0] == s[0]
  {
    if s != "" && IsBlank(s[|s| - 1]) {
      var n := |s| - 1;
      b := RightTrimmed(s[..n]);
      b := b + [s[n]];
      assert s == s[..n] + [s[n]];
    } else {
      b := "";
    }
  }

  /** A line is trimmed of exactly the blanks, tabs and carriage returns on both sides. */
  lemma LineIsTrimmed(raw: string) returns (a: string, b: string)
    ensures
      var t := TrimRight(TrimLeft(raw));
      raw == a + t + b && AllBlank(a) && AllBlank(b) && (t == "" || IsTrimmed(t))
  {
    a := LeftTrimmed(raw);
    b := RightTrimmed(TrimLeft(raw));
    Associative(a, TrimRight(TrimLeft(raw)), b);
  }

  /** A line is ignored if and only if nothing is left of it, or what is left begins with `#`. */
  lemma IgnoredExactly(raw: string)
    ensures
      var t := TrimRight(TrimLeft(raw));
      ReadLine(raw) == Ignored <==> t == "" || t[0] == '#'
  {
  }

  /** A line that gives an option a value: it begins with a dash and has a blank or a `=` in it. */
  predicate GivesValue(t: string) {
    t != "" && t[0] == '-' && (' ' in t || '=' in t)
  }

  /**
   Any other line is an argument: as it stands, or without the quotes around it; it ends the options
   exactly if it is `--`. A quote on one side only is an error.
   */
  lemma ArgumentLine(t: string)
    requires IsTrimmed(t) && t[0] != '#' && !GivesValue(t)
    ensures
      var first, last := t[0], t[|t| - 1];
      && (!IsMark(first) && !IsMark(last) ==> ReadLine(t) == Plain(t, t == "--"))
      && (IsMark(first) && first == last && |t| > 1 ==> ReadLine(t) == Plain(t[1..|t| - 1], false))
      && ((IsMark(first) || IsMark(last)) && (first != last || |t| == 1) ==>
            ReadLine(t) == Malformed(UnmatchedQuote(t)))
  {
    NothingToTrim(t);
    if t[0] == '-' {
      assert IndexOf(t, ' ') == |t| && IndexOf(t, '=') == |t|;
    }
  }

  /** An option's value is what follows the `=`, or the blank and any padding, without the quotes around it. */
  lemma ValueLine(o: string, pad: string, v: string)
    requires IsOptionName(o) && AllBlank(pad) && IsTrimmed(v)
    ensures
      var first, last := v[0], v[|v| - 1];
      var r := if !IsMark(first) && !IsMark(last) then Valued(o, v)
               else if first == last && |v| > 1 then Valued(o, v[1..|v| - 1])
               else Malformed(UnmatchedQuote(v));
      ReadLine(o + ['='] + v) == ReadLine(o + [' '] + (pad + v)) == r
  {
    hide ReadLine, ReadTrimmed, TrimRight;
    OptionLineReads(o, '=', v);
    OptionLineReads(o, ' ', pad + v);
    TrimLeftPadding(pad, v);
  }

  // ---- Lines among others ------------------------------------------------------------------------

  function NumbersDropped(args: seq<Arg>): seq<Arg> {
    if args == [] then [] else [args[0].(line := 0)] + NumbersDropped(args[1..])
  }

  function Unnumbered(r: Result<Loaded, Error>): Result<Loaded, Error> {
    if r.Err? then r else Ok(Loaded(NumbersDropped(r.value.args), r.value.skip))
  }

  lemma {:induction false} DroppedAppend(a: seq<Arg>, b: seq<Arg>)
    ensures NumbersDropped(a + b) == NumbersDropped(a) + NumbersDropped(b)
  {
    if a == [] {
      assert a + b == b;
    } else {
      assert (a + b)[1..] == a[1..] + b;
      DroppedAppend(a[1..], b);
    }
  }

  lemma OneLineNumber(fs: Files, options: set<string>, active: set<string>, file: string, line: string,
                      n: nat, m: nat, skip: bool)
    ensures Unnumbered(LoadLine(fs, options, active, file, line, n, skip)) ==
              Unnumbered(LoadLine(fs, options, active, file, line, m, skip))
  {
    match ReadLine(line)
    case Plain(v, _) => DroppedOne(Arg(v, file, n), Arg(v, file, m));
    case Valued(o, v) =>
      DroppedOne(Arg(v, file, n), Arg(v, file, m));
      assert [Arg(o, file, n), Arg(v, file, n)][1..] == [Arg(v, file, n)];
      assert [Arg(o, file, m), Arg(v, file, m)][1..] == [Arg(v, file, m)];
    case _ =>
  }

  lemma DroppedOne(a: Arg, b: Arg)
    requires a.value == b.value && a.file == b.file
    ensures NumbersDropped([a]) == NumbersDropped([b])
  {
    assert [a][1..] == [] && [b][1..] == [];
  }

  /** Where the lines of a file stand makes no difference but to their numbers. */
  lemma {:induction false} LineNumbersOnly(fs: Files, options: set<string>, active: set<string>, file: string,
                                           lines: seq<string>, n: nat, m: nat, skip: bool)
    ensures Unnumbered(LoadLines(fs, options, active, file, lines, n, skip)) ==
              Unnumbered(LoadLines(fs, options, active, file, lines, m, skip))
    decreases |lines|
  {
    if lines != [] {
      hide LoadLine;
      OneLineNumber(fs, options, active, file, lines[0], n, m, skip);
      var one, other := LoadLine(fs, options, active, file, lines[0], n, skip),
        LoadLine(fs, options, active, file, lines[0], m, skip);
      if one.Ok? {
        LineNumbersOnly(fs, options, active, file, lines[1..], n + 1, m + 1, one.value.skip);
        var more := LoadLines(fs, options, active, file, lines[1..], n + 1, one.value.skip);
        var others := LoadLines(fs, options, active, file, lines[1..], m + 1, one.value.skip);
        if more.Ok? {
          DroppedAppend(one.value.args, more.value.args);
          DroppedAppend(other.value.args, others.value.args);
        }
      }
    }
  }

  /** A blank line or a comment put in anywhere changes nothing but the line numbers behind it. */
  lemma {:induction false} IgnoredLineInserted(fs: Files, options: set<string>, active: set<string>, file: string,
                                               a: seq<string>, x: string, b: seq<string>, n: nat, skip: bool)
    requires
      var t := TrimRight(TrimLeft(x));
      t == "" || t[0] == '#'
    ensures Unnumbered(LoadLines(fs, options, active, file, a + ([x] + b), n, skip)) ==
              Unnumbered(LoadLines(fs, options, active, file, a + b, n, skip))
    decreases |a|
  {
    hide LoadLine;
    if a == [] {
      IgnoredExactly(x);
      assert a + ([x] + b) == [x] + b && a + b == b && ([x] + b)[1..] == b;
      IgnoredLoads(fs, options, active, file, x, n, skip);
      LineNumbersOnly(fs, options, active, file, b, n, n + 1, skip);
      var rest := LoadLines(fs, options, active, file, b, n + 1, skip);
      assert rest.Ok? ==> [] + rest.value.args == rest.value.args;
    } else {
      var one := LoadLine(fs, options, active, file, a[0], n, skip);
      assert (a + ([x] + b))[1..] == a[1..] + ([x] + b) && (a + b)[1..] == a[1..] + b;
      if one.Ok? {
        IgnoredLineInserted(fs, options, active, file, a[1..], x, b, n + 1, one.value.skip);
        SamePrefix(one.value.args, LoadLines(fs, options, active, file, a[1..] + ([x] + b), n + 1, one.value.skip),
                   LoadLines(fs, options, active, file, a[1..] + b, n + 1, one.value.skip));
      }
    }
  }

  lemma IgnoredLoads(fs: Files, options: set<string>, active: set<string>, file: string, x: string, n: nat, skip: bool)
    requires ReadLine(x) == Ignored
    ensures LoadLine(fs, options, active, file, x, n, skip) == Ok(Loaded([], skip))
  {
  }

  lemma SamePrefix(args: seq<Arg>, r: Result<Loaded, Error>, q: Result<Loaded, Error>)
    requires Unnumbered(r) == Unnumbered(q)
    ensures r.Ok? ==> q.Ok? && NumbersDropped(args + r.value.args) == NumbersDropped(args + q.value.args)
  {
    if r.Ok? {
      DroppedAppend(args, r.value.args);
      DroppedAppend(args, q.value.args);
    }
  }

  /** Behind a line `--` no line names a file: what the files hold does not matter. */
  lemma {:induction false} SkippedLinesLoad(fs: Files, gs: Files, options: set<string>, active: set<string>,
                                            file: string, lines: seq<string>, n: nat)
    ensures LoadLines(fs, options, active, file, lines, n, true) == LoadLines(gs, options, active, file, lines, n, true)
    decreases |lines|
  {
    if lines != [] {
      var one := LoadLine(fs, options, active, file, lines[0], n, true);
      assert one == LoadLine(gs, options, active, file, lines[0], n, true) && (one.Ok? ==> one.value.skip);
      SkippedLinesLoad(fs, gs, options, active, file, lines[1..], n + 1);
    }
  }

  /** The line `--` is delivered and ends the file options. */
  lemma SeparatorLine(fs: Files, options: set<string>, active: set<string>, file: string, n: nat, skip: bool)
    ensures LoadLine(fs, options, active, file, "--", n, skip) == Ok(Loaded([Arg("--", file, n)], true))
  {
    ArgumentLine("--");
  }

  /** A line that names a file is replaced in place by what that file loads to. */
  lemma NamedFileInPlace(fs: Files, options: set<string>, active: set<string>, file: string, a: seq<string>,
                         line: string, b: seq<string>, n: nat, skip: bool, named: string)
    requires
      var before := LoadLines(fs, options, active, file, a, n, skip);
      before.Ok? && !before.value.skip && NamedFile(options, line, false) == Some(named)
    requires Load(fs, options, active, named, false).Ok?
    ensures
      var before := LoadLines(fs, options, active, file, a, n, skip).value;
      var loaded := Load(fs, options, active, named, false).value;
      var rest := LoadLines(fs, options, active, file, b, n + |a| + 1, loaded.skip);
      var all := LoadLines(fs, options, active, file, a + ([line] + b), n, skip);
      && (rest.Err? ==> all == rest)
      && (rest.Ok? ==> all == Ok(Loaded(before.args + (loaded.args + rest.value.args), rest.value.skip)))
  {
    LinesAppend(fs, options, active, file, a, [line] + b, n, skip);
    assert ([line] + b)[0] == line && ([line] + b)[1..] == b;
    assert LoadLine(fs, options, active, file, line, n + |a|, false) == Load(fs, options, active, named, false);
  }

  // ---- Arguments ---------------------------------------------------------------------------------

  /** An argument that is no file option is delivered as it stands, and ends the file options if it is `--`. */
  lemma OrdinaryArgument(fs: Files, options: set<string>, a: string, rest: seq<string>, skip: bool)
    requires skip || (a !in options && forall o, f :: o in options && |o| > 0 && o[0] == '-' ==> a != o + ['='] + f)
    ensures Expand(fs, options, [a] + rest, skip) ==
              Precede([Arg(a, "", 0)], Expand(fs, options, rest, skip || a == "--"))
  {
    var argv := [a] + rest;
    assert argv[0] == a && argv[1..] == rest;
    var cut := IndexOf(a, '=');
    if a != "" && a[0] == '-' && cut < |a| {
      assert a == a[..cut] + ['='] + a[cut + 1..];
      assert cut > 0 && a[..cut][0] == '-';
    }
  }

  /** From `--` on, everything is delivered verbatim. */
  lemma SeparatorArgument(fs: Files, options: set<string>, rest: seq<string>, skip: bool)
    requires "--" !in options
    ensures Expand(fs, options, ["--"] + rest, skip) == Expansion([Arg("--", "", 0)] + Verbatim(rest), None)
  {
    var argv := ["--"] + rest;
    assert argv[1..] == rest && IndexOf("--", '=') == 2;
    SkippedIsVerbatim(fs, options, rest);
  }

  /** `--option file` and `--option=file` are replaced in place by what the file loads to. */
  lemma FileOptionInPlace(fs: Files, options: set<string>, o: string, f: string, rest: seq<string>)
    requires o in options && |o| > 0 && o[0] == '-' && '=' !in o && o + ['='] + f !in options
    ensures Expand(fs, options, [o, f] + rest, false) == Expand(fs, options, [o + ['='] + f] + rest, false)
    ensures
      var r := Load(fs, options, {}, f, false);
      Expand(fs, options, [o, f] + rest, false) ==
        if r.Err? then Expansion([], Some(r.error))
        else Precede(r.value.args, Expand(fs, options, rest, r.value.skip))
    ensures f !in fs ==> Load(fs, options, {}, f, false) == Err(FileFailure(f))
    ensures Expand(fs, options, [o], false) == Expansion([], Some(MissingValue(o)))
  {
    var two, one := [o, f] + rest, [o + ['='] + f] + rest;
    assert two[0] == o && two[1] == f && two[2..] == rest && one[1..] == rest;
    var t := o + ['='] + f;
    IndexOfFirst(o, '=', f);
    assert t[..|o|] == o && t[|o| + 1..] == f && t[0] == '-';
  }
}
