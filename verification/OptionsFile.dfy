/**
 Options files on values: how a line is read, what a file loads to once the files it names are
 loaded in its place, and what a whole argument vector expands to.
 */
module OptionsFile {
  import opened Common

  datatype Error =
    | EndOfStream
    | MissingValue(option: string)
    | FileFailure(file: string)
    | UnmatchedQuote(argument: string)
    | EmptyValue(option: string)   // the code reads before the start of an empty string
    | Endless(file: string)        // the code loads the file within itself for ever

  /** File contents by name. */
  type Files = map<string, string>

  /** An argument and the file and line it comes from ("" and 0 on the command line). */
  datatype Arg = Arg(value: string, file: string, line: nat)

  // ---- Lines -----------------------------------------------------------------------------------

  predicate IsBlank(c: char) {
    c == ' ' || c == '\t' || c == '\r'
  }

  predicate IsQuote(c: char) {
    c == '"' || c == '\''
  }

  function TrimLeft(s: string): string {
    if s != "" && IsBlank(s[0]) then TrimLeft(s[1..]) else s
  }

  function TrimRight(s: string): string {
    if s != "" && IsBlank(s[|s| - 1]) then TrimRight(s[..|s| - 1]) else s
  }

  /** Split at newlines; there is always a last, possibly empty, line. */
  function Lines(content: string): seq<string> {
    var n := IndexOf(content, '\n');
    if n == |content| then [content] else [content[..n]] + Lines(content[n + 1..])
  }

  datatype Line =
    | Ignored
    | Plain(value: string, separator: bool)
    | Valued(option: string, value: string)
    | Malformed(error: Error)

  /** Remove the quotes around a value; a quote on one side only is an error. */
  function Unquote(s: string): Result<string, Error>
    requires s != ""
  {
    var first, last := s[0], s[|s| - 1];
    if !IsQuote(first) && !IsQuote(last) then Ok(s)
    else if |s| == 1 || first != last then Err(UnmatchedQuote(s))
    else Ok(s[1..|s| - 1])
  }

  function ReadLine(raw: string): Line {
    ReadTrimmed(TrimRight(TrimLeft(raw)))
  }

  function ReadTrimmed(line: string): Line {
    if line == "" || line[0] == '#' then Ignored
    else
      var blank, equal := IndexOf(line, ' '), IndexOf(line, '=');
      var cut := if equal < blank then equal else blank;
      if line[0] != '-' || cut == |line| then
        match Unquote(line)
        case Ok(v) => Plain(v, line == "--")
        case Err(e) => Malformed(e)
      else if line[cut] == '=' then ReadValue(line[..cut], line[cut + 1..])
      else ReadValue(line[..cut], TrimLeft(line[cut + 1..]))
  }

  function ReadValue(option: string, value: string): Line {
    if value == "" then Malformed(EmptyValue(option))
    else
      match Unquote(value)
      case Ok(v) => Valued(option, v)
      case Err(e) => Malformed(e)
  }

  // ---- Loading and expanding -------------------------------------------------------------------

  /** What loading appends to the arguments, and the "no more file options" flag after it. */
  datatype Loaded = Loaded(args: seq<Arg>, skip: bool)

  /**
   Load a file. `active` are the files being loaded around it: one of them again means the program
   never returns, since it met that file with the same flag before.
   */
  function Load(fs: Files, options: set<string>, active: set<string>, file: string, skip: bool)
    : Result<Loaded, Error>
    decreases fs.Keys - active, 0, 0
  {
    if file !in fs then Err(FileFailure(file))
    else if file in active then Err(Endless(file))
    else LoadLines(fs, options, active + {file}, file, Lines(fs[file]), 1, skip)
  }

  function LoadLines(fs: Files, options: set<string>, active: set<string>, file: string,
                     lines: seq<string>, n: nat, skip: bool): Result<Loaded, Error>
    decreases fs.Keys - active, 1, |lines|
  {
    if lines == [] then Ok(Loaded([], skip))
    else
      match LoadLine(fs, options, active, file, lines[0], n, skip)
      case Err(e) => Err(e)
      case Ok(one) =>
        match LoadLines(fs, options, active, file, lines[1..], n + 1, one.skip)
        case Err(e) => Err(e)
        case Ok(more) => Ok(Loaded(one.args + more.args, more.skip))
  }

  function LoadLine(fs: Files, options: set<string>, active: set<string>, file: string,
                    line: string, n: nat, skip: bool): Result<Loaded, Error>
    decreases fs.Keys - active, 1, 0
  {
    match ReadLine(line)
    case Ignored => Ok(Loaded([], skip))
    case Malformed(e) => Err(e)
    case Plain(v, separator) => Ok(Loaded([Arg(v, file, n)], skip || separator))
    case Valued(o, v) =>
      if skip || o !in options then Ok(Loaded([Arg(o, file, n), Arg(v, file, n)], skip))
      else if v == "" then Err(MissingValue(o))
      else Load(fs, options, active, v, skip)
  }

  /** The arguments delivered and, if delivery stops early, why. */
  datatype Expansion = Expansion(args: seq<Arg>, error: Option<Error>)

  function Precede(args: seq<Arg>, x: Expansion): Expansion {
    x.(args := args + x.args)
  }

  /** How many arguments a file option takes here and which file it names: none if there is no such option. */
  datatype FileOption = NotFileOption | Names(file: string, width: nat) | Dangling(option: string)

  function FindFileOption(options: set<string>, argv: seq<string>, skip: bool): (r: FileOption)
    requires argv != []
    ensures r.Names? ==> 1 <= r.width <= |argv|
  {
    var a := argv[0];
    var cut := IndexOf(a, '=');
    if skip then NotFileOption
    else if a in options then
      if |argv| == 1 then Dangling(a) else Names(argv[1], 2)
    else if a != "" && a[0] == '-' && cut < |a| && a[..cut] in options then Names(a[cut + 1..], 1)
    else NotFileOption
  }

  /** Each file option replaced in place by what its file loads to, the flag threaded left to right. */
  function Expand(fs: Files, options: set<string>, argv: seq<string>, skip: bool): Expansion
    decreases |argv|
  {
    if argv == [] then Expansion([], None)
    else
      match FindFileOption(options, argv, skip)
      case Dangling(o) => Expansion([], Some(MissingValue(o)))
      case NotFileOption =>
        Precede([Arg(argv[0], "", 0)], Expand(fs, options, argv[1..], skip || argv[0] == "--"))
      case Names(file, width) =>
        match Load(fs, options, {}, file, skip)
        case Err(e) => Expansion([], Some(e))
        case Ok(loaded) => Precede(loaded.args, Expand(fs, options, argv[width..], loaded.skip))
  }

  /** The flag once a whole vector has been delivered. */
  function SkipAfter(fs: Files, options: set<string>, argv: seq<string>, skip: bool): bool
    decreases |argv|
  {
    if argv == [] then skip
    else
      match FindFileOption(options, argv, skip)
      case Dangling(_) => skip
      case NotFileOption => SkipAfter(fs, options, argv[1..], skip || argv[0] == "--")
      case Names(file, width) =>
        match Load(fs, options, {}, file, skip)
        case Err(_) => skip
        case Ok(loaded) => SkipAfter(fs, options, argv[width..], loaded.skip)
  }

  /** A vector that expands to the end does so whatever follows it; only the flag is handed on. */
  lemma {:induction false} ExpandAppend(fs: Files, options: set<string>, a: seq<string>, b: seq<string>, skip: bool)
    requires Expand(fs, options, a, skip).error.None?
    ensures Expand(fs, options, a + b, skip) ==
              Precede(Expand(fs, options, a, skip).args, Expand(fs, options, b, SkipAfter(fs, options, a, skip)))
    decreases |a|
  {
    if a == [] {
      assert a + b == b;
      var x := Expand(fs, options, b, skip);
      assert [] + x.args == x.args;
    } else {
      FindAppend(options, a, b, skip);
      match FindFileOption(options, a, skip)
      case NotFileOption =>
        var skip' := skip || a[0] == "--";
        assert (a + b)[1..] == a[1..] + b;
        ExpandAppend(fs, options, a[1..], b, skip');
        PrecedeTwice([Arg(a[0], "", 0)], Expand(fs, options, a[1..], skip').args,
                     Expand(fs, options, b, SkipAfter(fs, options, a[1..], skip')));
      case Names(file, width) =>
        var loaded := Load(fs, options, {}, file, skip).value;
        assert (a + b)[width..] == a[width..] + b;
        ExpandAppend(fs, options, a[width..], b, loaded.skip);
        PrecedeTwice(loaded.args, Expand(fs, options, a[width..], loaded.skip).args,
                     Expand(fs, options, b, SkipAfter(fs, options, a[width..], loaded.skip)));
    }
  }

  lemma FindAppend(options: set<string>, a: seq<string>, b: seq<string>, skip: bool)
    requires a != [] && !FindFileOption(options, a, skip).Dangling?
    ensures FindFileOption(options, a + b, skip) == FindFileOption(options, a, skip) && (a + b)[0] == a[0]
  {
    assert |a| > 1 ==> (a + b)[1] == a[1];
  }

  lemma PrecedeTwice(a: seq<Arg>, b: seq<Arg>, x: Expansion)
    ensures Precede(a, Precede(b, x)) == Precede(a + b, x)
  {
    Associative(a, b, x.args);
  }

  function Verbatim(argv: seq<string>): seq<Arg> {
    if argv == [] then [] else [Arg(argv[0], "", 0)] + Verbatim(argv[1..])
  }

  /** Once the flag is set nothing is taken for a file option any more. */
  lemma {:induction false} SkippedIsVerbatim(fs: Files, options: set<string>, argv: seq<string>)
    ensures Expand(fs, options, argv, true) == Expansion(Verbatim(argv), None)
  {
    if argv != [] {
      SkippedIsVerbatim(fs, options, argv[1..]);
    }
  }

  // ---- Spellings of a line ------------------------------------------------------------------------

  predicate AllBlank(s: string) {
    forall c :: c in s ==> c == ' ' || c == '\t' || c == '\r'
  }

  lemma {:induction false} TrimLeftPadding(a: string, s: string)
    requires AllBlank(a)
    ensures TrimLeft(a + s) == TrimLeft(s)
  {
    if a == "" {
      assert a + s == s;
    } else {
      assert a[0] in a && (a + s)[1..] == a[1..] + s;
      assert forall c :: c in a[1..] ==> c in a;
      TrimLeftPadding(a[1..], s);
    }
  }

  lemma {:induction false} TrimRightPadding(s: string, b: string)
    requires AllBlank(b)
    ensures TrimRight(s + b) == TrimRight(s)
  {
    if b == "" {
      assert s + b == s;
    } else {
      var n := |b| - 1;
      assert b[n] in b && (s + b)[..|s| + n] == s + b[..n];
      assert forall c :: c in b[..n] ==> c in b;
      TrimRightPadding(s, b[..n]);
    }
  }

  lemma {:induction false} TrimPadding(s: string, b: string)
    requires AllBlank(b)
    ensures TrimRight(TrimLeft(s + b)) == TrimRight(TrimLeft(s))
  {
    if s == "" {
      assert s + b == b + "";
      TrimLeftPadding(b, "");
    } else if IsBlank(s[0]) {
      assert (s + b)[1..] == s[1..] + b;
      TrimPadding(s[1..], b);
    } else {
      TrimRightPadding(s, b);
    }
  }

  /** Blanks around a line do not matter. */
  lemma PaddingIsIgnored(a: string, line: string, b: string)
    requires AllBlank(a) && AllBlank(b)
    ensures ReadLine(a + line + b) == ReadLine(line)
  {
    hide ReadTrimmed, TrimLeft, TrimRight;
    Associative(a, line, b);
    TrimLeftPadding(a, line + b);
    TrimPadding(line, b);
  }

  /** A name that a line is cut right behind. */
  predicate IsOptionName(o: string) {
    o != "" && o[0] == '-' && ' ' !in o && '=' !in o
  }

  lemma CutBehindName(o: string, c: char, rest: string)
    requires IsOptionName(o) && (c == ' ' || c == '=')
    ensures ReadTrimmed(o + [c] + rest) == ReadValue(o, if c == '=' then rest else TrimLeft(rest))
  {
    var line := o + [c] + rest;
    var other := if c == ' ' then '=' else ' ';
    assert line[0] == '-';
    IndexOfFirst(o, c, rest);
    IndexOfBeyond(o + [c], rest, other);
    assert line[..|o|] == o && line[|o|] == c && line[|o| + 1..] == rest;
  }

  lemma OptionLineReads(o: string, c: char, rest: string)
    requires IsOptionName(o) && (c == ' ' || c == '=') && rest != "" && !IsBlank(rest[|rest| - 1])
    ensures ReadLine(o + [c] + rest) == ReadValue(o, if c == '=' then rest else TrimLeft(rest))
  {
    hide ReadTrimmed, ReadValue;
    var line := o + [c] + rest;
    assert line[0] == '-' && line[|line| - 1] == rest[|rest| - 1];
    NothingToTrim(line);
    CutBehindName(o, c, rest);
  }

  /** An unquoted value may follow its option after `=` or after blanks. */
  lemma SpellingsAgree(o: string, pad: string, v: string)
    requires IsOptionName(o) && AllBlank(pad)
    requires v != "" && !IsBlank(v[0]) && !IsBlank(v[|v| - 1]) && !IsQuote(v[0]) && !IsQuote(v[|v| - 1])
    ensures ReadLine(o + ['='] + v) == ReadLine(o + [' '] + (pad + v)) == Valued(o, v)
  {
    hide ReadLine;
    OptionLineReads(o, '=', v);
    OptionLineReads(o, ' ', pad + v);
    TrimLeftPadding(pad, v);
  }

  // ---- Writing a file that loads back ---------------------------------------------------------

  /** An option with its value, or a plain argument. */
  datatype Entry = Named(option: string, value: string) | Positional(value: string)

  /** Names that a line can be cut after and that do not name another file. */
  predicate Writable(e: Entry, options: set<string>) {
    && '\n' !in e.value
    && (e.Named? ==> IsOptionName(e.option) && e.option !in options && '\n' !in e.option)
  }

  predicate AllWritable(es: seq<Entry>, options: set<string>) {
    forall i :: 0 <= i < |es| ==> Writable(es[i], options)
  }

  function Quoted(v: string, q: char): string {
    [q] + v + [q]
  }

  function WriteEntry(e: Entry, q: char): string {
    match e
    case Named(o, v) => o + " " + Quoted(v, q)
    case Positional(v) => Quoted(v, q)
  }

  /** One entry per line, every line ended. */
  function Write(es: seq<Entry>, q: char): string {
    if es == [] then "" else WriteEntry(es[0], q) + "\n" + Write(es[1..], q)
  }

  function WriteLines(es: seq<Entry>, q: char): seq<string> {
    if es == [] then [""] else [WriteEntry(es[0], q)] + WriteLines(es[1..], q)
  }

  function Flattened(es: seq<Entry>, file: string, n: nat): seq<Arg> {
    if es == [] then []
    else
      (match es[0]
       case Named(o, v) => [Arg(o, file, n), Arg(v, file, n)]
       case Positional(v) => [Arg(v, file, n)])
      + Flattened(es[1..], file, n + 1)
  }

  lemma QuotedReads(v: string, q: char)
    requires IsQuote(q)
    ensures Unquote(Quoted(v, q)) == Ok(v)
    ensures TrimLeft(Quoted(v, q)) == Quoted(v, q) && TrimRight(Quoted(v, q)) == Quoted(v, q)
  {
    assert Quoted(v, q)[1..|Quoted(v, q)| - 1] == v;
  }

  lemma NothingToTrim(s: string)
    requires s != "" && !IsBlank(s[0]) && !IsBlank(s[|s| - 1])
    ensures TrimRight(TrimLeft(s)) == s
  {
  }

  lemma WrittenLineReads(e: Entry, options: set<string>, q: char)
    requires Writable(e, options) && IsQuote(q)
    ensures '\n' !in WriteEntry(e, q)
    ensures ReadLine(WriteEntry(e, q)) == if e.Named? then Valued(e.option, e.value) else Plain(e.value, false)
  {
    if e.Named? {
      NamedLineReads(e.option, e.value, q);
    } else {
      QuotedReads(e.value, q);
      assert WriteEntry(e, q)[0] == q;
    }
  }

  lemma NamedLineReads(o: string, v: string, q: char)
    requires IsOptionName(o) && IsQuote(q)
    ensures ReadLine(o + " " + Quoted(v, q)) == Valued(o, v)
  {
    hide ReadLine;
    assert Quoted(v, q) != "";
    OptionLineReads(o, ' ', Quoted(v, q));
    QuotedReads(v, q);
  }

  lemma {:induction false} WrittenLines(es: seq<Entry>, options: set<string>, q: char)
    requires AllWritable(es, options) && IsQuote(q)
    ensures Lines(Write(es, q)) == WriteLines(es, q)
  {
    if es != [] {
      var line, rest := WriteEntry(es[0], q), Write(es[1..], q);
      WrittenLineReads(es[0], options, q);
      IndexOfFirst(line, '\n', rest);
      var content := Write(es, q);
      assert content == line + ['\n'] + rest;
      assert content[..|line|] == line && content[|line| + 1..] == rest;
      WrittenLines(es[1..], options, q);
    }
  }

  lemma {:induction false} WrittenLoads(fs: Files, options: set<string>, active: set<string>, file: string,
                                        es: seq<Entry>, q: char, n: nat)
    requires AllWritable(es, options) && IsQuote(q)
    ensures LoadLines(fs, options, active, file, WriteLines(es, q), n, false) ==
              Ok(Loaded(Flattened(es, file, n), false))
    decreases |es|
  {
    var lines := WriteLines(es, q);
    if es == [] {
      assert ReadLine("") == Ignored;
      assert LoadLine(fs, options, active, file, lines[0], n, false) == Ok(Loaded([], false));
      assert LoadLines(fs, options, active, file, lines[1..], n + 1, false) == Ok(Loaded([], false));
      var none: seq<Arg> := [];
      assert none + none == none;
    } else {
      WrittenLineReads(es[0], options, q);
      WrittenLoads(fs, options, active, file, es[1..], q, n + 1);
      assert lines[1..] == WriteLines(es[1..], q);
    }
  }

  /**
   Writing options with their values and plain arguments one per line, each value in quotes, loads
   back as exactly those options, values and arguments, and never as the end of the options.
   */
  lemma QuotingRoundTrip(fs: Files, options: set<string>, active: set<string>, file: string,
                         es: seq<Entry>, q: char)
    requires file in fs && file !in active && fs[file] == Write(es, q)
    requires AllWritable(es, options) && (q == '"' || q == '\'')
    ensures Load(fs, options, active, file, false) == Ok(Loaded(Flattened(es, file, 1), false))
  {
    WrittenLines(es, options, q);
    WrittenLoads(fs, options, active + {file}, file, es, q, 1);
  }
}
