/**
 The parse loop that every generated options class has, over an abstract class of options: flags,
 options with a value, `--option=value` and combined flags `-abc`. It never takes a token back and
 looks at the options parsed so far only to update them, which is what the laws below rest on.
 */
module OptionParser {
  import opened Common

  datatype Failure =
    | Missing(option: string)
    | Invalid(option: string, value: string)
    | UnknownOption(option: string)
    | UnknownArgument(argument: string)

  datatype Mode = Stop | Fail

  /**
   An options class: its option names and what each does to the options parsed so far, and, for
   commands that work on configurations, what `@name` does to them.
   */
  datatype Grammar<!O> = Grammar(
    flags: set<string>,
    valued: set<string>,
    set_: (O, string) -> O,
    put: (O, string, string) -> Option<O>,
    configName: Option<(O, string) -> O>)

  predicate Known<O>(g: Grammar<O>, name: string) {
    name in g.flags || name in g.valued
  }

  /** What looking an option up in the class and parsing it there comes to. */
  datatype Hit<+O> = NotKnown | Parsed(opts: O, used: nat) | Bad(failure: Failure)

  function Lookup<O>(g: Grammar<O>, o: O, name: string, ts: seq<string>): (r: Hit<O>)
    ensures r.Parsed? ==> r.used == 1 || (r.used == 2 && |ts| >= 2)
  {
    if name in g.flags then Parsed(g.set_(o, name), 1)
    else if name in g.valued then
      if |ts| < 2 then Bad(Missing(name))
      else
        match g.put(o, name, ts[1])
        case None => Bad(Invalid(name, ts[1]))
        case Some(o') => Parsed(o', 2)
    else NotKnown
  }

  /** The letters of `-abc` taken as flags one by one. */
  datatype Letters<+O> = All(opts: O) | Until(opts: O, letter: char) | Broken(failure: Failure)

  function TakeLetters<O>(g: Grammar<O>, o: O, letters: string): Letters<O> {
    if letters == "" then All(o)
    else
      var name := ['-', letters[0]];
      match Lookup(g, o, name, [name])
      case NotKnown => Until(o, letters[0])
      case Bad(e) => Broken(e)
      case Parsed(o', _) => TakeLetters(g, o', letters[1..])
  }

  predicate IsLetter(c: char) {
    'a' <= c <= 'z' || 'A' <= c <= 'Z' || '0' <= c <= '9'
  }

  /** Flags may be combined whose letters are among these. */
  lemma LetterExactly(c: char)
    ensures IsLetter(c) <==>
              c in "abcdefghijklmnopqrstuvwxyz" || c in "ABCDEFGHIJKLMNOPQRSTUVWXYZ" || c in "0123456789"
  {
    LettersInOrder("abcdefghijklmnopqrstuvwxyz", 'a', c);
    LettersInOrder("ABCDEFGHIJKLMNOPQRSTUVWXYZ", 'A', c);
    LettersInOrder("0123456789", '0', c);
  }

  lemma LettersInOrder(s: string, first: char, c: char)
    requires forall k :: 0 <= k < |s| ==> s[k] as int == first as int + k
    ensures c in s <==> first as int <= c as int < first as int + |s|
  {
    if first as int <= c as int < first as int + |s| {
      assert s[c as int - first as int] == c;
    }
  }

  predicate AllLetters(s: string) {
    forall c :: c in s ==> IsLetter(c)
  }

  /** One round of the loop: consume tokens and go on, stop in front of a token, or fail. */
  datatype Round<+O> = Go(opts: O, used: nat) | Halt(opts: O) | Throw(failure: Failure)

  predicate LooksLikeOption(t: string) {
    |t| > 1 && t[0] == '-'
  }

  function Step<O>(g: Grammar<O>, om: Mode, am: Mode, o: O, ts: seq<string>): (r: Round<O>)
    requires ts != []
    ensures r.Go? ==> 1 <= r.used <= |ts|
  {
    var t := ts[0];
    if t == "--" then Argument(am, o, t)
    else
      match Lookup(g, o, t, ts)
      case Parsed(o', used) => Go(o', used)
      case Bad(e) => Throw(e)
      case NotKnown => if LooksLikeOption(t) then Combined(g, om, o, t) else Argument(am, o, t)
  }

  function Argument<O>(am: Mode, o: O, t: string): (r: Round<O>)
    ensures !r.Go?
  {
    if am.Stop? then Halt(o) else Throw(UnknownArgument(t))
  }

  /** A token that looks like an option but is none: `--option=value`, or combined flags. */
  function Combined<O>(g: Grammar<O>, om: Mode, o: O, t: string): (r: Round<O>)
    requires LooksLikeOption(t)
    ensures r.Go? ==> r.used == 1
  {
    var cut := IndexOf(t, '=');
    if cut == |t| then Flags(g, om, o, t)
    else
      var name, v := t[..cut], t[cut + 1..];
      match Lookup(g, o, name, [name, v])
      case Parsed(o', used) => if used == 2 then Go(o', 1) else Throw(Invalid(name, v))
      case Bad(e) => Throw(e)
      case NotKnown => Flags(g, om, o, name)
  }

  function Flags<O>(g: Grammar<O>, om: Mode, o: O, t: string): (r: Round<O>)
    requires t != ""
    ensures r.Go? ==> r.used == 1
  {
    if !AllLetters(t[1..]) then Unrecognized(om, o, t)
    else
      match TakeLetters(g, o, t[1..])
      case All(o') => Go(o', 1)
      case Until(o', c) => Unrecognized(om, o', ['-', c])
      case Broken(e) => Throw(e)
  }

  function Unrecognized<O>(om: Mode, o: O, t: string): (r: Round<O>)
    ensures !r.Go?
  {
    if om.Stop? then Halt(o) else Throw(UnknownOption(t))
  }

  /** The options parsed and the tokens in front of which parsing stopped, or why it failed. */
  datatype Outcome<+O> = Done(opts: O, rest: seq<string>) | Failed(failure: Failure)

  function Parse<O>(g: Grammar<O>, om: Mode, am: Mode, o: O, ts: seq<string>): (r: Outcome<O>)
    ensures r.Done? ==> |r.rest| <= |ts|
    decreases |ts|
  {
    if ts == [] then Done(o, [])
    else
      match Step(g, om, am, o, ts)
      case Go(o', used) => Parse(g, om, am, o', ts[used..])
      case Halt(o') => Done(o', ts)
      case Throw(e) => Failed(e)
  }

  // ---- The loop itself -------------------------------------------------------------------------

  /** Take the letters one at a time. */
  method ParseLetters<O>(g: Grammar<O>, o: O, letters: string) returns (r: Letters<O>)
    ensures r == TakeLetters(g, o, letters)
  {
    var x := o;
    var k := 0;
    assert letters[0..] == letters;
    while k < |letters|
      invariant 0 <= k <= |letters|
      invariant TakeLetters(g, x, letters[k..]) == TakeLetters(g, o, letters)
    {
      var name := ['-', letters[k]];
      assert letters[k..][0] == letters[k] && letters[k..][1..] == letters[k + 1..];
      match Lookup(g, x, name, [name])
      case NotKnown => return Until(x, letters[k]);
      case Bad(e) => return Broken(e);
      case Parsed(o', _) =>
        x := o';
        k := k + 1;
    }
    r := All(x);
  }

  /** A token that looks like an option and is none. */
  method ParseCombined<O>(g: Grammar<O>, om: Mode, o: O, t: string) returns (r: Round<O>)
    requires LooksLikeOption(t)
    ensures r == Combined(g, om, o, t)
  {
    var x, name := o, t;
    var cut := IndexOf(t, '=');
    if cut < |t| {
      name := t[..cut];
      var v := t[cut + 1..];
      var hit := Lookup(g, x, name, [name, v]);
      if hit.Bad? {
        return Throw(hit.failure);
      }
      if hit.Parsed? {
        return if hit.used == 2 then Go(hit.opts, 1) else Throw(Invalid(name, v));
      }
    }
    if AllLetters(name[1..]) {
      var taken := ParseLetters(g, x, name[1..]);
      match taken
      case All(o') => return Go(o', 1);
      case Broken(e) => return Throw(e);
      case Until(o', c) => x, name := o', ['-', c];
    }
    r := if om.Fail? then Throw(UnknownOption(name)) else Halt(x);
  }

  /** The parse loop; `any` tells whether anything was parsed, that is, any token consumed. */
  method ParseLoop<O>(g: Grammar<O>, om: Mode, am: Mode, o: O, ts: seq<string>)
    returns (r: Outcome<O>, any: bool)
    ensures r == Parse(g, om, am, o, ts)
    ensures r.Done? ==> (any <==> |r.rest| < |ts|)
  {
    any := false;
    var x, left := o, ts;
    while left != []
      invariant |left| <= |ts| && any == (|left| < |ts|)
      invariant Parse(g, om, am, x, left) == Parse(g, om, am, o, ts)
      decreases |left|
    {
      var t := left[0];
      if t != "--" {
        var hit := Lookup(g, x, t, left);
        if hit.Parsed? {
          x, left, any := hit.opts, left[hit.used..], true;
          continue;
        }
        if hit.Bad? {
          return Failed(hit.failure), any;
        }
        if LooksLikeOption(t) {
          var round := ParseCombined(g, om, x, t);
          match round
          case Go(o', _) =>
            x, left, any := o', left[1..], true;
            continue;
          case Throw(e) => return Failed(e), any;
          case Halt(o') => return Done(o', left), any;
        }
      }
      return if am.Fail? then Failed(UnknownArgument(t)) else Done(x, left), any;
    }
    r := Done(x, []);
  }

  // ---- Parsing and merging ---------------------------------------------------------------------

  /** A way to merge options that undoes nothing and that every option's effect is an instance of. */
  ghost predicate Additive<O(!new)>(g: Grammar<O>, unset: O, merge: (O, O) -> O) {
    && (forall a :: merge(a, unset) == a)
    && (forall a, b, c :: merge(merge(a, b), c) == merge(a, merge(b, c)))
    && (forall a, name :: name in g.flags ==> g.set_(a, name) == merge(a, g.set_(unset, name)))
    && (forall a, name, v :: name in g.valued ==> g.put(a, name, v) == MergePut(merge, a, g.put(unset, name, v)))
  }

  function MergePut<O>(merge: (O, O) -> O, a: O, b: Option<O>): Option<O> {
    if b.None? then None else Some(merge(a, b.value))
  }

  function MergeHit<O>(merge: (O, O) -> O, a: O, h: Hit<O>): Hit<O> {
    if h.Parsed? then h.(opts := merge(a, h.opts)) else h
  }

  function MergeLetters<O>(merge: (O, O) -> O, a: O, l: Letters<O>): Letters<O> {
    match l
    case All(b) => All(merge(a, b))
    case Until(b, c) => Until(merge(a, b), c)
    case Broken(e) => Broken(e)
  }

  function MergeRound<O>(merge: (O, O) -> O, a: O, r: Round<O>): Round<O> {
    match r
    case Go(b, used) => Go(merge(a, b), used)
    case Halt(b) => Halt(merge(a, b))
    case Throw(e) => Throw(e)
  }

  function MergeOutcome<O>(merge: (O, O) -> O, a: O, r: Outcome<O>): Outcome<O> {
    if r.Done? then r.(opts := merge(a, r.opts)) else r
  }

  lemma LookupMerges<O(!new)>(g: Grammar<O>, unset: O, merge: (O, O) -> O, a: O, b: O, name: string, ts: seq<string>)
    requires Additive(g, unset, merge)
    ensures Lookup(g, merge(a, b), name, ts) == MergeHit(merge, a, Lookup(g, b, name, ts))
  {
    if name in g.flags {
      var s := g.set_(unset, name);
      assert g.set_(merge(a, b), name) == merge(merge(a, b), s) == merge(a, merge(b, s));
      assert g.set_(b, name) == merge(b, s);
    } else if name in g.valued && |ts| >= 2 {
      var p := g.put(unset, name, ts[1]);
      if p.Some? {
        assert merge(merge(a, b), p.value) == merge(a, merge(b, p.value));
      }
    }
  }

  lemma {:induction false} LettersMerge<O(!new)>(g: Grammar<O>, unset: O, merge: (O, O) -> O, a: O, b: O,
                                                 letters: string)
    requires Additive(g, unset, merge)
    ensures TakeLetters(g, merge(a, b), letters) == MergeLetters(merge, a, TakeLetters(g, b, letters))
    decreases |letters|
  {
    if letters != "" {
      var name := ['-', letters[0]];
      LookupMerges(g, unset, merge, a, b, name, [name]);
      var h := Lookup(g, b, name, [name]);
      if h.Parsed? {
        LettersMerge(g, unset, merge, a, h.opts, letters[1..]);
      }
    }
  }

  lemma StepMerges<O(!new)>(g: Grammar<O>, unset: O, merge: (O, O) -> O, om: Mode, am: Mode, a: O, b: O,
                            ts: seq<string>)
    requires Additive(g, unset, merge) && ts != []
    ensures Step(g, om, am, merge(a, b), ts) == MergeRound(merge, a, Step(g, om, am, b, ts))
  {
    hide TakeLetters, Lookup;
    var t := ts[0];
    LookupMerges(g, unset, merge, a, b, t, ts);
    if LooksLikeOption(t) {
      var cut := IndexOf(t, '=');
      if cut < |t| {
        LookupMerges(g, unset, merge, a, b, t[..cut], [t[..cut], t[cut + 1..]]);
        LettersMerge(g, unset, merge, a, b, if cut == 0 then "" else t[..cut][1..]);
      } else {
        LettersMerge(g, unset, merge, a, b, t[1..]);
      }
    }
  }

  /** Parsing into options that already hold something is parsing afresh and merging. */
  lemma {:induction false} ParseMerges<O(!new)>(g: Grammar<O>, unset: O, merge: (O, O) -> O, om: Mode, am: Mode,
                                                a: O, b: O, ts: seq<string>)
    requires Additive(g, unset, merge)
    ensures Parse(g, om, am, merge(a, b), ts) == MergeOutcome(merge, a, Parse(g, om, am, b, ts))
    decreases |ts|
  {
    if ts != [] {
      StepMerges(g, unset, merge, om, am, a, b, ts);
      var s := Step(g, om, am, b, ts);
      if s.Go? {
        ParseMerges(g, unset, merge, om, am, a, s.opts, ts[s.used..]);
      }
    }
  }

  /** A round that goes on looks at no token but those it consumes. */
  lemma StepAppend<O>(g: Grammar<O>, om: Mode, am: Mode, o: O, xs: seq<string>, ys: seq<string>)
    requires xs != [] && Step(g, om, am, o, xs).Go?
    ensures Step(g, om, am, o, xs + ys) == Step(g, om, am, o, xs)
  {
    assert (xs + ys)[0] == xs[0] && (|xs| > 1 ==> (xs + ys)[1] == xs[1]);
  }

  /** Tokens parsed to the end parse the same in front of any others. */
  lemma {:induction false} ParseAppend<O>(g: Grammar<O>, om: Mode, am: Mode, o: O, xs: seq<string>, ys: seq<string>)
    requires Parse(g, om, am, o, xs).Done? && Parse(g, om, am, o, xs).rest == []
    ensures Parse(g, om, am, o, xs + ys) == Parse(g, om, am, Parse(g, om, am, o, xs).opts, ys)
    decreases |xs|
  {
    if xs == [] {
      assert xs + ys == ys;
    } else {
      StepAppend(g, om, am, o, xs, ys);
      var s := Step(g, om, am, o, xs);
      assert (xs + ys)[s.used..] == xs[s.used..] + ys;
      ParseAppend(g, om, am, s.opts, xs[s.used..], ys);
    }
  }

  /**
   Parsing is a homomorphism into merging: if `xs` parses to the end, then parsing `xs` followed by
   anything is merging the options of the two parsed on their own.
   */
  lemma ParseHomomorphism<O(!new)>(g: Grammar<O>, unset: O, merge: (O, O) -> O, om: Mode, am: Mode,
                                   xs: seq<string>, ys: seq<string>)
    requires Additive(g, unset, merge)
    requires Parse(g, om, am, unset, xs).Done? && Parse(g, om, am, unset, xs).rest == []
    ensures Parse(g, om, am, unset, xs + ys) ==
              MergeOutcome(merge, Parse(g, om, am, unset, xs).opts, Parse(g, om, am, unset, ys))
  {
    var a := Parse(g, om, am, unset, xs).opts;
    ParseAppend(g, om, am, unset, xs, ys);
    ParseMerges(g, unset, merge, om, am, a, unset, ys);
    assert merge(a, unset) == a;
  }

  // ---- What stops the loop -----------------------------------------------------------------------

  /** What is no option at all stops the loop or fails it, by the mode for arguments. */
  lemma ArgumentStops<O>(g: Grammar<O>, om: Mode, o: O, t: string, rest: seq<string>)
    requires t == "--" || (!Known(g, t) && (|t| < 2 || t[0] != '-'))
    ensures Parse(g, om, Stop, o, [t] + rest) == Done(o, [t] + rest)
    ensures Parse(g, om, Fail, o, [t] + rest) == Failed(UnknownArgument(t))
  {
    assert ([t] + rest)[0] == t;
  }

  /** What looks like an option, but is none and cannot be combined flags, does so by the mode for options. */
  lemma UnknownOptionStops<O>(g: Grammar<O>, am: Mode, o: O, t: string, rest: seq<string>)
    requires !Known(g, t) && |t| > 1 && t[0] == '-' && t != "--" && '=' !in t
    requires !AllLetters(t[1..])
    ensures Parse(g, Stop, am, o, [t] + rest) == Done(o, [t] + rest)
    ensures Parse(g, Fail, am, o, [t] + rest) == Failed(UnknownOption(t))
  {
    assert ([t] + rest)[0] == t;
    assert IndexOf(t, '=') == |t|;
  }

  /** Of combined letters, those before the first unknown one have had their effect by then. */
  lemma UnknownLetterStops<O>(g: Grammar<O>, am: Mode, o: O, known: string, c: char, more: string, rest: seq<string>)
    requires FlagLetters(g, known) && IsLetter(c) && AllLetters(more) && !Known(g, ['-', c])
    requires !Known(g, "-" + (known + ([c] + more)))
    ensures
      var t := "-" + (known + ([c] + more));
      && TakeLetters(g, o, known).All?
      && Parse(g, Stop, am, o, [t] + rest) == Done(TakeLetters(g, o, known).opts, [t] + rest)
      && Parse(g, Fail, am, o, [t] + rest) == Failed(UnknownOption(['-', c]))
  {
    var letters := known + ([c] + more);
    var t := "-" + letters;
    assert ([t] + rest)[0] == t && t[1..] == letters;
    assert AllLetters(letters);
    assert t != "--" by {
      assert t[1] in letters;
    }
    assert '=' !in letters;
    assert '=' !in t;
    assert IndexOf(t, '=') == |t|;
    LettersUntil(g, o, known, c, more);
  }

  lemma {:induction false} LettersUntil<O>(g: Grammar<O>, o: O, known: string, c: char, more: string)
    requires FlagLetters(g, known) && !Known(g, ['-', c])
    ensures TakeLetters(g, o, known).All?
    ensures TakeLetters(g, o, known + ([c] + more)) == Until(TakeLetters(g, o, known).opts, c)
    decreases |known|
  {
    if known == "" {
      assert known + ([c] + more) == [c] + more;
    } else {
      assert (known + ([c] + more))[1..] == known[1..] + ([c] + more);
      assert known[0] in known;
      LettersUntil(g, g.set_(o, ['-', known[0]]), known[1..], c, more);
    }
  }

  /** A value joined to a flag is refused. */
  lemma FlagTakesNoValue<O>(g: Grammar<O>, om: Mode, am: Mode, o: O, name: string, v: string, rest: seq<string>)
    requires name in g.flags && name != "" && name[0] == '-' && '=' !in name && !Known(g, name + "=" + v)
    ensures Parse(g, om, am, o, [name + "=" + v] + rest) == Failed(Invalid(name, v))
  {
    JoinedStep(g, om, am, o, name, v, rest);
  }

  // ---- Desugaring ------------------------------------------------------------------------------

  function Dashed(letters: string): seq<string> {
    if letters == "" then [] else [['-', letters[0]]] + Dashed(letters[1..])
  }

  predicate FlagLetters<O>(g: Grammar<O>, letters: string) {
    forall c :: c in letters ==> IsLetter(c) && ['-', c] in g.flags
  }

  lemma {:induction false} DashedParses<O>(g: Grammar<O>, om: Mode, am: Mode, o: O, letters: string, ts: seq<string>)
    requires FlagLetters(g, letters)
    ensures TakeLetters(g, o, letters).All?
    ensures Parse(g, om, am, o, Dashed(letters) + ts) == Parse(g, om, am, TakeLetters(g, o, letters).opts, ts)
    decreases |letters|
  {
    if letters == "" {
      assert Dashed(letters) + ts == ts;
    } else {
      var name := ['-', letters[0]];
      assert letters[0] in letters;
      var all := Dashed(letters) + ts;
      assert all[0] == name && all[1..] == Dashed(letters[1..]) + ts;
      assert IsLetter(name[1]) && name != "--";
      DashedParses(g, om, am, g.set_(o, name), letters[1..], ts);
    }
  }

  /** Combined flags are the flags one by one. */
  lemma CombinedFlagsDesugar<O>(g: Grammar<O>, om: Mode, am: Mode, o: O, letters: string, ts: seq<string>)
    requires letters != "" && FlagLetters(g, letters) && !Known(g, "-" + letters)
    ensures Parse(g, om, am, o, ["-" + letters] + ts) == Parse(g, om, am, o, Dashed(letters) + ts)
  {
    var t := "-" + letters;
    var all := [t] + ts;
    assert all[0] == t && all[1..] == ts && t[1..] == letters;
    assert IsLetter(letters[0]) && t[1] == letters[0];
    assert t != "--";
    assert '=' !in t;
    assert IndexOf(t, '=') == |t|;
    DashedParses(g, om, am, o, letters, ts);
  }

  /** `--option=value` is `--option value`. */
  lemma CombinedValueDesugars<O>(g: Grammar<O>, om: Mode, am: Mode, o: O, name: string, v: string, ts: seq<string>)
    requires name in g.valued && name !in g.flags && LooksLikeOption(name) && '=' !in name && name != "--"
    requires !Known(g, name + "=" + v)
    ensures Parse(g, om, am, o, [name + "=" + v] + ts) == Parse(g, om, am, o, [name, v] + ts)
  {
    var t := name + ['='] + v;
    IndexOfFirst(name, '=', v);
    assert t[..|name|] == name && t[|name| + 1..] == v;
    var one, two := [t] + ts, [name, v] + ts;
    assert one[0] == t && one[1..] == ts;
    assert two[0] == name && two[1] == v && two[2..] == ts;
    assert t[0] == name[0] && t != "--";
  }

  /** The options class with every value found unacceptable. */
  function RejectingValues<O>(g: Grammar<O>): Grammar<O> {
    g.(put := (o, name, v) => None)
  }

  lemma {:induction false} LettersTaken<O>(g: Grammar<O>, o: O, letters: string)
    requires AllLetters(letters)
    ensures TakeLetters(g, o, letters).All? <==> FlagLetters(g, letters)
    ensures TakeLetters(RejectingValues(g), o, letters) == TakeLetters(g, o, letters)
    decreases |letters|
  {
    if letters != "" {
      var name := ['-', letters[0]];
      assert forall c :: c in letters <==> c == letters[0] || c in letters[1..];
      if name in g.flags {
        LettersTaken(g, g.set_(o, name), letters[1..]);
      }
    }
  }

  /** What becomes of `name=v`, by what `name` is. */
  lemma JoinedStep<O>(g: Grammar<O>, om: Mode, am: Mode, o: O, name: string, v: string, ts: seq<string>)
    requires name != "" && name[0] == '-' && '=' !in name && !Known(g, name + "=" + v)
    ensures Step(g, om, am, o, [name + "=" + v] + ts) ==
              match Lookup(g, o, name, [name, v])
              case Parsed(o', used) => if used == 2 then Go(o', 1) else Throw(Invalid(name, v))
              case Bad(e) => Throw(e)
              case NotKnown => Flags(g, om, o, name)
  {
    var t := name + ['='] + v;
    IndexOfFirst(name, '=', v);
    assert t[..|name|] == name && t[|name| + 1..] == v && t[0] == '-';
    assert ([t] + ts)[0] == t;
    assert t != "--" by {
      assert '=' in t;
    }
  }

  /**
   The value in `name=v` is dropped, that is, the round goes on even if no value were acceptable, if
   and only if `name` is no option and all that follows its dash are letters of flags. It is then the
   same for every value.
   */
  lemma ValueDroppedExactly<O>(g: Grammar<O>, om: Mode, am: Mode, o: O, name: string, v: string, ts: seq<string>)
    requires name != "" && name[0] == '-' && '=' !in name && !Known(g, name + "=" + v)
    ensures
      var ts' := [name + "=" + v] + ts;
      var s := Step(RejectingValues(g), om, am, o, ts');
      && (s.Go? <==> !Known(g, name) && FlagLetters(g, name[1..]))
      && (s.Go? ==> s == Step(g, om, am, o, ts') && s.used == 1 && TakeLetters(g, o, name[1..]) == All(s.opts))
  {
    hide Step;
    JoinedStep(g, om, am, o, name, v, ts);
    JoinedStep(RejectingValues(g), om, am, o, name, v, ts);
    if AllLetters(name[1..]) {
      LettersTaken(g, o, name[1..]);
    }
  }

  /** So a value joined to combined flags is lost: the two spellings above do not compose. */
  lemma ValueAfterCombinedFlagsIsDropped<O>(g: Grammar<O>, om: Mode, am: Mode, o: O, letters: string, v: string,
                                            ts: seq<string>)
    requires FlagLetters(g, letters) && !Known(g, "-" + letters) && !Known(g, "-" + letters + "=" + v)
    ensures Parse(g, om, am, o, ["-" + letters + "=" + v] + ts) == Parse(g, om, am, o, Dashed(letters) + ts)
  {
    hide Step;
    var name := "-" + letters;
    assert '=' !in letters;
    assert name[1..] == letters;
    ValueDroppedExactly(g, om, am, o, name, v, ts);
    var all := [name + "=" + v] + ts;
    assert all[1..] == ts;
    DashedParses(g, om, am, o, letters, ts);
  }
}
