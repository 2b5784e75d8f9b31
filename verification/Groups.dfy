/**
 Grouped arguments, `{ -x }+ arg +{ -y }`, on token sequences: what the group scanner reads, the
 grammar it accepts, and the printer that turns arguments with their groups back into tokens.
 */
module Groups {
  import opened Common

  datatype Separator = NoSeparator | Open | Close | OpenPlus | ClosePlus

  datatype Error =
    | GroupSeparator(encountered: string, expected: string)
    | UnexpectedGroup(argument: string, group: string)
    | EndOfStream

  /** An argument together with everything its leading and trailing groups hold. */
  datatype Item = Item(arg: string, group: seq<string>)

  /** The items read and, if reading stopped early, why. */
  datatype Parsed = Parsed(items: seq<Item>, error: Option<Error>)

  function Sense(s: string): Separator {
    if s == "{" then Open
    else if s == "}" then Close
    else if s == "+{" then OpenPlus
    else if s == "}+" then ClosePlus
    else NoSeparator
  }

  predicate IsSeparator(s: string) {
    Sense(s) != NoSeparator
  }

  predicate IsEscaped(s: string) {
    |s| > 0 && s[0] == '\\' && IsSeparator(s[1..])
  }

  /** The value a token stands for. */
  function Value(s: string): string {
    if IsEscaped(s) then s[1..] else s
  }

  function Values(ss: seq<string>): seq<string> {
    if ss == [] then [] else [Value(ss[0])] + Values(ss[1..])
  }

  function Escape(s: string): string {
    if IsSeparator(s) then "\\" + s else s
  }

  function Escapes(ss: seq<string>): seq<string> {
    if ss == [] then [] else [Escape(ss[0])] + Escapes(ss[1..])
  }

  // ---- Reading ---------------------------------------------------------------------------------

  /** Whether groups are looked for before an argument or after it. */
  datatype Side = Before | After

  function Opening(side: Side): Separator {
    if side.Before? then Open else OpenPlus
  }

  function Closing(side: Side): Separator {
    if side.Before? then ClosePlus else Close
  }

  function Spelling(s: Separator): string {
    match s
    case NoSeparator => ""
    case Open => "{"
    case Close => "}"
    case OpenPlus => "+{"
    case ClosePlus => "}+"
  }

  /** The values of the tokens up to the first separator. */
  function BodyValues(ts: seq<string>): seq<string> {
    if ts == [] || IsSeparator(ts[0]) then [] else [Value(ts[0])] + BodyValues(ts[1..])
  }

  /** The tokens from the first separator on. */
  function AfterBody(ts: seq<string>): (r: seq<string>)
    ensures |r| <= |ts| && (r != [] ==> IsSeparator(r[0]))
  {
    if ts == [] || IsSeparator(ts[0]) then ts else AfterBody(ts[1..])
  }

  /** Nothing more to scan on this side: an argument, or the leading group of the next one. */
  predicate Stops(side: Side, ts: seq<string>) {
    ts == [] || !IsSeparator(ts[0]) || (side.After? && Sense(ts[0]) == Open)
  }

  /** The values of all groups on one side and the tokens that follow them. */
  function ReadGroups(side: Side, ts: seq<string>): (r: Result<(seq<string>, seq<string>), Error>)
    ensures r.Ok? ==> |r.value.1| <= |ts| && Stops(side, r.value.1)
    ensures r.Ok? && side.Before? && ts != [] ==> r.value.1 != []
    decreases |ts|
  {
    if Stops(side, ts) then Ok(([], ts))
    else if Sense(ts[0]) != Opening(side) then Err(GroupSeparator(ts[0], ""))
    else
      var closing := AfterBody(ts[1..]);
      var expected := Spelling(Closing(side));
      if closing == [] then Err(GroupSeparator("", expected))
      else if Sense(closing[0]) != Closing(side) then Err(GroupSeparator(closing[0], expected))
      else if side.Before? && |closing| == 1 then Err(GroupSeparator("{", ""))
      else Prepend(BodyValues(ts[1..]), ReadGroups(side, closing[1..]))
  }

  /** Put values in front of what a further read of groups gives. */
  function Prepend(vs: seq<string>, r: Result<(seq<string>, seq<string>), Error>)
    : Result<(seq<string>, seq<string>), Error>
  {
    if r.Err? then r else Ok((vs + r.value.0, r.value.1))
  }

  function Parse(ts: seq<string>): Parsed
    decreases |ts|, 1
  {
    if ts == [] then Parsed([], None)
    else
      match ReadGroups(Before, ts)
      case Err(e) => Parsed([], Some(e))
      case Ok((lead, rest)) => ParseArgument(lead, rest)
  }

  /** Continue with the leading groups read and the argument next in line. */
  function ParseArgument(lead: seq<string>, ts: seq<string>): Parsed
    requires ts != []
    decreases |ts|, 0
  {
    match ReadGroups(After, ts[1..])
    case Err(e) => Parsed([], Some(e))
    case Ok((trail, rest)) =>
      var p := Parse(rest);
      p.(items := [Item(Value(ts[0]), lead + trail)] + p.items)
  }

  // ---- The grammar -----------------------------------------------------------------------------

  /** An argument as written: groups before it, its token, groups after it. */
  datatype Written = Written(lead: seq<seq<string>>, arg: string, trail: seq<seq<string>>)

  predicate Plain(ss: seq<string>) {
    forall i :: 0 <= i < |ss| ==> !IsSeparator(ss[i])
  }

  predicate AllPlain(gs: seq<seq<string>>) {
    forall i :: 0 <= i < |gs| ==> Plain(gs[i])
  }

  predicate WellFormed(ws: seq<Written>) {
    forall i :: 0 <= i < |ws| ==> AllPlain(ws[i].lead) && !IsSeparator(ws[i].arg) && AllPlain(ws[i].trail)
  }

  function GroupTokens(side: Side, gs: seq<seq<string>>): seq<string> {
    if gs == [] then [] else OneGroup(side, gs[0]) + GroupTokens(side, gs[1..])
  }

  /** `{ body }+` before an argument, `+{ body }` behind it. */
  function OneGroup(side: Side, body: seq<string>): seq<string> {
    if side.Before? then ["{"] + body + ["}+"] else ["+{"] + body + ["}"]
  }

  lemma GroupSpelled(side: Side, body: seq<string>)
    ensures OneGroup(side, body) == [Spelling(Opening(side))] + body + [Spelling(Closing(side))]
  {
  }

  function GroupValues(gs: seq<seq<string>>): seq<string> {
    if gs == [] then [] else Values(gs[0]) + GroupValues(gs[1..])
  }

  function Tokens(ws: seq<Written>): seq<string> {
    if ws == [] then []
    else GroupTokens(Before, ws[0].lead) + [ws[0].arg] + GroupTokens(After, ws[0].trail) + Tokens(ws[1..])
  }

  function Meaning(ws: seq<Written>): seq<Item> {
    if ws == [] then []
    else [Item(Value(ws[0].arg), GroupValues(ws[0].lead) + GroupValues(ws[0].trail))] + Meaning(ws[1..])
  }

  lemma {:induction false} BodyOf(body: seq<string>, rest: seq<string>)
    requires Plain(body) && rest != [] && IsSeparator(rest[0])
    ensures BodyValues(body + rest) == Values(body) && AfterBody(body + rest) == rest
  {
    if body == [] {
      assert body + rest == rest;
    } else {
      assert (body + rest)[1..] == body[1..] + rest;
      BodyOf(body[1..], rest);
    }
  }

  lemma {:induction false} ReadGroupsOf(side: Side, gs: seq<seq<string>>, rest: seq<string>)
    requires AllPlain(gs) && Stops(side, rest)
    requires side.Before? && gs != [] ==> rest != []
    ensures ReadGroups(side, GroupTokens(side, gs) + rest) == Ok((GroupValues(gs), rest))
  {
    if gs == [] {
      assert GroupTokens(side, gs) + rest == rest;
    } else {
      ReadGroupsOf(side, gs[1..], rest);
      var more := GroupTokens(side, gs[1..]) + rest;
      OneGroupOf(side, gs[0], more);
      Associative(OneGroup(side, gs[0]), GroupTokens(side, gs[1..]), rest);
    }
  }

  lemma OneGroupOf(side: Side, body: seq<string>, more: seq<string>)
    requires Plain(body) && (side.Before? ==> more != [])
    ensures ReadGroups(side, OneGroup(side, body) + more) == Prepend(Values(body), ReadGroups(side, more))
  {
    GroupSpelled(side, body);
    var closing := [Spelling(Closing(side))] + more;
    var ts := [Spelling(Opening(side))] + body + [Spelling(Closing(side))] + more;
    assert ts[0] == Spelling(Opening(side)) && ts[1..] == body + closing;
    BodyOf(body, closing);
    assert closing[1..] == more;
  }

  lemma StopsAfter(ws: seq<Written>)
    requires WellFormed(ws)
    ensures Stops(After, Tokens(ws))
  {
    if ws != [] && ws[0].lead == [] {
      assert Tokens(ws)[0] == ws[0].arg;
    }
  }

  /** Everything the grammar derives is read, with the meaning the grammar gives it. */
  lemma {:induction false} ParseReads(ws: seq<Written>)
    requires WellFormed(ws)
    ensures Parse(Tokens(ws)) == Parsed(Meaning(ws), None)
  {
    if ws != [] {
      var w, rest := ws[0], Tokens(ws[1..]);
      var back := GroupTokens(After, w.trail) + rest;
      assert Tokens(ws) == GroupTokens(Before, w.lead) + ([w.arg] + back);
      assert ([w.arg] + back)[1..] == back;
      ReadGroupsOf(Before, w.lead, [w.arg] + back);
      StopsAfter(ws[1..]);
      ReadGroupsOf(After, w.trail, rest);
      ParseReads(ws[1..]);
    }
  }

  lemma SpelledOut(s: string)
    ensures IsSeparator(s) ==> s == Spelling(Sense(s))
  {
  }

  lemma {:induction false} BodyOnly(ts: seq<string>) returns (body: seq<string>)
    ensures Plain(body) && Values(body) == BodyValues(ts) && ts == body + AfterBody(ts)
  {
    if ts == [] || IsSeparator(ts[0]) {
      body := [];
    } else {
      var rest := BodyOnly(ts[1..]);
      body := [ts[0]] + rest;
      assert body[1..] == rest;
    }
  }

  lemma {:induction false} ReadGroupsOnly(side: Side, ts: seq<string>) returns (gs: seq<seq<string>>)
    requires ReadGroups(side, ts).Ok?
    ensures AllPlain(gs)
    ensures ReadGroups(side, ts).value.0 == GroupValues(gs)
    ensures ts == GroupTokens(side, gs) + ReadGroups(side, ts).value.1
    decreases |ts|
  {
    if Stops(side, ts) {
      gs := [];
    } else {
      var body := BodyOnly(ts[1..]);
      var closing := AfterBody(ts[1..]);
      var more := ReadGroupsOnly(side, closing[1..]);
      gs := [body] + more;
      assert gs[0] == body && gs[1..] == more;
      FirstGroup(side, ts, body);
      Associative(OneGroup(side, body), GroupTokens(side, more), ReadGroups(side, closing[1..]).value.1);
    }
  }

  lemma FirstGroup(side: Side, ts: seq<string>, body: seq<string>)
    requires ts != [] && Sense(ts[0]) == Opening(side) && ts[1..] == body + AfterBody(ts[1..])
    requires AfterBody(ts[1..]) != [] && Sense(AfterBody(ts[1..])[0]) == Closing(side)
    ensures ts == OneGroup(side, body) + AfterBody(ts[1..])[1..]
  {
    GroupSpelled(side, body);
    var closing := AfterBody(ts[1..]);
    SpelledOut(ts[0]);
    SpelledOut(closing[0]);
    HeadAndTail(closing);
    HeadAndTail(ts);
    Regroup([ts[0]], body, [closing[0]], closing[1..]);
  }

  lemma HeadAndTail<T>(ts: seq<T>)
    requires ts != []
    ensures ts == [ts[0]] + ts[1..]
  {
  }

  /** Nothing but what the grammar derives is read to the end. */
  lemma {:induction false} ParseReadsOnly(ts: seq<string>) returns (ws: seq<Written>)
    requires Parse(ts).error.None?
    ensures WellFormed(ws) && Tokens(ws) == ts && Meaning(ws) == Parse(ts).items
    decreases |ts|
  {
    if ts == [] {
      ws := [];
    } else {
      var lead := ReadGroupsOnly(Before, ts);
      var back := ReadGroups(Before, ts).value.1;
      var trail := ReadGroupsOnly(After, back[1..]);
      var rest := ReadGroups(After, back[1..]).value.1;
      var more := ParseReadsOnly(rest);
      ws := [Written(lead, back[0], trail)] + more;
      OneWritten(Written(lead, back[0], trail), more);
      assert back == [back[0]] + back[1..];
    }
  }

  /** One more written argument in front. */
  lemma OneWritten(w: Written, more: seq<Written>)
    ensures Tokens([w] + more) ==
              GroupTokens(Before, w.lead) + ([w.arg] + (GroupTokens(After, w.trail) + Tokens(more)))
    ensures Meaning([w] + more) ==
              [Item(Value(w.arg), GroupValues(w.lead) + GroupValues(w.trail))] + Meaning(more)
    ensures WellFormed([w] + more) <==>
              AllPlain(w.lead) && !IsSeparator(w.arg) && AllPlain(w.trail) && WellFormed(more)
  {
    var ws := [w] + more;
    assert ws[0] == w && ws[1..] == more;
    Regroup(GroupTokens(Before, w.lead), [w.arg], GroupTokens(After, w.trail), Tokens(more));
    assert WellFormed(ws) ==> WellFormed(more) by {
      assert forall i :: 0 <= i < |more| ==> more[i] == ws[i + 1];
    }
  }

  /** The scanner accepts a token sequence exactly when the grammar derives it. */
  lemma AcceptedExactly(ts: seq<string>)
    ensures Parse(ts).error.None? <==> exists ws :: WellFormed(ws) && Tokens(ws) == ts
  {
    if Parse(ts).error.None? {
      var ws := ParseReadsOnly(ts);
    }
    forall ws | WellFormed(ws) && Tokens(ws) == ts
      ensures Parse(ts).error.None?
    {
      ParseReads(ws);
    }
  }

  // ---- On the tokens themselves ----------------------------------------------------------------

  /** Only `\{`, `\}`, `\+{` and `\}+` stand for anything but themselves: for what follows the backslash. */
  lemma EscapedExactly(s: string)
    ensures
      var escaped := s == "\\{" || s == "\\}" || s == "\\+{" || s == "\\}+";
      Value(s) == (if escaped then s[1..] else s) && (IsEscaped(s) <==> escaped)
    ensures Escape(s) == if s == "{" || s == "}" || s == "+{" || s == "}+" then "\\" + s else s
    ensures IsSeparator(s) <==> s == "{" || s == "}" || s == "+{" || s == "}+"
  {
    if IsEscaped(s) {
      assert s == "\\" + s[1..];
    }
    assert "\\{"[1..] == "{" && "\\}"[1..] == "}" && "\\+{"[1..] == "+{" && "\\}+"[1..] == "}+";
  }

  /** `{ body }+ argument +{ tail }` is the argument with the group `body` and then `tail`. */
  lemma GroupedArgumentReads(body: seq<string>, argument: string, tail: seq<string>)
    requires Plain(body) && !IsSeparator(argument) && Plain(tail)
    ensures Parse(["{"] + body + ["}+", argument, "+{"] + tail + ["}"]) ==
              Parsed([Item(Value(argument), Values(body) + Values(tail))], None)
  {
    var w := Written([body], argument, [tail]);
    OnlyGroup(Before, body);
    OnlyGroup(After, tail);
    OneWritten(w, []);
    assert [w] + [] == [w] && WellFormed([w]);
    ParseReads([w]);
    hide Parse, Tokens, GroupTokens, GroupValues, Values, Plain;
    Spread(body, argument, tail);
  }

  lemma OnlyGroup(side: Side, body: seq<string>)
    ensures GroupTokens(side, [body]) == OneGroup(side, body) && GroupValues([body]) == Values(body)
  {
    assert [body][1..] == [];
    assert OneGroup(side, body) + [] == OneGroup(side, body) && Values(body) + [] == Values(body);
  }

  lemma Spread(body: seq<string>, argument: string, tail: seq<string>)
    ensures ["{"] + body + ["}+"] + ([argument] + ((["+{"] + tail + ["}"]) + [])) ==
              ["{"] + body + ["}+", argument, "+{"] + tail + ["}"]
  {
  }

  /** Anything wrong with the groups is reported with what was met and what was expected in its place. */
  lemma GroupErrors(body: seq<string>, c: string, rest: seq<string>)
    requires Plain(body) && IsSeparator(c)
    ensures c != "{" ==> Parse([c] + rest) == Parsed([], Some(GroupSeparator(c, "")))
    ensures c != "}+" ==> Parse(["{"] + (body + ([c] + rest))) == Parsed([], Some(GroupSeparator(c, "}+")))
    ensures Parse(["{"] + (body + ["}+"])) == Parsed([], Some(GroupSeparator("{", "")))
    ensures Parse(["{"] + body) == Parsed([], Some(GroupSeparator("", "}+")))
  {
    assert c != "{" ==> ReadGroups(Before, [c] + rest) == Err(GroupSeparator(c, ""));
    WrongClosing(Before, body, [c] + rest);
    WrongClosing(Before, body, ["}+"]);
    MissingClosing(Before, body);
    hide ReadGroups, Plain;
    assert ["}+"][1..] == [];
  }

  /** A group that is closed in the wrong way, or with nothing to belong to. */
  lemma WrongClosing(side: Side, body: seq<string>, closing: seq<string>)
    requires Plain(body) && closing != [] && IsSeparator(closing[0])
    ensures
      var right := if side.Before? then "}+" else "}";
      var r := ReadGroups(side, [if side.Before? then "{" else "+{"] + (body + closing));
      && (closing[0] != right ==> r == Err(GroupSeparator(closing[0], right)))
      && (closing == [right] && side.Before? ==> r == Err(GroupSeparator("{", "")))
  {
    BodyOf(body, closing);
    var ts := [if side.Before? then "{" else "+{"] + (body + closing);
    assert ts[1..] == body + closing;
  }

  lemma MissingClosing(side: Side, body: seq<string>)
    requires Plain(body)
    ensures ReadGroups(side, [if side.Before? then "{" else "+{"] + body) ==
              Err(GroupSeparator("", if side.Before? then "}+" else "}"))
  {
    BodyAlone(body);
    var ts := [if side.Before? then "{" else "+{"] + body;
    assert ts[1..] == body;
  }

  /** The same behind an argument. */
  lemma TrailingGroupErrors(argument: string, body: seq<string>, c: string, rest: seq<string>)
    requires Plain(body) && !IsSeparator(argument) && IsSeparator(c)
    ensures c != "{" && c != "+{" ==> Parse([argument] + ([c] + rest)) == Parsed([], Some(GroupSeparator(c, "")))
    ensures c != "}" ==>
              Parse([argument] + (["+{"] + (body + ([c] + rest)))) == Parsed([], Some(GroupSeparator(c, "}")))
    ensures Parse([argument] + (["+{"] + body)) == Parsed([], Some(GroupSeparator("", "}")))
  {
    var one, two, four := [c] + rest, ["+{"] + (body + ([c] + rest)), ["+{"] + body;
    assert c != "{" && c != "+{" ==> ReadGroups(After, one) == Err(GroupSeparator(c, ""));
    WrongClosing(After, body, [c] + rest);
    MissingClosing(After, body);
    hide ReadGroups, Plain;
    BehindArgument(argument, one);
    BehindArgument(argument, two);
    BehindArgument(argument, four);
  }

  lemma BehindArgument(argument: string, ts: seq<string>)
    requires !IsSeparator(argument)
    ensures ReadGroups(After, ts).Err? ==> Parse([argument] + ts) == Parsed([], Some(ReadGroups(After, ts).error))
  {
    var all := [argument] + ts;
    assert all[1..] == ts;
    assert ReadGroups(Before, all) == Ok(([], all));
  }

  lemma {:induction false} BodyAlone(body: seq<string>)
    requires Plain(body)
    ensures AfterBody(body) == []
  {
    if body != [] {
      BodyAlone(body[1..]);
    }
  }

  // ---- Printing --------------------------------------------------------------------------------

  /** The tokens scan_argument copies an item over as. */
  function PrintItem(i: Item): seq<string> {
    [Escape(i.arg)] + if i.group == [] then [] else ["+{"] + Escapes(i.group) + ["}"]
  }

  /** Without separators among the values, the values themselves, the group in `+{` and `}`. */
  lemma PrintedLiterally(i: Item)
    requires !IsSeparator(i.arg) && Plain(i.group)
    ensures PrintItem(i) == if i.group == [] then [i.arg] else [i.arg, "+{"] + i.group + ["}"]
  {
    NothingToEscape(i.group);
  }

  lemma {:induction false} NothingToEscape(ss: seq<string>)
    requires Plain(ss)
    ensures Escapes(ss) == ss
  {
    if ss != [] {
      NothingToEscape(ss[1..]);
    }
  }

  function Print(items: seq<Item>): seq<string> {
    if items == [] then [] else PrintItem(items[0]) + Print(items[1..])
  }

  /** No value spells an escaped separator. */
  predicate CleanItem(i: Item) {
    !IsEscaped(i.arg) && forall k :: 0 <= k < |i.group| ==> !IsEscaped(i.group[k])
  }

  predicate Clean(items: seq<Item>) {
    forall k :: 0 <= k < |items| ==> CleanItem(items[k])
  }

  function NormalItem(i: Item): Item {
    Item(Value(i.arg), Values(i.group))
  }

  function Normal(items: seq<Item>): seq<Item> {
    if items == [] then [] else [NormalItem(items[0])] + Normal(items[1..])
  }

  /** Printing is writing each item with its group behind it. */
  function WrittenItem(i: Item): Written {
    Written([], Escape(i.arg), if i.group == [] then [] else [Escapes(i.group)])
  }

  function AsWritten(items: seq<Item>): seq<Written> {
    if items == [] then [] else [WrittenItem(items[0])] + AsWritten(items[1..])
  }

  lemma EscapeNeverSeparates(s: string)
    ensures !IsSeparator(Escape(s)) && Value(Escape(s)) == Value(s)
  {
    if IsSeparator(s) {
      var e := "\\" + s;
      assert e[0] == '\\' && e[1..] == s;
      BackslashSeparatesNothing(e);
      assert IsEscaped(e) && Value(e) == s;
      assert s[0] != '\\';
    }
  }

  lemma BackslashSeparatesNothing(s: string)
    requires |s| > 0 && s[0] == '\\'
    ensures !IsSeparator(s)
  {
    assert "{"[0] == '{' && "}"[0] == '}' && "+{"[0] == '+' && "}+"[0] == '}';
  }

  lemma {:induction false} EscapesThenValues(ss: seq<string>)
    ensures Values(Escapes(ss)) == Values(ss) && Plain(Escapes(ss)) && |Escapes(ss)| == |ss|
  {
    if ss != [] {
      EscapeNeverSeparates(ss[0]);
      EscapesThenValues(ss[1..]);
      assert Escapes(ss)[1..] == Escapes(ss[1..]);
    }
  }

  lemma PrintItemIsWritten(i: Item)
    ensures
      var w := WrittenItem(i);
      && AllPlain(w.lead) && !IsSeparator(w.arg) && AllPlain(w.trail)
      && GroupTokens(Before, w.lead) + [w.arg] + GroupTokens(After, w.trail) == PrintItem(i)
      && Item(Value(w.arg), GroupValues(w.lead) + GroupValues(w.trail)) == NormalItem(i)
  {
    EscapeNeverSeparates(i.arg);
    EscapesThenValues(i.group);
    var w := WrittenItem(i);
    if i.group != [] {
      assert w.trail[1..] == [];
      assert GroupTokens(After, w.trail) == ["+{"] + Escapes(i.group) + ["}"];
      assert GroupValues(w.trail) == Values(i.group);
    }
  }

  lemma {:induction false} PrintIsWritten(items: seq<Item>)
    ensures WellFormed(AsWritten(items))
    ensures Tokens(AsWritten(items)) == Print(items)
    ensures Meaning(AsWritten(items)) == Normal(items)
  {
    if items != [] {
      var ws := AsWritten(items);
      PrintIsWritten(items[1..]);
      PrintItemIsWritten(items[0]);
      assert ws[0] == WrittenItem(items[0]) && ws[1..] == AsWritten(items[1..]);
    }
  }

  lemma {:induction false} ValuesAt(ss: seq<string>)
    ensures |Values(ss)| == |ss|
    ensures forall k :: 0 <= k < |ss| ==> Values(ss)[k] == Value(ss[k])
  {
    if ss != [] {
      ValuesAt(ss[1..]);
    }
  }

  lemma ValuesIdentity(ss: seq<string>)
    ensures Values(ss) == ss <==> forall k :: 0 <= k < |ss| ==> !IsEscaped(ss[k])
  {
    ValuesAt(ss);
    if Values(ss) == ss {
      forall k | 0 <= k < |ss|
        ensures !IsEscaped(ss[k])
      {
        assert Values(ss)[k] == Value(ss[k]);
      }
    }
  }

  lemma {:induction false} NormalIsIdentity(items: seq<Item>)
    ensures |Normal(items)| == |items|
    ensures Normal(items) == items <==> Clean(items)
  {
    if items != [] {
      ValuesIdentity(items[0].group);
      NormalIsIdentity(items[1..]);
      assert items == [items[0]] + items[1..];
      assert Normal(items) == items <==> NormalItem(items[0]) == items[0] && Normal(items[1..]) == items[1..] by {
        assert Normal(items)[0] == NormalItem(items[0]) && Normal(items)[1..] == Normal(items[1..]);
      }
      assert Clean(items) <==> CleanItem(items[0]) && Clean(items[1..]);
    }
  }

  /** Printed items are always read back, and come back unchanged exactly when they are clean. */
  lemma PrintThenParse(items: seq<Item>)
    ensures Parse(Print(items)) == Parsed(Normal(items), None)
    ensures Parse(Print(items)) == Parsed(items, None) <==> Clean(items)
  {
    PrintIsWritten(items);
    ParseReads(AsWritten(items));
    NormalIsIdentity(items);
  }

  lemma ValueIsClean(s: string)
    ensures !IsSeparator(s) ==> !IsEscaped(Value(s))
  {
  }

  lemma {:induction false} BodyClean(ts: seq<string>)
    ensures forall k :: 0 <= k < |BodyValues(ts)| ==> !IsEscaped(BodyValues(ts)[k])
  {
    if ts != [] && !IsSeparator(ts[0]) {
      ValueIsClean(ts[0]);
      BodyClean(ts[1..]);
    }
  }

  lemma {:induction false} ReadGroupsClean(side: Side, ts: seq<string>)
    requires ReadGroups(side, ts).Ok?
    ensures forall k :: 0 <= k < |ReadGroups(side, ts).value.0| ==> !IsEscaped(ReadGroups(side, ts).value.0[k])
    decreases |ts|
  {
    if !Stops(side, ts) {
      BodyClean(ts[1..]);
      ReadGroupsClean(side, AfterBody(ts[1..])[1..]);
    }
  }

  /** A scanned value is never a backslash followed by a separator, whether or not the scan ends well. */
  lemma {:induction false} ScannedIsClean(ts: seq<string>)
    ensures Clean(Parse(ts).items)
    decreases |ts|
  {
    if ts != [] && ReadGroups(Before, ts).Ok? {
      var back := ReadGroups(Before, ts).value.1;
      if ReadGroups(After, back[1..]).Ok? {
        ReadGroupsClean(Before, ts);
        ReadGroupsClean(After, back[1..]);
        ValueIsClean(back[0]);
        ScannedIsClean(ReadGroups(After, back[1..]).value.1);
      }
    }
  }

  /** Scanning, copying the arguments over and scanning the copy gives the same arguments and groups. */
  lemma GroupRoundTrip(ts: seq<string>)
    ensures Parse(Print(Parse(ts).items)) == Parsed(Parse(ts).items, None)
  {
    ScannedIsClean(ts);
    PrintThenParse(Parse(ts).items);
  }

  lemma {:induction false} PrintAppend(a: seq<Item>, b: seq<Item>)
    ensures Print(a + b) == Print(a) + Print(b)
  {
    if a == [] {
      assert a + b == b;
    } else {
      assert (a + b)[1..] == a[1..] + b;
      PrintAppend(a[1..], b);
      Associative(PrintItem(a[0]), Print(a[1..]), Print(b));
    }
  }
}
