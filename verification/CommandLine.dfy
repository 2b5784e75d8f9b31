/**
 How a command's line is taken apart: options, `@name`s of configurations and grouped arguments in
 any order, up to a first `--` after which everything is an argument.
 */
module CommandLine {
  import opened Common
  import opened OptionParser
  import Groups
  import GroupScanner

  type Item = Groups.Item

  datatype Problem =
    | Unparsed(failure: OptionParser.Failure)
    | EmptyName
    | GroupNotExpected(argument: string)
    | Unscanned(error: Groups.Error)

  /** The options, which configuration names are put into as well, and the arguments as tokens to be scanned again. */
  datatype Taken<+O> = Taken(opts: O, args: seq<string>)

  // ---- Options among grouped arguments -----------------------------------------------------------

  function Tokens(items: seq<Item>): (ts: seq<string>)
    ensures |ts| == |items|
  {
    if items == [] then [] else [items[0].arg] + Tokens(items[1..])
  }

  /** The first item that comes with a group nobody asked for. */
  function Grouped(items: seq<Item>): Option<string> {
    if items == [] then None
    else if items[0].group != [] then Some(items[0].arg)
    else Grouped(items[1..])
  }

  /** One round of the parse loop on grouped arguments: items used up, a stop in front of one, or a problem. */
  datatype ItemRound<+O> = Onward(opts: O, used: nat) | Rest | Fault(problem: Problem)

  predicate TakesValue<O>(g: Grammar<O>, name: string) {
    name != "--" && name in g.valued && name !in g.flags
  }

  /** An option's group is noticed before its value is asked for, a value's once it has been converted. */
  function ItemStep<O>(g: Grammar<O>, o: O, items: seq<Item>): (r: ItemRound<O>)
    requires items != []
    ensures r.Onward? ==> 1 <= r.used <= |items|
  {
    match Step(g, Fail, Stop, o, Tokens(items))
    case Halt(_) => Rest
    case Throw(e) =>
      if TakesValue(g, items[0].arg) && items[0].group != [] then Fault(GroupNotExpected(items[0].arg))
      else Fault(Unparsed(e))
    case Go(o', used) =>
      match Grouped(items[..used])
      case Some(a) => Fault(GroupNotExpected(a))
      case None => Onward(o', used)
  }

  /** The options parsed and the items in front of which parsing stopped, or what went wrong. */
  datatype Reading<+O> = Read(opts: O, rest: seq<Item>) | Refused(problem: Problem)

  function ParseItems<O>(g: Grammar<O>, o: O, items: seq<Item>): (r: Reading<O>)
    ensures r.Read? ==> |r.rest| <= |items| && (|r.rest| == |items| ==> r == Read(o, items))
    decreases |items|
  {
    if items == [] then Read(o, [])
    else
      match ItemStep(g, o, items)
      case Rest => Read(o, items)
      case Fault(e) => Refused(e)
      case Onward(o', used) => ParseItems(g, o', items[used..])
  }

  // ---- One turn and all turns --------------------------------------------------------------------

  /** `@name` or `-@name`, for commands that work on configurations: how much to cut off. */
  function NamePrefix<O>(g: Grammar<O>, a: string): (n: nat)
    ensures n <= |a| && (n > 0 ==> g.configName.Some?)
  {
    if g.configName.None? then 0
    else if |a| >= 1 && a[0] == '@' then 1
    else if |a| >= 2 && a[0] == '-' && a[1] == '@' then 2
    else 0
  }

  /** One turn of the loop: what is left after some items or after the `--`, or a problem. */
  datatype Turn<+O> = Used(x: Taken<O>, left: seq<Item>) | Separator(left: seq<Item>) | Wrong(problem: Problem)

  function TakeTurn<O>(g: Grammar<O>, keep: bool, x: Taken<O>, items: seq<Item>): (r: Turn<O>)
    requires items != []
    ensures r.Used? ==> |r.left| < |items|
  {
    var a, cut := items[0].arg, NamePrefix(g, items[0].arg);
    if a == "--" then
      if keep then Separator(items)
      else if items[0].group != [] then Wrong(GroupNotExpected(a))
      else Separator(items[1..])
    else if cut > 0 then
      if a[cut..] == "" then Wrong(EmptyName)
      else if items[0].group != [] then Wrong(GroupNotExpected(a))
      else Used(x.(opts := g.configName.value(x.opts, a[cut..])), items[1..])
    else
      match ParseItems(g, x.opts, items)
      case Refused(e) => Wrong(e)
      case Read(o, rest) =>
        if |rest| < |items| then Used(x.(opts := o), rest)
        else Used(x.(args := x.args + Groups.PrintItem(items[0])), items[1..])
  }

  function Init<O>(g: Grammar<O>, keep: bool, x: Taken<O>, items: seq<Item>): Result<Taken<O>, Problem>
    decreases |items|
  {
    if items == [] then Ok(x)
    else
      match TakeTurn(g, keep, x, items)
      case Used(y, left) => Init(g, keep, y, left)
      case Separator(left) => Ok(x.(args := x.args + Groups.Print(left)))
      case Wrong(e) => Err(e)
  }

  // ---- The loops, on the group scanner -------------------------------------------------------------

  /** Pass an argument that must not have a group. */
  method PassBare(s: GroupScanner.Scanner) returns (r: Result<string, Problem>)
    requires s.Valid() && s.Handled()
    modifies s, s.scan
    ensures r.Ok? ==>
              && s.Valid() && s.Handled() && old(s.Pending()).items != []
              && s.Pending() == GroupScanner.Later(old(s.Pending()))
    ensures old(s.Pending()).items != [] ==>
              var i := old(s.Pending()).items[0];
              r == if i.group == [] then Ok(i.arg) else Err(GroupNotExpected(i.arg))
  {
    var a := s.Next();
    if a.Err? {
      return Err(Unscanned(a.error));
    }
    var more := s.More();
    r := if more.Err? then Err(GroupNotExpected(a.value)) else Ok(a.value);
  }

  /** Pass an option and take its value. */
  method TakeValue<O>(g: Grammar<O>, o: O, s: GroupScanner.Scanner) returns (r: Result<O, Problem>)
    requires s.Valid() && s.Handled()
    requires s.Pending().items != [] ==> TakesValue(g, s.Pending().items[0].arg)
    modifies s, s.scan
    ensures r.Ok? ==>
              && s.Valid() && s.Handled() && s.Pending().error == old(s.Pending()).error
              && |s.Pending().items| < |old(s.Pending()).items|
    ensures old(s.Pending()).error.None? && old(s.Pending()).items != [] ==>
              match ItemStep(g, o, old(s.Pending()).items)
              case Onward(o', used) => r == Ok(o') && s.Pending().items == old(s.Pending()).items[used..]
              case Fault(e) => r == Err(e)
              case Rest => false
  {
    hide Groups.Parse, Groups.ParseArgument;
    ghost var p := s.Pending();
    var name := PassBare(s);
    if name.Err? {
      return Err(name.error);
    }
    var more := s.More();
    if !more.value {
      return Err(Unparsed(Missing(name.value)));
    }
    var v := s.Next();
    if v.Err? {
      return Err(Unscanned(v.error));
    }
    FrontTokens(p.items);
    FrontGroups(p.items);
    var o' := g.put(o, name.value, v.value);
    if o'.None? {
      return Err(Unparsed(Invalid(name.value, v.value)));
    }
    more := s.More();
    r := if more.Err? then Err(GroupNotExpected(v.value)) else Ok(o'.value);
  }

  lemma FrontTokens(items: seq<Item>)
    ensures |items| >= 1 ==> Tokens(items)[0] == items[0].arg
    ensures |items| >= 2 ==> Tokens(items)[1] == items[1].arg
  {
    if |items| >= 2 {
      assert Tokens(items)[1] == Tokens(items[1..])[0];
    }
  }

  function GroupedOne(i: Item): Option<string> {
    if i.group != [] then Some(i.arg) else None
  }

  lemma FrontGroups(items: seq<Item>)
    ensures |items| >= 1 ==> Grouped(items[..1]) == GroupedOne(items[0])
    ensures |items| >= 2 ==>
              Grouped(items[..2]) == if items[0].group != [] then Some(items[0].arg) else GroupedOne(items[1])
  {
    if |items| >= 1 {
      GroupedSingle(items[0]);
      assert items[..1] == [items[0]];
    }
    if |items| >= 2 {
      GroupedSingle(items[1]);
      assert items[..2][1..] == [items[1]];
    }
  }

  lemma GroupedSingle(i: Item)
    ensures Grouped([i]) == GroupedOne(i)
  {
    assert [i][1..] == [];
  }

  /** One round of the parse loop; nothing if it stops. */
  method StepScanned<O>(g: Grammar<O>, o: O, s: GroupScanner.Scanner) returns (r: Result<Option<O>, Problem>)
    requires s.Valid() && s.Handled() && s.Pending() != Groups.Parsed([], None)
    modifies s, s.scan
    ensures r.Ok? ==> s.Valid() && s.Handled() && s.Pending().error == old(s.Pending()).error
    ensures r == Ok(None) ==> s.Pending() == old(s.Pending())
    ensures r.Ok? && r.value.Some? ==> |s.Pending().items| < |old(s.Pending()).items|
    ensures old(s.Pending()).error.None? ==>
              match ItemStep(g, o, old(s.Pending()).items)
              case Onward(o', used) => r == Ok(Some(o')) && s.Pending().items == old(s.Pending()).items[used..]
              case Rest => r == Ok(None)
              case Fault(e) => r == Err(e)
  {
    hide Groups.Parse, Groups.ParseArgument;
    ghost var p := s.Pending();
    var peeked := s.Peek();
    if peeked.Err? {
      return Err(Unscanned(peeked.error));
    }
    var t := peeked.value;
    FrontTokens(p.items);
    FrontGroups(p.items);
    var o' := o;
    if t == "--" || (!Known(g, t) && !LooksLikeOption(t)) {
      return Ok(None);
    } else if t in g.flags {
      o' := g.set_(o, t);
    } else if t in g.valued {
      var taken := TakeValue(g, o, s);
      return if taken.Ok? then Ok(Some(taken.value)) else Err(taken.error);
    } else {
      var round := ParseCombined(g, Fail, o, t);
      if !round.Go? {
        return Err(Unparsed(round.failure));
      }
      o' := round.opts;
    }
    var passed := PassBare(s);
    r := if passed.Ok? then Ok(Some(o')) else Err(passed.error);
  }

  /** The parse loop on grouped arguments; `any` tells whether anything was parsed. */
  method ParseScanned<O>(g: Grammar<O>, o: O, s: GroupScanner.Scanner) returns (r: Result<O, Problem>, any: bool)
    requires s.Valid() && s.Handled()
    modifies s, s.scan
    ensures r.Ok? ==>
              && s.Valid() && s.Handled() && s.Pending().error == old(s.Pending()).error
              && (any ==> |s.Pending().items| < |old(s.Pending()).items|)
              && (!any ==> s.Pending() == old(s.Pending()) && r.value == o)
    ensures old(s.Pending()).error.None? ==>
              match ParseItems(g, o, old(s.Pending()).items)
              case Read(o', rest) => r == Ok(o') && s.Pending().items == rest
              case Refused(e) => r == Err(e)
  {
    hide ItemStep;
    ghost var all := s.Pending();
    var x := o;
    any := false;
    while true
      invariant s.Valid() && s.Handled() && s.Pending().error == all.error
      invariant any ==> |s.Pending().items| < |all.items|
      invariant !any ==> s.Pending() == all && x == o
      invariant all.error.None? ==> ParseItems(g, x, s.Pending().items) == ParseItems(g, o, all.items)
      decreases |s.Pending().items|
    {
      var more := s.More();
      if !more.value {
        return Ok(x), any;
      }
      var round := StepScanned(g, x, s);
      if round.Err? {
        return Err(round.error), any;
      }
      if round.value.None? {
        return Ok(x), any;
      }
      x, any := round.value.value, true;
    }
  }

  /** One turn of the loop on the scanner; nothing once the `--` is met. */
  method TurnStep<O>(g: Grammar<O>, keep: bool, x: Taken<O>, s: GroupScanner.Scanner)
    returns (r: Result<Option<Taken<O>>, Problem>)
    requires s.Valid() && s.Handled() && s.Pending() != Groups.Parsed([], None)
    modifies s, s.scan
    ensures r.Ok? ==>
              && s.Valid() && s.Handled() && s.Pending().error == old(s.Pending()).error
              && |s.Pending().items| <= |old(s.Pending()).items|
              && (r.value.Some? ==> |s.Pending().items| < |old(s.Pending()).items|)
    ensures old(s.Pending()).error.None? ==>
              match TakeTurn(g, keep, x, old(s.Pending()).items)
              case Used(y, left) => r == Ok(Some(y)) && s.Pending().items == left
              case Separator(left) => r == Ok(None) && s.Pending().items == left
              case Wrong(e) => r == Err(e)
  {
    hide ParseItems;
    var peeked := s.Peek();
    if peeked.Err? {
      return Err(Unscanned(peeked.error));
    }
    var a := peeked.value;
    if a == "--" {
      if !keep {
        var passed := PassBare(s);
        if passed.Err? {
          return Err(passed.error);
        }
      }
      return Ok(None);
    }
    var cut := NamePrefix(g, a);
    if cut > 0 {
      if a[cut..] == "" {
        return Err(EmptyName);
      }
      var passed := PassBare(s);
      return if passed.Err? then Err(passed.error) else Ok(Some(x.(opts := g.configName.value(x.opts, a[cut..]))));
    }
    var o, any := ParseScanned(g, x.opts, s);
    if o.Err? {
      return Err(o.error);
    }
    if any {
      return Ok(Some(x.(opts := o.value)));
    }
    r := CopyOver(x, s);
  }

  /** Copy the next argument over, group included. */
  method CopyOver<O>(x: Taken<O>, s: GroupScanner.Scanner) returns (r: Result<Option<Taken<O>>, Problem>)
    requires s.Valid() && s.Handled()
    modifies s, s.scan
    ensures r.Ok? ==>
              && s.Valid() && s.Handled() && old(s.Pending()).items != []
              && s.Pending() == GroupScanner.Later(old(s.Pending()))
    ensures old(s.Pending()).items != [] ==>
              r == Ok(Some(x.(args := x.args + Groups.PrintItem(old(s.Pending()).items[0]))))
  {
    var args, e := GroupScanner.ScanArgument(x.args, s);
    r := if e.Some? then Err(Unscanned(e.value)) else Ok(Some(x.(args := args)));
  }

  /** The whole loop: turns until the `--`, then every argument copied over. */
  method InitLoop<O>(g: Grammar<O>, keep: bool, o: O, s: GroupScanner.Scanner) returns (r: Result<Taken<O>, Problem>)
    requires s.Valid() && s.Handled()
    modifies s, s.scan
    ensures old(s.Pending()).error.None? ==> r == Init(g, keep, Taken(o, []), old(s.Pending()).items)
    ensures old(s.Pending()).error.Some? ==> r.Err?
  {
    hide TakeTurn;
    ghost var all := s.Pending();
    var x, opt := Taken(o, []), true;
    ghost var goal := Init(g, keep, x, all.items);
    while true
      invariant s.Valid() && s.Handled() && s.Pending().error == all.error
      invariant all.error.None? && opt ==> Init(g, keep, x, s.Pending().items) == goal
      invariant all.error.None? && !opt ==> goal == Ok(x.(args := x.args + Groups.Print(s.Pending().items)))
      decreases |s.Pending().items|, opt
    {
      var more := s.More();
      if !more.value {
        assert x.args + [] == x.args;
        return Ok(x);
      }
      ghost var items := s.Pending().items;
      var turn: Result<Option<Taken<O>>, Problem>;
      if opt {
        turn := TurnStep(g, keep, x, s);
      } else {
        if items != [] {
          Associative(x.args, Groups.PrintItem(items[0]), Groups.Print(items[1..]));
        }
        turn := CopyOver(x, s);
      }
      if turn.Err? {
        return Err(turn.error);
      }
      if turn.value.Some? {
        x := turn.value.value;
      } else {
        opt := false;
      }
    }
  }
}
