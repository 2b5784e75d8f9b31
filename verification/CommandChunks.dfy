/**
 What a command's line means: options, names of configurations and arguments as they are written, what
 each does on its own, and that a line does what its parts do one after another.
 */
module CommandChunks {
  import opened Common
  import opened OptionParser
  import opened CommandLine
  import Groups

  datatype Chunk =
    | FlagOption(name: string)
    | ValueOption(name: string, value: string)
    | AtName(name: string)
    | DashAtName(name: string)
    | Argument(item: Item)

  predicate IsOption(c: Chunk) {
    c.FlagOption? || c.ValueOption?
  }

  function Render(c: Chunk): seq<Item> {
    match c
    case FlagOption(n) => [Groups.Item(n, [])]
    case ValueOption(n, v) => [Groups.Item(n, []), Groups.Item(v, [])]
    case AtName(n) => [Groups.Item("@" + n, [])]
    case DashAtName(n) => [Groups.Item("-@" + n, [])]
    case Argument(i) => [i]
  }

  function RenderAll(cs: seq<Chunk>): seq<Item> {
    if cs == [] then [] else Render(cs[0]) + RenderAll(cs[1..])
  }

  /** No option is called `--` or begins the way a configuration name does. */
  ghost predicate Sensible<O>(g: Grammar<O>) {
    forall n :: Known(g, n) ==> n != "--" && NamePrefix(g, n) == 0
  }

  /** The value is one the option takes, whatever was parsed before. */
  ghost predicate Takes<O(!new)>(g: Grammar<O>, name: string, v: string) {
    forall o :: g.put(o, name, v).Some?
  }

  /** A chunk means what it is meant to mean: an argument does not look like an option or a name. */
  ghost predicate Clear<O(!new)>(g: Grammar<O>, c: Chunk) {
    match c
    case FlagOption(n) => n in g.flags
    case ValueOption(n, v) => n in g.valued && n !in g.flags && Takes(g, n, v)
    case AtName(n) => g.configName.Some? && n != ""
    case DashAtName(n) => g.configName.Some? && n != ""
    case Argument(i) => !Known(g, i.arg) && !LooksLikeOption(i.arg) && NamePrefix(g, i.arg) == 0
  }

  ghost predicate AllClear<O(!new)>(g: Grammar<O>, cs: seq<Chunk>) {
    forall k :: 0 <= k < |cs| ==> Clear(g, cs[k])
  }

  /** What a chunk does to the options. */
  function Setting<O>(g: Grammar<O>, o: O, c: Chunk): O {
    match c
    case FlagOption(n) => g.set_(o, n)
    case ValueOption(n, v) =>
      var p := g.put(o, n, v);
      if p.Some? then p.value else o
    case AtName(n) => if g.configName.Some? then g.configName.value(o, n) else o
    case DashAtName(n) => if g.configName.Some? then g.configName.value(o, n) else o
    case Argument(_) => o
  }

  function Settings<O>(g: Grammar<O>, o: O, cs: seq<Chunk>): O
    decreases |cs|
  {
    if cs == [] then o else Settings(g, Setting(g, o, cs[0]), cs[1..])
  }

  function ItemsOf(cs: seq<Chunk>): seq<Item> {
    if cs == [] then []
    else if cs[0].Argument? then [cs[0].item] + ItemsOf(cs[1..])
    else ItemsOf(cs[1..])
  }

  /** The end of the line: nothing, or `--` and whatever follows it. */
  predicate IsTail(items: seq<Item>) {
    items == [] || items[0].arg == "--"
  }

  /** The items copied over from behind the chunks. */
  function TailItems(keep: bool, tail: seq<Item>): seq<Item> {
    if tail == [] || keep then tail else tail[1..]
  }

  /** No `-@name` right behind an option, and no group at a `--` that is not kept. */
  predicate Acceptable(keep: bool, cs: seq<Chunk>, tail: seq<Item>) {
    && (forall k :: 0 < k < |cs| && cs[k].DashAtName? ==> !IsOption(cs[k - 1]))
    && (tail != [] && !keep ==> tail[0].group == [])
  }

  lemma AcceptableStep(keep: bool, cs: seq<Chunk>, tail: seq<Item>)
    requires cs != []
    ensures Acceptable(keep, cs, tail) <==>
              && Acceptable(keep, cs[1..], tail)
              && !(|cs| > 1 && cs[1].DashAtName? && IsOption(cs[0]))
  {
    assert forall k :: 0 < k < |cs| - 1 ==> cs[1..][k] == cs[k + 1] && cs[1..][k - 1] == cs[k];
    if Acceptable(keep, cs[1..], tail) && !(|cs| > 1 && cs[1].DashAtName? && IsOption(cs[0])) {
      forall k | 0 < k < |cs| && cs[k].DashAtName?
        ensures !IsOption(cs[k - 1])
      {
        assert k > 1 ==> cs[1..][k - 1].DashAtName? && cs[1..][k - 2] == cs[k - 1];
      }
    }
  }

  // ---- Options -----------------------------------------------------------------------------------

  /** What the parse loop does not stop in front of is neither `--` nor an `@name`. */
  lemma NotAName<O>(g: Grammar<O>, o: O, items: seq<Item>)
    requires Sensible(g) && items != [] && NamePrefix(g, items[0].arg) != 2 && !ItemStep(g, o, items).Rest?
    ensures items[0].arg != "--" && NamePrefix(g, items[0].arg) == 0
  {
    FrontTokens(items);
    var t := items[0].arg;
    assert !Step(g, Fail, Stop, o, Tokens(items)).Halt?;
    assert NamePrefix(g, t) == 1 ==> !Known(g, t) && !LooksLikeOption(t);
  }

  /**
   Options taken by one round of the parse loop and the rest of the line treated afresh, or the rest
   parsed in the same go: it makes no difference, unless the rest begins with a `-@name`.
   */
  lemma OptionThenRest<O>(g: Grammar<O>, keep: bool, x: Taken<O>, o: O, front: seq<Item>, rest: seq<Item>)
    requires front != [] && Sensible(g) && front[0].arg != "--" && NamePrefix(g, front[0].arg) == 0
    requires ItemStep(g, x.opts, front + rest) == Onward(o, |front|)
    requires rest != [] ==> NamePrefix(g, rest[0].arg) != 2
    ensures Init(g, keep, x, front + rest) == Init(g, keep, x.(opts := o), rest)
  {
    hide ItemStep;
    var items, y := front + rest, x.(opts := o);
    var p := ParseItems(g, o, rest);
    assert items[0] == front[0] && items[|front|..] == rest;
    assert ParseItems(g, x.opts, items) == p;
    if rest != [] && !ItemStep(g, o, rest).Rest? {
      NotAName(g, o, rest);
      ReadsShorter(g, o, rest);
    }
  }

  /** Unless it stops at once, the parse loop uses something up. */
  lemma ReadsShorter<O>(g: Grammar<O>, o: O, items: seq<Item>)
    requires items != [] && !ItemStep(g, o, items).Rest?
    ensures ParseItems(g, o, items).Read? ==> |ParseItems(g, o, items).rest| < |items|
  {
  }

  /** Right behind an option a `-@name` is taken for an option, and there is none like it. */
  lemma DashAtBehindOption<O>(g: Grammar<O>, keep: bool, x: Taken<O>, o: O, front: seq<Item>, rest: seq<Item>)
    requires front != [] && Sensible(g) && front[0].arg != "--" && NamePrefix(g, front[0].arg) == 0
    requires ItemStep(g, x.opts, front + rest) == Onward(o, |front|)
    requires rest != [] && NamePrefix(g, rest[0].arg) == 2
    ensures Init(g, keep, x, front + rest).Err?
  {
    var items := front + rest;
    assert items[0] == front[0] && items[|front|..] == rest;
    DashAtIsNoOption(g, o, rest);
    assert ParseItems(g, x.opts, items) == ParseItems(g, o, rest);
  }

  lemma DashAtIsNoOption<O>(g: Grammar<O>, o: O, items: seq<Item>)
    requires Sensible(g) && items != [] && NamePrefix(g, items[0].arg) == 2
    ensures ItemStep(g, o, items).Fault?
  {
    FrontTokens(items);
    var t := items[0].arg;
    assert !Known(g, t) && LooksLikeOption(t) && t != "--";
    var cut := IndexOf(t, '=');
    var name := t[..cut];
    assert cut >= 2 && name[0] == '-' && name[1] == '@' && name[1..][0] == '@';
    assert !AllLetters(name[1..]) by {
      assert '@' in name[1..];
    }
    assert cut == |t| ==> name == t;
    assert NamePrefix(g, name) == 2;
    assert Step(g, Fail, Stop, o, Tokens(items)).Throw?;
  }

  /** A clear option at the front is taken in one round. */
  lemma OptionStep<O(!new)>(g: Grammar<O>, o: O, c: Chunk, rest: seq<Item>)
    requires Sensible(g) && IsOption(c) && Clear(g, c)
    ensures ItemStep(g, o, Render(c) + rest) == Onward(Setting(g, o, c), |Render(c)|)
    ensures Render(c)[0].arg != "--" && NamePrefix(g, Render(c)[0].arg) == 0
  {
    var items := Render(c) + rest;
    assert Known(g, c.name);
    FrontTokens(items);
    FrontGroups(items);
    assert items[0] == Render(c)[0];
    if c.ValueOption? {
      assert items[1] == Render(c)[1];
    }
  }

  // ---- The other chunks ----------------------------------------------------------------------------

  lemma NameThenRest<O(!new)>(g: Grammar<O>, keep: bool, x: Taken<O>, c: Chunk, rest: seq<Item>)
    requires (c.AtName? || c.DashAtName?) && Clear(g, c)
    ensures Init(g, keep, x, Render(c) + rest) == Init(g, keep, x.(opts := Setting(g, x.opts, c)), rest)
  {
    var items := Render(c) + rest;
    var a, cut := items[0].arg, if c.AtName? then 1 else 2;
    assert items[1..] == rest && a[cut..] == c.name;
    assert NamePrefix(g, a) == cut && a != "--";
  }

  lemma ArgumentThenRest<O(!new)>(g: Grammar<O>, keep: bool, x: Taken<O>, c: Chunk, rest: seq<Item>)
    requires c.Argument? && Clear(g, c)
    ensures Init(g, keep, x, Render(c) + rest) ==
              Init(g, keep, x.(args := x.args + Groups.PrintItem(c.item)), rest)
  {
    var items := Render(c) + rest;
    FrontTokens(items);
    assert items[0] == c.item && items[1..] == rest;
    assert ItemStep(g, x.opts, items).Rest?;
  }

  /** How the rest of a line begins. */
  lemma RestBegins<O(!new)>(g: Grammar<O>, cs: seq<Chunk>, tail: seq<Item>)
    requires Sensible(g) && AllClear(g, cs) && IsTail(tail)
    ensures
      var rest := RenderAll(cs) + tail;
      rest != [] && NamePrefix(g, rest[0].arg) == 2 <==> cs != [] && cs[0].DashAtName?
  {
    var rest := RenderAll(cs) + tail;
    if cs != [] {
      assert rest[0] == Render(cs[0])[0];
      if IsOption(cs[0]) {
        assert Known(g, cs[0].name);
      }
    } else {
      assert rest == tail;
    }
  }

  // ---- Whole lines -----------------------------------------------------------------------------------

  /** Behind a chunk that is acceptable there, the rest of the line is treated as if it stood alone. */
  lemma ChunkThenRest<O(!new)>(g: Grammar<O>, keep: bool, x: Taken<O>, c: Chunk, rest: seq<Item>)
    requires Sensible(g) && Clear(g, c)
    ensures
      var bad := IsOption(c) && rest != [] && NamePrefix(g, rest[0].arg) == 2;
      && (bad ==> Init(g, keep, x, Render(c) + rest).Err?)
      && (!bad ==> Init(g, keep, x, Render(c) + rest) ==
                     Init(g, keep, Taken(Setting(g, x.opts, c), x.args + Groups.Print(ItemsOf([c]))), rest))
  {
    hide Init, Groups.PrintItem, ItemStep, ItemsOf;
    ItemsOfOne(c);
    assert x.args + [] == x.args;
    if IsOption(c) {
      OptionStep(g, x.opts, c, rest);
      if rest != [] && NamePrefix(g, rest[0].arg) == 2 {
        DashAtBehindOption(g, keep, x, Setting(g, x.opts, c), Render(c), rest);
      } else {
        OptionThenRest(g, keep, x, Setting(g, x.opts, c), Render(c), rest);
      }
    } else if c.Argument? {
      ArgumentThenRest(g, keep, x, c, rest);
      PrintOne(c.item);
    } else {
      NameThenRest(g, keep, x, c, rest);
    }
  }

  lemma PrintOne(i: Item)
    ensures Groups.Print([i]) == Groups.PrintItem(i)
  {
    assert [i][1..] == [];
    assert Groups.PrintItem(i) + [] == Groups.PrintItem(i);
  }

  lemma ItemsOfOne(c: Chunk)
    ensures ItemsOf([c]) == if c.Argument? then [c.item] else []
  {
    assert [c][1..] == [];
  }

  lemma ItemsStep(cs: seq<Chunk>)
    requires cs != []
    ensures ItemsOf(cs) == ItemsOf([cs[0]]) + ItemsOf(cs[1..])
  {
    ItemsOfOne(cs[0]);
    var more := ItemsOf(cs[1..]);
    assert ItemsOf(cs) == if cs[0].Argument? then [cs[0].item] + more else more;
    hide ItemsOf;
    assert [] + more == more;
  }

  /**
   A line of clear chunks, then nothing or `--` and anything, is accepted if and only if no `-@name`
   comes right behind an option and no group is attached to a `--` that is dropped. It then comes to
   what its options and names do one after another, and to its arguments, and the tail verbatim.
   */
  lemma {:induction false} LineIsTakenApart<O(!new)>(g: Grammar<O>, keep: bool, x: Taken<O>, cs: seq<Chunk>,
                                                     tail: seq<Item>)
    requires Sensible(g) && AllClear(g, cs) && IsTail(tail)
    ensures
      var r := Init(g, keep, x, RenderAll(cs) + tail);
      && (r.Ok? <==> Acceptable(keep, cs, tail))
      && (r.Ok? ==> r.value == Taken(Settings(g, x.opts, cs),
                                     x.args + Groups.Print(ItemsOf(cs)) + Groups.Print(TailItems(keep, tail))))
    decreases |cs|
  {
    if cs == [] {
      assert RenderAll(cs) + tail == tail;
      assert x.args + [] == x.args;
    } else {
      var rest := RenderAll(cs[1..]) + tail;
      Associative(Render(cs[0]), RenderAll(cs[1..]), tail);
      AcceptableStep(keep, cs, tail);
      RestBegins(g, cs[1..], tail);
      ChunkThenRest(g, keep, x, cs[0], rest);
      var one := ItemsOf([cs[0]]);
      var y := Taken(Setting(g, x.opts, cs[0]), x.args + Groups.Print(one));
      LineIsTakenApart(g, keep, y, cs[1..], tail);
      ItemsStep(cs);
      Groups.PrintAppend(one, ItemsOf(cs[1..]));
      Associative(x.args, Groups.Print(one), Groups.Print(ItemsOf(cs[1..])));
    }
  }

  // ---- What a line must not have ---------------------------------------------------------------------

  /** Whatever follows a line of chunks, other than a `-@name`, is treated as if it stood alone. */
  lemma {:induction false} LineThenRest<O(!new)>(g: Grammar<O>, keep: bool, x: Taken<O>, cs: seq<Chunk>,
                                                 rest: seq<Item>)
    requires Sensible(g) && AllClear(g, cs) && Acceptable(keep, cs, [])
    requires rest != [] ==> NamePrefix(g, rest[0].arg) != 2
    ensures Init(g, keep, x, RenderAll(cs) + rest) ==
              Init(g, keep, Taken(Settings(g, x.opts, cs), x.args + Groups.Print(ItemsOf(cs))), rest)
    decreases |cs|
  {
    if cs == [] {
      assert RenderAll(cs) + rest == rest;
      assert x.args + [] == x.args;
    } else {
      hide Init, Clear, NamePrefix;
      var more := RenderAll(cs[1..]) + rest;
      Associative(Render(cs[0]), RenderAll(cs[1..]), rest);
      AcceptableStep(keep, cs, []);
      if cs[1..] == [] {
        assert more == rest;
      } else {
        RestBegins(g, cs[1..], []);
        assert (RenderAll(cs[1..]) + [])[0] == more[0];
      }
      ChunkThenRest(g, keep, x, cs[0], more);
      var one := ItemsOf([cs[0]]);
      var y := Taken(Setting(g, x.opts, cs[0]), x.args + Groups.Print(one));
      LineThenRest(g, keep, y, cs[1..], rest);
      ItemsStep(cs);
      Groups.PrintAppend(one, ItemsOf(cs[1..]));
      Associative(x.args, Groups.Print(one), Groups.Print(ItemsOf(cs[1..])));
    }
  }

  /** A group is only for arguments: not for an option, nor for its value, nor for a name. */
  lemma GroupIsRejected<O(!new)>(g: Grammar<O>, keep: bool, x: Taken<O>, c: Chunk, group: seq<string>, rest: seq<Item>)
    requires Sensible(g) && Clear(g, c) && !c.Argument? && group != []
    ensures
      var a := Render(c)[0].arg;
      Init(g, keep, x, [Groups.Item(a, group)] + Render(c)[1..] + rest) == Err(GroupNotExpected(a))
    ensures c.ValueOption? ==>
              Init(g, keep, x, [Groups.Item(c.name, []), Groups.Item(c.value, group)] + rest) ==
                Err(GroupNotExpected(c.value))
  {
    if IsOption(c) {
      assert Known(g, c.name);
      GroupedOptionStep(g, x.opts, c, group, rest);
    } else {
      var a, cut := Render(c)[0].arg, if c.AtName? then 1 else 2;
      assert NamePrefix(g, a) == cut && a[cut..] == c.name && a != "--";
    }
  }

  lemma GroupedOptionStep<O(!new)>(g: Grammar<O>, o: O, c: Chunk, group: seq<string>, rest: seq<Item>)
    requires Sensible(g) && IsOption(c) && Clear(g, c) && group != []
    ensures ItemStep(g, o, [Groups.Item(c.name, group)] + Render(c)[1..] + rest) == Fault(GroupNotExpected(c.name))
    ensures c.ValueOption? ==>
              ItemStep(g, o, [Groups.Item(c.name, []), Groups.Item(c.value, group)] + rest) ==
                Fault(GroupNotExpected(c.value))
  {
    assert Known(g, c.name);
    var items := [Groups.Item(c.name, group)] + Render(c)[1..] + rest;
    FrontTokens(items);
    FrontGroups(items);
    if c.ValueOption? {
      assert items[1] == Groups.Item(c.value, []);
      var others := [Groups.Item(c.name, []), Groups.Item(c.value, group)] + rest;
      FrontTokens(others);
      FrontGroups(others);
      assert others[0].group == [] && others[1] == Groups.Item(c.value, group);
    }
  }

  /**
   An option whose value is missing or cannot be converted is reported as such, whatever the group of
   the value, but its own group is noticed first.
   */
  lemma BadValueIsReported<O>(g: Grammar<O>, keep: bool, x: Taken<O>, name: string, group: seq<string>, v: Item,
                              rest: seq<Item>)
    requires Sensible(g) && name in g.valued && name !in g.flags
    ensures Init(g, keep, x, [Groups.Item(name, group)]) ==
              Err(if group == [] then Unparsed(Missing(name)) else GroupNotExpected(name))
    ensures g.put(x.opts, name, v.arg).None? ==>
              Init(g, keep, x, [Groups.Item(name, group), v] + rest) ==
                Err(if group == [] then Unparsed(Invalid(name, v.arg)) else GroupNotExpected(name))
  {
    assert Known(g, name);
    var one, two := [Groups.Item(name, group)], [Groups.Item(name, group), v] + rest;
    FrontTokens(one);
    FrontTokens(two);
    assert two[1] == v;
  }

  /** What looks like an option and is none is reported as such, group or no group. */
  lemma UnknownIsReported<O>(g: Grammar<O>, keep: bool, x: Taken<O>, t: string, group: seq<string>, rest: seq<Item>)
    requires !Known(g, t) && LooksLikeOption(t) && t != "--" && NamePrefix(g, t) == 0
    requires '=' !in t && !AllLetters(t[1..])
    ensures Init(g, keep, x, [Groups.Item(t, group)] + rest) == Err(Unparsed(UnknownOption(t)))
  {
    FrontTokens([Groups.Item(t, group)] + rest);
    assert IndexOf(t, '=') == |t|;
  }

  /** A name must not be empty. */
  lemma EmptyNameIsRejected<O>(g: Grammar<O>, keep: bool, x: Taken<O>, group: seq<string>, rest: seq<Item>)
    requires g.configName.Some?
    ensures Init(g, keep, x, [Groups.Item("@", group)] + rest) == Err(EmptyName)
    ensures Init(g, keep, x, [Groups.Item("-@", group)] + rest) == Err(EmptyName)
  {
    assert "@"[1..] == "" && "-@"[2..] == "";
  }

  /** With `-@name` the order does matter: it is understood before an option and rejected behind it. */
  lemma DashAtNameDependsOnOrder<O(!new)>(g: Grammar<O>, keep: bool, x: Taken<O>, c: Chunk, name: string)
    requires Sensible(g) && IsOption(c) && Clear(g, c) && Clear(g, DashAtName(name))
    ensures Init(g, keep, x, RenderAll([DashAtName(name), c])).Ok?
    ensures Init(g, keep, x, RenderAll([c, DashAtName(name)])).Err?
  {
    hide Init, Clear;
    var cs, ds := [DashAtName(name), c], [c, DashAtName(name)];
    assert RenderAll(cs) + [] == RenderAll(cs) && RenderAll(ds) + [] == RenderAll(ds);
    assert ds[1].DashAtName? && IsOption(ds[0]);
    LineIsTakenApart(g, keep, x, cs, []);
    LineIsTakenApart(g, keep, x, ds, []);
  }

  // ---- What the command gets to see ------------------------------------------------------------------

  lemma {:induction false} ItemsAreRendered(cs: seq<Chunk>)
    ensures forall i :: i in ItemsOf(cs) ==> i in RenderAll(cs)
  {
    if cs != [] {
      ItemsAreRendered(cs[1..]);
      assert forall i :: i in RenderAll(cs[1..]) ==> i in RenderAll(cs);
      if cs[0].Argument? {
        assert cs[0].item in Render(cs[0]);
      }
    }
  }

  /**
   The whole way: scan a line's tokens, take the line apart, and scan the copied tokens again. What
   comes out are exactly the grouped arguments of the line, in order, and all that follows `--`.
   */
  lemma ArgumentsReachCommand<O(!new)>(g: Grammar<O>, keep: bool, o: O, ts: seq<string>, cs: seq<Chunk>,
                                       tail: seq<Item>)
    requires Sensible(g) && AllClear(g, cs) && IsTail(tail)
    requires Groups.Parse(ts) == Groups.Parsed(RenderAll(cs) + tail, None)
    ensures
      var r := Init(g, keep, Taken(o, []), Groups.Parse(ts).items);
      && (r.Ok? <==> Acceptable(keep, cs, tail))
      && (r.Ok? ==>
            && r.value.opts == Settings(g, o, cs)
            && Groups.Parse(r.value.args) == Groups.Parsed(ItemsOf(cs) + TailItems(keep, tail), None))
  {
    var items, kept := RenderAll(cs) + tail, ItemsOf(cs) + TailItems(keep, tail);
    LineIsTakenApart(g, keep, Taken(o, []), cs, tail);
    Groups.PrintAppend(ItemsOf(cs), TailItems(keep, tail));
    assert [] + Groups.Print(ItemsOf(cs)) == Groups.Print(ItemsOf(cs));
    Groups.ScannedIsClean(ts);
    hide Init, Groups.Parse, Settings, RenderAll, ItemsOf, Groups.Print;
    assert Groups.Clean(kept) by {
      ItemsAreRendered(cs);
      forall k | 0 <= k < |kept|
        ensures Groups.CleanItem(kept[k])
      {
        assert kept[k] in items;
      }
    }
    Groups.PrintThenParse(kept);
  }
}
