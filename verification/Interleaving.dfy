/**
 How far the order of a command's line matters: options for different fields, names and arguments may
 be interleaved freely, but `@name` and `--config-name` share a field and keep their order in it.
 */
module Interleaving {
  import opened Common
  import opened OptionParser
  import opened OptionValues
  import opened CommandLine
  import opened CommandChunks
  import Groups
  import ConfigDb

  /** What a chunk writes to: the field of an option by its kind, or a choice with nested options. */
  datatype Target = Field(field: string, kind: Kind) | ChoiceField(field: string)

  function TargetOf(t: FullTable, c: Chunk): Option<Target> {
    match c
    case FlagOption(n) => if n in t.table.specs then Some(Field(t.table.specs[n].field, Flag)) else None
    case ValueOption(n, _) =>
      if n in t.choices then Some(ChoiceField(t.choices[n].field))
      else if n in t.table.specs then Some(Field(t.table.specs[n].field, t.table.specs[n].kind))
      else None
    case AtName(_) => if t.names.Some? then Some(Field(t.names.value, List)) else None
    case DashAtName(_) => if t.names.Some? then Some(Field(t.names.value, List)) else None
    case Argument(_) => None
  }

  /** The chunks that write to a target, in order. */
  function WritesTo(t: FullTable, target: Target, cs: seq<Chunk>): seq<Chunk> {
    if cs == [] then []
    else if TargetOf(t, cs[0]) == Some(target) then [cs[0]] + WritesTo(t, target, cs[1..])
    else WritesTo(t, target, cs[1..])
  }

  // ---- Options part by part --------------------------------------------------------------------------

  /** What options hold for one target. */
  datatype Part =
    | FlagPart(set_: bool)
    | ScalarPart(scalar: Option<string>)
    | ListPart(list: Option<seq<string>>)
    | SetPart(values: Option<set<string>>)
    | MapPart(pairs: Option<map<string, string>>)
    | ChoicePart(choice: Option<Choice>)

  function Get<V>(m: map<string, V>, k: string): Option<V> {
    if k in m then Some(m[k]) else None
  }

  function At(o: FullOptions, target: Target): Part {
    match target
    case ChoiceField(f) => ChoicePart(Get(o.choices, f))
    case Field(f, Flag) => FlagPart(f in o.plain.flags)
    case Field(f, Scalar) => ScalarPart(Get(o.plain.scalars, f))
    case Field(f, List) => ListPart(Get(o.plain.lists, f))
    case Field(f, SetOf) => SetPart(Get(o.plain.sets, f))
    case Field(f, MapOf) => MapPart(Get(o.plain.maps, f))
  }

  lemma SameEntries<V>(a: map<string, V>, b: map<string, V>)
    requires forall k :: Get(a, k) == Get(b, k)
    ensures a == b
  {
    forall k
      ensures k in a <==> k in b
      ensures k in a ==> a[k] == b[k]
    {
      assert Get(a, k) == Get(b, k);
    }
  }

  /** Options are what they hold for each target. */
  lemma PartsDecide(a: FullOptions, b: FullOptions)
    requires forall target :: At(a, target) == At(b, target)
    ensures a == b
  {
    forall f
      ensures Get(a.choices, f) == Get(b.choices, f)
      ensures f in a.plain.flags <==> f in b.plain.flags
      ensures Get(a.plain.scalars, f) == Get(b.plain.scalars, f)
      ensures Get(a.plain.lists, f) == Get(b.plain.lists, f)
      ensures Get(a.plain.sets, f) == Get(b.plain.sets, f)
      ensures Get(a.plain.maps, f) == Get(b.plain.maps, f)
    {
      assert At(a, ChoiceField(f)) == At(b, ChoiceField(f));
      assert At(a, Field(f, Flag)) == At(b, Field(f, Flag));
      assert At(a, Field(f, Scalar)) == At(b, Field(f, Scalar));
      assert At(a, Field(f, List)) == At(b, Field(f, List));
      assert At(a, Field(f, SetOf)) == At(b, Field(f, SetOf));
      assert At(a, Field(f, MapOf)) == At(b, Field(f, MapOf));
    }
    SameEntries(a.choices, b.choices);
    SameEntries(a.plain.scalars, b.plain.scalars);
    SameEntries(a.plain.lists, b.plain.lists);
    SameEntries(a.plain.sets, b.plain.sets);
    SameEntries(a.plain.maps, b.plain.maps);
  }

  /**
   Options changed from `a` to `a1` and from `b` to `b1` where `at` says, as seen at one target: elsewhere
   they have not changed, and there they have changed alike.
   */
  ghost predicate ChangedAlike(a: FullOptions, b: FullOptions, a1: FullOptions, b1: FullOptions, at: Option<Target>,
                               target: Target) {
    && (at != Some(target) ==> At(a1, target) == At(a, target))
    && (at == Some(target) && At(a, target) == At(b, target) ==> At(a1, target) == At(b1, target))
  }

  lemma FlagWrites(t: FullTable, a: FullOptions, b: FullOptions, c: Chunk, target: Target)
    requires c.FlagOption?
    ensures
      var g := FullGrammarOf(t);
      ChangedAlike(a, b, Setting(g, a, c), Setting(g, b, c), TargetOf(t, c), target)
  {
    hide PutValue, PutFull, PutList;
  }

  lemma NameWrites(t: FullTable, a: FullOptions, b: FullOptions, c: Chunk, target: Target)
    requires c.AtName? || c.DashAtName?
    ensures
      var g := FullGrammarOf(t);
      ChangedAlike(a, b, Setting(g, a, c), Setting(g, b, c), TargetOf(t, c), target)
  {
    hide PutValue, PutFull, SetFlag;
  }

  lemma ChoiceWrites(t: FullTable, a: FullOptions, b: FullOptions, c: Chunk, target: Target)
    requires c.ValueOption? && c.name in t.choices
    ensures
      var g := FullGrammarOf(t);
      ChangedAlike(a, b, Setting(g, a, c), Setting(g, b, c), TargetOf(t, c), target)
  {
    hide PutValue, PutNested, SetFlag, PutList;
  }

  lemma ScalarWrites(a: FullOptions, b: FullOptions, f: string, v: string, target: Target)
    ensures ChangedAlike(a, b, a.(plain := PutScalar(a.plain, f, v)), b.(plain := PutScalar(b.plain, f, v)),
                         Some(Field(f, Scalar)), target)
  {
  }

  lemma ListWrites(a: FullOptions, b: FullOptions, f: string, v: string, target: Target)
    ensures ChangedAlike(a, b, a.(plain := PutList(a.plain, f, v)), b.(plain := PutList(b.plain, f, v)),
                         Some(Field(f, List)), target)
  {
  }

  lemma SetWrites(a: FullOptions, b: FullOptions, f: string, v: string, target: Target)
    ensures ChangedAlike(a, b, a.(plain := PutSet(a.plain, f, v)), b.(plain := PutSet(b.plain, f, v)),
                         Some(Field(f, SetOf)), target)
  {
  }

  lemma MapWrites(a: FullOptions, b: FullOptions, f: string, k: string, v: string, target: Target)
    ensures ChangedAlike(a, b, a.(plain := PutMap(a.plain, f, k, v)), b.(plain := PutMap(b.plain, f, k, v)),
                         Some(Field(f, MapOf)), target)
  {
  }

  lemma ValueWrites(t: FullTable, a: FullOptions, b: FullOptions, c: Chunk, target: Target)
    requires c.ValueOption? && c.name !in t.choices
    ensures
      var g := FullGrammarOf(t);
      ChangedAlike(a, b, Setting(g, a, c), Setting(g, b, c), TargetOf(t, c), target)
  {
    hide PutNested, SetFlag, KeyOf, ValueOf, At, PutScalar, PutList, PutSet, PutMap;
    if c.name in t.table.specs {
      var f, v := t.table.specs[c.name].field, c.value;
      match t.table.specs[c.name].kind
      case Flag =>
      case Scalar => ScalarWrites(a, b, f, v, target);
      case List => ListWrites(a, b, f, v, target);
      case SetOf => SetWrites(a, b, f, v, target);
      case MapOf => MapWrites(a, b, f, KeyOf(v), ValueOf(v), target);
    }
  }

  /** A chunk leaves alone what it does not write to, and writes according to what was there. */
  lemma OneTargetOnly(t: FullTable, a: FullOptions, b: FullOptions, c: Chunk, target: Target)
    ensures
      var g := FullGrammarOf(t);
      ChangedAlike(a, b, Setting(g, a, c), Setting(g, b, c), TargetOf(t, c), target)
  {
    hide At, FullGrammarOf;
    match c
    case FlagOption(_) => FlagWrites(t, a, b, c, target);
    case ValueOption(n, _) =>
      if n in t.choices {
        ChoiceWrites(t, a, b, c, target);
      } else {
        ValueWrites(t, a, b, c, target);
      }
    case Argument(_) =>
    case _ => NameWrites(t, a, b, c, target);
  }

  /** What a line leaves for a target depends only on the chunks that write to it. */
  lemma {:induction false} LinePart(t: FullTable, a: FullOptions, b: FullOptions, cs: seq<Chunk>, target: Target)
    requires At(a, target) == At(b, target)
    ensures At(Settings(FullGrammarOf(t), a, cs), target) ==
              At(Settings(FullGrammarOf(t), b, WritesTo(t, target, cs)), target)
    decreases |cs|
  {
    if cs != [] {
      hide At, FullGrammarOf, Setting;
      var g := FullGrammarOf(t);
      OneTargetOnly(t, a, b, cs[0], target);
      if TargetOf(t, cs[0]) == Some(target) {
        var mine := WritesTo(t, target, cs);
        assert mine[0] == cs[0] && mine[1..] == WritesTo(t, target, cs[1..]);
        LinePart(t, Setting(g, a, cs[0]), Setting(g, b, cs[0]), cs[1..], target);
      } else {
        LinePart(t, Setting(g, a, cs[0]), b, cs[1..], target);
      }
    }
  }

  /** After a line a flag is set if and only if it was before or the line has an option that sets it. */
  lemma {:induction false} FlagOfLine(t: FullTable, o: FullOptions, cs: seq<Chunk>, f: string)
    ensures f in Settings(FullGrammarOf(t), o, cs).plain.flags <==>
              f in o.plain.flags || exists k :: 0 <= k < |cs| && SetsFlag(t, cs[k], f)
    decreases |cs|
  {
    if cs != [] {
      var o' := Setting(FullGrammarOf(t), o, cs[0]);
      FlagOfChunk(t, o, cs[0], f);
      FlagOfLine(t, o', cs[1..], f);
      assert forall k :: 0 < k < |cs| ==> cs[k] == cs[1..][k - 1];
      assert forall k :: 0 <= k < |cs| - 1 ==> cs[1..][k] == cs[k + 1];
    }
  }

  predicate SetsFlag(t: FullTable, c: Chunk, f: string) {
    c.FlagOption? && c.name in t.table.specs && t.table.specs[c.name].field == f
  }

  lemma FlagOfChunk(t: FullTable, o: FullOptions, c: Chunk, f: string)
    ensures f in Setting(FullGrammarOf(t), o, c).plain.flags <==> f in o.plain.flags || SetsFlag(t, c, f)
  {
    if c.FlagOption? {
      hide PutFull;
    } else {
      hide SetFlag;
      OneTargetOnly(t, o, o, c, Field(f, Flag));
    }
  }

  // ---- The names of configurations ---------------------------------------------------------------------

  /** The configuration names a chunk gives, as `@name`, `-@name` or as the value of the option. */
  function NamesIn(t: FullTable, c: Chunk): seq<string> {
    if t.names.None? || TargetOf(t, c) != Some(Field(t.names.value, List)) then []
    else if c.ValueOption? then [c.value]
    else if c.AtName? || c.DashAtName? then [c.name]
    else []
  }

  function GivenNames(t: FullTable, cs: seq<Chunk>): seq<string> {
    if cs == [] then [] else NamesIn(t, cs[0]) + GivenNames(t, cs[1..])
  }

  /** Names put behind those in the field; without any, the field is left as it is. */
  function WithNames(list: Option<seq<string>>, names: seq<string>): Option<seq<string>> {
    if names == [] then list
    else if list.None? then Some(names)
    else Some(list.value + names)
  }

  lemma WithNamesTwice(list: Option<seq<string>>, a: seq<string>, b: seq<string>)
    ensures WithNames(WithNames(list, a), b) == WithNames(list, a + b)
  {
    assert a == [] ==> a + b == b;
    assert b == [] ==> a + b == a;
    if list.Some? {
      Associative(list.value, a, b);
    }
  }

  lemma WithNamesCancels(list: Option<seq<string>>, a: seq<string>, b: seq<string>)
    ensures WithNames(list, a) == WithNames(list, b) <==> a == b
  {
    if list.Some? && WithNames(list, a) == WithNames(list, b) {
      var l := list.value;
      assert l + [] == l;
      assert l + a == l + b;
      assert (l + a)[|l|..] == a && (l + b)[|l|..] == b;
    }
  }

  lemma NamesOfChunk(t: FullTable, o: FullOptions, c: Chunk)
    requires t.names.Some? && Clear(FullGrammarOf(t), c)
    ensures At(Setting(FullGrammarOf(t), o, c), Field(t.names.value, List)) ==
              ListPart(WithNames(Get(o.plain.lists, t.names.value), NamesIn(t, c)))
  {
    OneTargetOnly(t, o, o, c, Field(t.names.value, List));
    if c.ValueOption? {
      assert FullGrammarOf(t).put(o, c.name, c.value).Some?;
      assert [] + [c.value] == [c.value];
    } else if c.AtName? || c.DashAtName? {
      assert [] + [c.name] == [c.name];
    }
  }

  /** The field of configuration names holds all names given, in the order of the line. */
  lemma {:induction false} NamesOfLine(t: FullTable, o: FullOptions, cs: seq<Chunk>)
    requires t.names.Some? && AllClear(FullGrammarOf(t), cs)
    ensures Get(Settings(FullGrammarOf(t), o, cs).plain.lists, t.names.value) ==
              WithNames(Get(o.plain.lists, t.names.value), GivenNames(t, cs))
    decreases |cs|
  {
    if cs != [] {
      var o' := Setting(FullGrammarOf(t), o, cs[0]);
      NamesOfChunk(t, o, cs[0]);
      NamesOfLine(t, o', cs[1..]);
      WithNamesTwice(Get(o.plain.lists, t.names.value), NamesIn(t, cs[0]), GivenNames(t, cs[1..]));
    }
  }

  // ---- Interleaving ----------------------------------------------------------------------------------------

  /** The same is written to every target but the configuration names, each in the same order. */
  ghost predicate SameBesidesNames(t: FullTable, cs: seq<Chunk>, ds: seq<Chunk>)
    requires t.names.Some?
  {
    forall target ::
      target != Field(t.names.value, List) ==> WritesTo(t, target, cs) == WritesTo(t, target, ds)
  }

  lemma SettingsAgree(t: FullTable, o: FullOptions, cs: seq<Chunk>, ds: seq<Chunk>)
    requires t.names.Some? && AllClear(FullGrammarOf(t), cs) && AllClear(FullGrammarOf(t), ds)
    requires SameBesidesNames(t, cs, ds)
    ensures Settings(FullGrammarOf(t), o, cs) == Settings(FullGrammarOf(t), o, ds) <==>
              GivenNames(t, cs) == GivenNames(t, ds)
  {
    hide At, Settings, FullGrammarOf, AllClear, WritesTo, GivenNames;
    var g, names := FullGrammarOf(t), Field(t.names.value, List);
    var a, b := Settings(g, o, cs), Settings(g, o, ds);
    NamesOfLine(t, o, cs);
    NamesOfLine(t, o, ds);
    WithNamesCancels(Get(o.plain.lists, t.names.value), GivenNames(t, cs), GivenNames(t, ds));
    if GivenNames(t, cs) == GivenNames(t, ds) {
      forall target
        ensures At(a, target) == At(b, target)
      {
        if target == names {
          ListAt(a, t.names.value);
          ListAt(b, t.names.value);
        } else {
          LinePart(t, o, o, cs, target);
          LinePart(t, o, o, ds, target);
        }
      }
      PartsDecide(a, b);
    }
  }

  lemma ListAt(o: FullOptions, f: string)
    ensures At(o, Field(f, List)) == ListPart(Get(o.plain.lists, f))
  {
  }

  /**
   Two lines that give the same arguments and, field by field, the same options, in whatever order
   these are mixed, come to the same if and only if they give the configuration names, whether as
   `@name` or by option, in the same order.
   */
  lemma InterleavingExactly(t: FullTable, keep: bool, x: Taken<FullOptions>, cs: seq<Chunk>, ds: seq<Chunk>,
                            tail: seq<Item>)
    requires t.names.Some? && Sensible(FullGrammarOf(t)) && IsTail(tail)
    requires AllClear(FullGrammarOf(t), cs) && Acceptable(keep, cs, tail)
    requires AllClear(FullGrammarOf(t), ds) && Acceptable(keep, ds, tail)
    requires SameBesidesNames(t, cs, ds) && ItemsOf(cs) == ItemsOf(ds)
    ensures
      var g := FullGrammarOf(t);
      Init(g, keep, x, RenderAll(cs) + tail) == Init(g, keep, x, RenderAll(ds) + tail) <==>
        GivenNames(t, cs) == GivenNames(t, ds)
  {
    hide *;
    var g := FullGrammarOf(t);
    LineIsTakenApart(g, keep, x, cs, tail);
    LineIsTakenApart(g, keep, x, ds, tail);
    SettingsAgree(t, x.opts, cs, ds);
  }

  lemma GivenByTwo(t: FullTable, c: Chunk, d: Chunk)
    ensures GivenNames(t, [c, d]) == NamesIn(t, c) + NamesIn(t, d)
  {
    hide NamesIn;
    assert [c, d][1..] == [d] && [d][1..] == [];
    assert GivenNames(t, [d]) == NamesIn(t, d) + GivenNames(t, []) == NamesIn(t, d);
    assert GivenNames(t, [c, d]) == NamesIn(t, c) + GivenNames(t, [d]);
  }

  /** The names that a line of two chunks leaves. */
  lemma NamesOfTwo(t: FullTable, keep: bool, c: Chunk, d: Chunk)
    requires t.names.Some? && Sensible(FullGrammarOf(t)) && !d.DashAtName?
    requires Clear(FullGrammarOf(t), c) && Clear(FullGrammarOf(t), d)
    ensures
      var r := Init(FullGrammarOf(t), keep, Taken(FULL_UNSET, []), RenderAll([c, d]));
      r.Ok? && Get(r.value.opts.plain.lists, t.names.value) == WithNames(None, NamesIn(t, c) + NamesIn(t, d))
  {
    hide Init, RenderAll, Settings, FullGrammarOf, GivenNames, NamesIn, WithNames, Clear;
    var g, cs := FullGrammarOf(t), [c, d];
    assert RenderAll(cs) + [] == RenderAll(cs);
    LineIsTakenApart(g, keep, Taken(FULL_UNSET, []), cs, []);
    NamesOfLine(t, FULL_UNSET, cs);
    GivenByTwo(t, c, d);
  }

  /**
   For every name of the option and any two names: `-n a @b` and `@b -n a` give the names in opposite
   orders, and `config rename` takes the last of them for the new name, so that the one line renames
   `a` to `b` and the other `b` to `a`.
   */
  lemma RenameDependsOnOrder(t: FullTable, keep: bool, option: string, a: string, b: string)
    requires t.names.Some? && Sensible(FullGrammarOf(t)) && a != b && b != "" && t.table.valid(option, a)
    requires option in t.table.specs && option !in t.choices && t.table.specs[option] == Spec(t.names.value, List)
    ensures
      var g, x := FullGrammarOf(t), Taken(FULL_UNSET, []);
      var one := Init(g, keep, x, RenderAll([ValueOption(option, a), AtName(b)]));
      var other := Init(g, keep, x, RenderAll([AtName(b), ValueOption(option, a)]));
      && one.Ok? && other.Ok? && one != other
      && Get(one.value.opts.plain.lists, t.names.value) == Some([a, b])
      && Get(other.value.opts.plain.lists, t.names.value) == Some([b, a])
      && ConfigDb.TakeNewName(None, [a, b], false) == Ok((b, [a]))
      && ConfigDb.TakeNewName(None, [b, a], false) == Ok((a, [b]))
  {
    var c, d := ValueOption(option, a), AtName(b);
    assert Clear(FullGrammarOf(t), c) && Clear(FullGrammarOf(t), d);
    assert NamesIn(t, c) == [a] && NamesIn(t, d) == [b];
    hide FullGrammarOf, Init, Clear, NamesIn, RenderAll;
    NamesOfTwo(t, keep, c, d);
    NamesOfTwo(t, keep, d, c);
    assert [a] + [b] == [a, b] && [b] + [a] == [b, a];
    assert [a, b][..1] == [a] && [b, a][..1] == [b];
  }
}
