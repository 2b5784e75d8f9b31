/**
 What options hold and how they merge: flags, scalars, lists, sets and maps, and the nested options
 of `--type`, `--lang` and `--vcs`. An option is specified exactly when its field has an entry.
 */
module OptionValues {
  import opened Common
  import opened OptionParser

  datatype Kind = Flag | Scalar | List | SetOf | MapOf

  /** The field an option name (or alias) stands for, and its kind. */
  datatype Spec = Spec(field: string, kind: Kind)

  /** An options class without nested options; `valid` is the conversion of a value to the field's type. */
  datatype Table = Table(specs: map<string, Spec>, valid: (string, string) -> bool)

  datatype Options = Options(
    flags: set<string>,
    scalars: map<string, string>,
    lists: map<string, seq<string>>,
    sets: map<string, set<string>>,
    maps: map<string, map<string, string>>)

  const UNSET := Options({}, map[], map[], map[], map[])

  // ---- Merging ---------------------------------------------------------------------------------

  /** Merge field by field: where both have an entry, combine the two. */
  function MergeBy<V>(a: map<string, V>, b: map<string, V>, combine: (V, V) -> V): (m: map<string, V>)
    ensures m.Keys == a.Keys + b.Keys
  {
    map k | k in a.Keys + b.Keys :: CombinedEntry(a, b, combine, k)
  }

  function CombinedEntry<V>(a: map<string, V>, b: map<string, V>, combine: (V, V) -> V, k: string): V
    requires k in a || k in b
  {
    if k !in b then a[k] else if k !in a then b[k] else combine(a[k], b[k])
  }

  ghost predicate Associates<V(!new)>(combine: (V, V) -> V) {
    forall x, y, z :: combine(combine(x, y), z) == combine(x, combine(y, z))
  }

  lemma MergeByAssociates<V(!new)>(a: map<string, V>, b: map<string, V>, c: map<string, V>, combine: (V, V) -> V)
    requires Associates(combine)
    ensures MergeBy(MergeBy(a, b, combine), c, combine) == MergeBy(a, MergeBy(b, c, combine), combine)
  {
    var l, r := MergeBy(MergeBy(a, b, combine), c, combine), MergeBy(a, MergeBy(b, c, combine), combine);
    assert l.Keys == r.Keys;
    forall k | k in l
      ensures l[k] == r[k]
    {
      if k in a && k in b && k in c {
        assert combine(combine(a[k], b[k]), c[k]) == combine(a[k], combine(b[k], c[k]));
      }
    }
  }

  lemma MergeByEmpty<V>(a: map<string, V>, combine: (V, V) -> V)
    ensures MergeBy(a, map[], combine) == a == MergeBy(map[], a, combine)
  {
  }

  lemma MergeByOne<V>(a: map<string, V>, k: string, v: V, combine: (V, V) -> V)
    ensures MergeBy(a, map[k := v], combine) == a[k := if k in a then combine(a[k], v) else v]
  {
  }

  function Concat(a: seq<string>, b: seq<string>): seq<string> { a + b }

  function Union(a: set<string>, b: set<string>): set<string> { a + b }

  function Override(a: map<string, string>, b: map<string, string>): map<string, string> { a + b }

  function Last(a: string, b: string): string { b }

  lemma CombinersAssociate()
    ensures Associates(Concat) && Associates(Union) && Associates(Override) && Associates(Last)
  {
    forall x: seq<string>, y, z
      ensures Concat(Concat(x, y), z) == Concat(x, Concat(y, z))
    {
      Associative(x, y, z);
    }
    assert forall x, y, z :: Union(Union(x, y), z) == Union(x, Union(y, z));
    assert forall x, y, z :: Override(Override(x, y), z) == Override(x, Override(y, z));
  }

  /** Flags accumulate, scalars are overridden, lists appended to, sets and maps added to. */
  function Merge(a: Options, b: Options): Options {
    Options(a.flags + b.flags, MergeBy(a.scalars, b.scalars, Last), MergeBy(a.lists, b.lists, Concat),
            MergeBy(a.sets, b.sets, Union), MergeBy(a.maps, b.maps, Override))
  }

  /** Merging is associative. */
  lemma MergeAssociates(a: Options, b: Options, c: Options)
    ensures Merge(Merge(a, b), c) == Merge(a, Merge(b, c))
  {
    CombinersAssociate();
    MergeByAssociates(a.scalars, b.scalars, c.scalars, Last);
    MergeByAssociates(a.lists, b.lists, c.lists, Concat);
    MergeByAssociates(a.sets, b.sets, c.sets, Union);
    MergeByAssociates(a.maps, b.maps, c.maps, Override);
    assert (a.flags + b.flags) + c.flags == a.flags + (b.flags + c.flags);
  }

  /** Unset options are the identity of merging. */
  lemma MergeUnset(a: Options)
    ensures Merge(a, UNSET) == a == Merge(UNSET, a)
  {
    MergeByEmpty(a.scalars, Last);
    MergeByEmpty(a.lists, Concat);
    MergeByEmpty(a.sets, Union);
    MergeByEmpty(a.maps, Override);
  }

  // ---- Parsing ---------------------------------------------------------------------------------

  function SetFlag(t: Table, o: Options, name: string): Options {
    if name in t.specs then o.(flags := o.flags + {t.specs[name].field}) else o
  }

  function Entry<V>(m: map<string, V>, k: string, absent: V): V {
    if k in m then m[k] else absent
  }

  function PutScalar(o: Options, f: string, v: string): Options {
    o.(scalars := o.scalars[f := v])
  }

  function PutList(o: Options, f: string, v: string): Options {
    o.(lists := o.lists[f := Entry(o.lists, f, []) + [v]])
  }

  function PutSet(o: Options, f: string, v: string): Options {
    o.(sets := o.sets[f := Entry(o.sets, f, {}) + {v}])
  }

  function PutMap(o: Options, f: string, k: string, v: string): Options {
    o.(maps := o.maps[f := Entry(o.maps, f, map[])[k := v]])
  }

  /** Parse a value into its field; nothing if it cannot be converted. */
  function PutValue(t: Table, o: Options, name: string, v: string): Option<Options> {
    if name !in t.specs || !t.valid(name, v) then None
    else
      var f := t.specs[name].field;
      match t.specs[name].kind
      case Flag => None
      case Scalar => Some(PutScalar(o, f, v))
      case List => Some(PutList(o, f, v))
      case SetOf => Some(PutSet(o, f, v))
      case MapOf => Some(PutMap(o, f, KeyOf(v), ValueOf(v)))
  }

  function GrammarOf(t: Table): Grammar<Options> {
    Grammar(set n | n in t.specs && t.specs[n].kind.Flag?,
            set n | n in t.specs && !t.specs[n].kind.Flag?,
            (o, n) => SetFlag(t, o, n),
            (o, n, v) => PutValue(t, o, n, v),
            None)
  }

  lemma SetFlagMerges(t: Table, a: Options, name: string)
    requires name in t.specs
    ensures SetFlag(t, a, name) == Merge(a, SetFlag(t, UNSET, name))
  {
    MergeUnset(a);
    assert {} + {t.specs[name].field} == {t.specs[name].field};
  }

  lemma PutScalarMerges(a: Options, f: string, v: string)
    ensures PutScalar(a, f, v) == Merge(a, PutScalar(UNSET, f, v))
  {
    MergeUnset(a);
    MergeByOne(a.scalars, f, v, Last);
  }

  lemma PutListMerges(a: Options, f: string, v: string)
    ensures PutList(a, f, v) == Merge(a, PutList(UNSET, f, v))
  {
    MergeUnset(a);
    MergeByOne(a.lists, f, [v], Concat);
    assert [] + [v] == [v];
  }

  lemma PutSetMerges(a: Options, f: string, v: string)
    ensures PutSet(a, f, v) == Merge(a, PutSet(UNSET, f, v))
  {
    MergeUnset(a);
    MergeByOne(a.sets, f, {v}, Union);
    assert {} + {v} == {v};
  }

  lemma PutMapMerges(a: Options, f: string, k: string, v: string)
    ensures PutMap(a, f, k, v) == Merge(a, PutMap(UNSET, f, k, v))
  {
    MergeUnset(a);
    MergeByOne(a.maps, f, map[k := v], Override);
    assert f in a.maps ==> a.maps[f] + map[k := v] == a.maps[f][k := v];
  }

  lemma PutValueMerges(t: Table, a: Options, name: string, v: string)
    ensures PutValue(t, a, name, v) == MergePut(Merge, a, PutValue(t, UNSET, name, v))
  {
    if name in t.specs && t.valid(name, v) {
      var f := t.specs[name].field;
      match t.specs[name].kind
      case Flag =>
      case Scalar => PutScalarMerges(a, f, v);
      case List => PutListMerges(a, f, v);
      case SetOf => PutSetMerges(a, f, v);
      case MapOf => PutMapMerges(a, f, KeyOf(v), ValueOf(v));
    }
  }

  lemma TableAdditive(t: Table)
    ensures Additive(GrammarOf(t), UNSET, Merge)
  {
    var g := GrammarOf(t);
    forall a, b, c
      ensures Merge(Merge(a, b), c) == Merge(a, Merge(b, c))
    {
      MergeAssociates(a, b, c);
    }
    forall a
      ensures Merge(a, UNSET) == a
    {
      MergeUnset(a);
    }
    forall a, name | name in g.flags
      ensures g.set_(a, name) == Merge(a, g.set_(UNSET, name))
    {
      SetFlagMerges(t, a, name);
    }
    forall a, name, v | name in g.valued
      ensures g.put(a, name, v) == MergePut(Merge, a, g.put(UNSET, name, v))
    {
      PutValueMerges(t, a, name, v);
    }
  }

  // ---- What repeating an option means ------------------------------------------------------------

  /** An option given once per value. */
  function Repeated(name: string, vs: seq<string>): seq<string> {
    if vs == [] then [] else Repeated(name, vs[..|vs| - 1]) + [name, vs[|vs| - 1]]
  }

  function KeyOf(v: string): string {
    v[..IndexOf(v, '=')]
  }

  function ValueOf(v: string): string {
    if IndexOf(v, '=') == |v| then "" else v[IndexOf(v, '=') + 1..]
  }

  /** The options hold exactly these values of this option: the last one, all in order, each once, or by key. */
  ghost predicate Holds(o: Options, s: Spec, vs: seq<string>)
    requires vs != []
  {
    match s.kind
    case Flag => false
    case Scalar => o == UNSET.(scalars := map[s.field := vs[|vs| - 1]])
    case List => o == UNSET.(lists := map[s.field := vs])
    case SetOf => o == UNSET.(sets := map[s.field := set v | v in vs])
    case MapOf => o == UNSET.(maps := map[s.field := Entry(o.maps, s.field, map[])]) && HoldsPairs(o.maps[s.field], vs)
  }

  /** The keys are those of the pairs, and each key has the value it was given last. */
  ghost predicate HoldsPairs(m: map<string, string>, vs: seq<string>) {
    && m.Keys == (set v | v in vs :: KeyOf(v))
    && forall k :: 0 <= k < |vs| && LastOfItsKey(vs, k) ==> m[KeyOf(vs[k])] == ValueOf(vs[k])
  }

  ghost predicate LastOfItsKey(vs: seq<string>, k: nat)
    requires k < |vs|
  {
    forall j :: k < j < |vs| ==> KeyOf(vs[j]) != KeyOf(vs[k])
  }

  lemma HoldsFirst(t: Table, name: string, v: string)
    requires name in t.specs && !t.specs[name].kind.Flag? && t.valid(name, v)
    ensures Holds(PutValue(t, UNSET, name, v).value, t.specs[name], [v])
  {
    assert [] + [v] == [v] && {} + {v} == {v};
    assert (set x | x in [v]) == {v};
    PairsNext(map[], [], v);
    assert [] + [v] == [v];
  }

  lemma HoldsNext(t: Table, name: string, o: Options, vs: seq<string>, v: string)
    requires name in t.specs && !t.specs[name].kind.Flag? && t.valid(name, v)
    requires vs != [] && Holds(o, t.specs[name], vs)
    ensures Holds(PutValue(t, o, name, v).value, t.specs[name], vs + [v])
  {
    hide HoldsPairs, KeyOf, ValueOf;
    match t.specs[name].kind
    case Scalar =>
    case List =>
    case SetOf => assert (set x | x in vs + [v]) == (set x | x in vs) + {v};
    case MapOf => PairsNext(o.maps[t.specs[name].field], vs, v);
  }

  lemma PairsNext(m: map<string, string>, vs: seq<string>, v: string)
    requires HoldsPairs(m, vs)
    ensures HoldsPairs(m[KeyOf(v) := ValueOf(v)], vs + [v])
  {
    hide KeyOf, ValueOf;
    var all, m' := vs + [v], m[KeyOf(v) := ValueOf(v)];
    assert (set x | x in all :: KeyOf(x)) == (set x | x in vs :: KeyOf(x)) + {KeyOf(v)};
    forall k | 0 <= k < |all| && LastOfItsKey(all, k)
      ensures m'[KeyOf(all[k])] == ValueOf(all[k])
    {
      if k < |vs| {
        assert all[|vs|] == v && all[k] == vs[k];
        assert LastOfItsKey(vs, k) by {
          assert forall j :: k < j < |vs| ==> vs[j] == all[j];
        }
      }
    }
  }

  /** Giving an option once per value leaves exactly what its kind promises. */
  lemma {:induction false} RepeatedOption(t: Table, om: Mode, am: Mode, name: string, vs: seq<string>)
    requires name in t.specs && !t.specs[name].kind.Flag? && name != "--" && vs != []
    requires forall v :: v in vs ==> t.valid(name, v)
    ensures
      var p := Parse(GrammarOf(t), om, am, UNSET, Repeated(name, vs));
      p.Done? && p.rest == [] && Holds(p.opts, t.specs[name], vs)
    decreases |vs|
  {
    var n := |vs| - 1;
    var g, v, front := GrammarOf(t), vs[n], Repeated(name, vs[..n]);
    var o := UNSET;
    if n > 0 {
      RepeatedOption(t, om, am, name, vs[..n]);
      o := Parse(g, om, am, UNSET, front).opts;
      HoldsNext(t, name, o, vs[..n], v);
      assert vs[..n] + [v] == vs;
    } else {
      HoldsFirst(t, name, v);
      assert vs == [v];
    }
    ParseAppend(g, om, am, UNSET, front, [name, v]);
    assert [name, v][2..] == [];
    assert Step(g, om, am, o, [name, v]) == Go(PutValue(t, o, name, v).value, 2);
  }

  /** A flag sets its field and nothing else. */
  lemma FlagIsSet(t: Table, om: Mode, am: Mode, o: Options, name: string)
    requires name in t.specs && t.specs[name].kind.Flag? && name != "--"
    ensures Parse(GrammarOf(t), om, am, o, [name]) == Done(o.(flags := o.flags + {t.specs[name].field}), [])
  {
    var g := GrammarOf(t);
    assert name in g.flags;
    assert Step(g, om, am, o, [name]) == Go(SetFlag(t, o, name), 1);
    assert [name][1..] == [];
  }

  /** A value of the wrong type is refused, and so is an option without its value. */
  lemma ValueIsRefused(t: Table, om: Mode, am: Mode, o: Options, name: string, v: string)
    requires name in t.specs && !t.specs[name].kind.Flag? && name != "--"
    ensures Parse(GrammarOf(t), om, am, o, [name]) == Failed(Missing(name))
    ensures !t.valid(name, v) ==> Parse(GrammarOf(t), om, am, o, [name, v]) == Failed(Invalid(name, v))
  {
    var g := GrammarOf(t);
    assert name in g.valued && name !in g.flags;
    assert Step(g, om, am, o, [name]) == Throw(Missing(name));
    assert !t.valid(name, v) ==> Step(g, om, am, o, [name, v]) == Throw(Invalid(name, v));
  }

  /** A pair is cut at its first `=`; without one it is all key. */
  lemma PairExactly(k: string, v: string)
    requires '=' !in k
    ensures KeyOf(k + ['='] + v) == k && ValueOf(k + ['='] + v) == v
    ensures KeyOf(k) == k && ValueOf(k) == ""
  {
    var pair := k + ['='] + v;
    IndexOfFirst(k, '=', v);
    assert pair[..|k|] == k && pair[|k| + 1..] == v;
    assert IndexOf(k, '=') == |k| && k[..|k|] == k;
  }

  // ---- Nested options --------------------------------------------------------------------------

  /** The variant selected last and the options gathered for each variant so far. */
  datatype Choice = Choice(variant: string, nested: map<string, Options>)

  datatype ChoiceSpec = ChoiceSpec(field: string, variants: map<string, Table>)

  /** `names` is the field in which `@name`s are put, for commands that take them: that of `--config-name`. */
  datatype FullTable = FullTable(table: Table, choices: map<string, ChoiceSpec>, names: Option<string>)

  datatype FullOptions = FullOptions(plain: Options, choices: map<string, Choice>)

  const FULL_UNSET := FullOptions(UNSET, map[])

  /** The pieces between commas. */
  function Pieces(s: string): seq<string>
    decreases |s|, 1
  {
    [s[..IndexOf(s, ',')]] + SubPieces(s)
  }

  /** The pieces that follow the first one; in an option value, those that follow the variant. */
  function SubPieces(s: string): seq<string>
    decreases |s|, 0
  {
    var n := IndexOf(s, ',');
    if n == |s| then [] else Pieces(s[n + 1..])
  }

  /** The tokens of one `name` or `name=value`; a value must be there exactly if the option takes one. */
  function PieceTokens(t: Table, piece: string): Option<seq<string>> {
    var cut := IndexOf(piece, '=');
    var name := piece[..cut];
    if name !in t.specs || t.specs[name].kind.Flag? != (cut == |piece|) then None
    else Some(if cut == |piece| then [name] else [name, piece[cut + 1..]])
  }

  function SubTokens(t: Table, pieces: seq<string>): Option<seq<string>> {
    if pieces == [] then Some([])
    else
      match (PieceTokens(t, pieces[0]), SubTokens(t, pieces[1..]))
      case (Some(one), Some(more)) => Some(one + more)
      case _ => None
  }

  /** Split the value piece by piece, as the command line does. */
  method CollectSubTokens(t: Table, v: string) returns (r: Option<seq<string>>)
    ensures r == SubTokens(t, SubPieces(v))
  {
    var ts: seq<string> := [];
    var i := IndexOf(v, ',');
    var more, left := i < |v|, if i < |v| then v[i + 1..] else "";
    ConcatNothing(SubTokens(t, SubPieces(v)));
    while more
      invariant ConcatTokens(ts, SubTokens(t, if more then Pieces(left) else [])) == SubTokens(t, SubPieces(v))
      decreases more, |left|
    {
      var n := IndexOf(left, ',');
      NextPiece(t, ts, left);
      var one := PieceTokens(t, left[..n]);
      if one.None? {
        return None;
      }
      ts := ts + one.value;
      more, left := n < |left|, if n < |left| then left[n + 1..] else "";
    }
    assert ts + [] == ts;
    r := Some(ts);
  }

  lemma NextPiece(t: Table, ts: seq<string>, left: string)
    ensures
      ConcatTokens(ts, SubTokens(t, Pieces(left))) ==
        match PieceTokens(t, left[..IndexOf(left, ',')])
        case None => None
        case Some(one) => ConcatTokens(ts + one, SubTokens(t, SubPieces(left)))
  {
    hide SubTokens, PieceTokens, SubPieces, IndexOf;
    var piece := left[..IndexOf(left, ',')];
    FirstPiece(t, piece, SubPieces(left));
    var one := PieceTokens(t, piece);
    if one.Some? {
      ConcatTwice(ts, one.value, SubTokens(t, SubPieces(left)));
    }
  }

  lemma FirstPiece(t: Table, piece: string, next: seq<string>)
    ensures SubTokens(t, [piece] + next) ==
              match PieceTokens(t, piece)
              case None => None
              case Some(one) => ConcatTokens(one, SubTokens(t, next))
  {
    assert ([piece] + next)[1..] == next;
  }

  function ConcatTokens(ts: seq<string>, r: Option<seq<string>>): Option<seq<string>> {
    if r.None? then None else Some(ts + r.value)
  }

  lemma ConcatNothing(r: Option<seq<string>>)
    ensures ConcatTokens([], r) == r
  {
    if r.Some? {
      assert [] + r.value == r.value;
    }
  }

  lemma ConcatTwice(a: seq<string>, b: seq<string>, r: Option<seq<string>>)
    ensures ConcatTokens(a, ConcatTokens(b, r)) == ConcatTokens(a + b, r)
  {
    if r.Some? {
      Associative(a, b, r.value);
    }
  }

  /** Select the variant and parse its options into those gathered for it before. */
  function PutNested(s: ChoiceSpec, nested: map<string, Options>, v: string): Option<Choice> {
    var variant := v[..IndexOf(v, ',')];
    if variant !in s.variants then None
    else
      var t := s.variants[variant];
      match SubTokens(t, SubPieces(v))
      case None => None
      case Some(ts) =>
        Select(variant, nested, Parse(GrammarOf(t), Fail, Stop, Entry(nested, variant, UNSET), ts))
  }

  /** Select the variant with the options just parsed for it. */
  function Select(variant: string, nested: map<string, Options>, p: Outcome<Options>): Option<Choice> {
    match p
    case Failed(_) => None
    case Done(o, _) => Some(Choice(variant, nested[variant := o]))
  }

  function PutFull(t: FullTable, o: FullOptions, name: string, v: string): Option<FullOptions> {
    if name in t.choices then
      var f := t.choices[name].field;
      match PutNested(t.choices[name], if f in o.choices then o.choices[f].nested else map[], v)
      case None => None
      case Some(c) => Some(o.(choices := o.choices[f := c]))
    else
      match PutValue(t.table, o.plain, name, v)
      case None => None
      case Some(p) => Some(o.(plain := p))
  }

  function FullGrammarOf(t: FullTable): Grammar<FullOptions> {
    var g := GrammarOf(t.table);
    Grammar(g.flags - t.choices.Keys, g.valued + t.choices.Keys,
            (o: FullOptions, n: string) => o.(plain := SetFlag(t.table, o.plain, n)),
            (o, n, v) => PutFull(t, o, n, v),
            if t.names.None? then None
            else Some((o: FullOptions, n: string) => o.(plain := PutList(o.plain, t.names.value, n))))
  }

  function MergeChoice(a: Choice, b: Choice): Choice {
    Choice(b.variant, MergeBy(a.nested, b.nested, Merge))
  }

  function MergeFull(a: FullOptions, b: FullOptions): FullOptions {
    FullOptions(Merge(a.plain, b.plain), MergeBy(a.choices, b.choices, MergeChoice))
  }

  lemma ChoicesAssociate()
    ensures Associates(Merge) && Associates(MergeChoice)
  {
    forall x, y, z
      ensures Merge(Merge(x, y), z) == Merge(x, Merge(y, z))
    {
      MergeAssociates(x, y, z);
    }
    forall x, y, z
      ensures MergeChoice(MergeChoice(x, y), z) == MergeChoice(x, MergeChoice(y, z))
    {
      MergeByAssociates(x.nested, y.nested, z.nested, Merge);
    }
  }

  /** Merging stays associative under nesting. */
  lemma MergeFullAssociates(a: FullOptions, b: FullOptions, c: FullOptions)
    ensures MergeFull(MergeFull(a, b), c) == MergeFull(a, MergeFull(b, c))
  {
    ChoicesAssociate();
    MergeAssociates(a.plain, b.plain, c.plain);
    MergeByAssociates(a.choices, b.choices, c.choices, MergeChoice);
  }

  /** Unset options stay its identity. */
  lemma MergeFullUnset(a: FullOptions)
    ensures MergeFull(a, FULL_UNSET) == a == MergeFull(FULL_UNSET, a)
  {
    MergeUnset(a.plain);
    MergeByEmpty(a.choices, MergeChoice);
  }

  /** The nested options parsed into are the earlier ones merged with those parsed afresh. */
  lemma PutNestedMerges(s: ChoiceSpec, nested: map<string, Options>, v: string)
    ensures
      match PutNested(s, map[], v)
      case None => PutNested(s, nested, v) == None
      case Some(c) => PutNested(s, nested, v) == Some(Choice(c.variant, MergeBy(nested, c.nested, Merge)))
  {
    var variant := v[..IndexOf(v, ',')];
    if variant in s.variants && SubTokens(s.variants[variant], SubPieces(v)).Some? {
      var t := s.variants[variant];
      var ts := SubTokens(t, SubPieces(v)).value;
      NestedParseMerges(t, Entry(nested, variant, UNSET), ts);
      SelectMerges(variant, nested, Parse(GrammarOf(t), Fail, Stop, UNSET, ts));
      assert Entry<Options>(map[], variant, UNSET) == UNSET;
    }
  }

  lemma SelectMerges(variant: string, nested: map<string, Options>, p: Outcome<Options>)
    ensures
      match Select(variant, map[], p)
      case None => Select(variant, nested, MergeOutcome(Merge, Entry(nested, variant, UNSET), p)) == None
      case Some(c) => Select(variant, nested, MergeOutcome(Merge, Entry(nested, variant, UNSET), p)) ==
                        Some(Choice(c.variant, MergeBy(nested, c.nested, Merge)))
  {
    if p.Done? {
      MergeUnset(p.opts);
      MergeByOne(nested, variant, p.opts, Merge);
    }
  }

  lemma NestedParseMerges(t: Table, before: Options, ts: seq<string>)
    ensures Parse(GrammarOf(t), Fail, Stop, before, ts) ==
              MergeOutcome(Merge, before, Parse(GrammarOf(t), Fail, Stop, UNSET, ts))
  {
    TableAdditive(t);
    MergeUnset(before);
    ParseMerges(GrammarOf(t), UNSET, Merge, Fail, Stop, before, UNSET, ts);
  }

  lemma PutFullMerges(t: FullTable, a: FullOptions, name: string, v: string)
    ensures PutFull(t, a, name, v) == MergePut(MergeFull, a, PutFull(t, FULL_UNSET, name, v))
  {
    MergeFullUnset(a);
    if name in t.choices {
      var f := t.choices[name].field;
      PutNestedMerges(t.choices[name], if f in a.choices then a.choices[f].nested else map[], v);
      var p := PutNested(t.choices[name], map[], v);
      if p.Some? {
        MergeByEmpty(p.value.nested, Merge);
        MergeByOne(a.choices, f, p.value, MergeChoice);
      }
    } else {
      PutValueMerges(t.table, a.plain, name, v);
    }
  }

  lemma FullTableAdditive(t: FullTable)
    ensures Additive(FullGrammarOf(t), FULL_UNSET, MergeFull)
  {
    var g := FullGrammarOf(t);
    forall a, b, c
      ensures MergeFull(MergeFull(a, b), c) == MergeFull(a, MergeFull(b, c))
    {
      MergeFullAssociates(a, b, c);
    }
    forall a
      ensures MergeFull(a, FULL_UNSET) == a
    {
      MergeFullUnset(a);
    }
    forall a, name | name in g.flags
      ensures g.set_(a, name) == MergeFull(a, g.set_(FULL_UNSET, name))
    {
      SetFlagMerges(t.table, a.plain, name);
      MergeFullUnset(a);
    }
    forall a, name, v | name in g.valued
      ensures g.put(a, name, v) == MergePut(MergeFull, a, g.put(FULL_UNSET, name, v))
    {
      PutFullMerges(t, a, name, v);
    }
  }

  /** For every options class, parsing one line after another is merging what each parses to. */
  lemma ParsingIsMerging(t: FullTable, om: Mode, am: Mode, xs: seq<string>, ys: seq<string>)
    requires Parse(FullGrammarOf(t), om, am, FULL_UNSET, xs).Done?
    requires Parse(FullGrammarOf(t), om, am, FULL_UNSET, xs).rest == []
    ensures Parse(FullGrammarOf(t), om, am, FULL_UNSET, xs + ys) ==
              MergeOutcome(MergeFull, Parse(FullGrammarOf(t), om, am, FULL_UNSET, xs).opts,
                           Parse(FullGrammarOf(t), om, am, FULL_UNSET, ys))
  {
    FullTableAdditive(t);
    ParseHomomorphism(FullGrammarOf(t), FULL_UNSET, MergeFull, om, am, xs, ys);
  }

  // ---- Nested options always parse to the end ----------------------------------------------------

  /** Sub-options are checked before they are parsed, so parsing leaves none of them behind. */
  lemma {:induction false} SubOptionsParseToEnd(t: Table, o: Options, pieces: seq<string>)
    requires "--" !in t.specs && SubTokens(t, pieces).Some?
    ensures
      var p := Parse(GrammarOf(t), Fail, Stop, o, SubTokens(t, pieces).value);
      p.Done? ==> p.rest == []
    ensures (forall n, v :: n in t.specs ==> t.valid(n, v)) ==>
              Parse(GrammarOf(t), Fail, Stop, o, SubTokens(t, pieces).value).Done?
    decreases |pieces|
  {
    if pieces != [] {
      var one, more := PieceTokens(t, pieces[0]).value, SubTokens(t, pieces[1..]).value;
      var ts := one + more;
      OnePieceParses(t, o, pieces[0], more);
      var s := Step(GrammarOf(t), Fail, Stop, o, ts);
      if s.Go? {
        assert ts[|one|..] == more;
        SubOptionsParseToEnd(t, s.opts, pieces[1..]);
      }
    }
  }

  lemma OnePieceParses(t: Table, o: Options, piece: string, more: seq<string>)
    requires "--" !in t.specs && PieceTokens(t, piece).Some?
    ensures
      var one := PieceTokens(t, piece).value;
      var s := Step(GrammarOf(t), Fail, Stop, o, one + more);
      (s.Go? ==> s.used == |one|) && !s.Halt? && (t.valid(one[0], if |one| == 2 then one[1] else "") ==> s.Go?)
  {
    var one := PieceTokens(t, piece).value;
    var ts := one + more;
    assert ts[0] == one[0] && (|one| == 2 ==> ts[1] == one[1]);
    assert one[0] in t.specs;
  }
}
