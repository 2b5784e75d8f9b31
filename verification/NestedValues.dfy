/** The value of `--type` and its like by its text: a variant and, behind commas, options of its own. */
module NestedValues {
  import opened Common
  import opened OptionParser
  import opened OptionValues

  /** An option of the variant as written: `name` or `name=value`. */
  datatype Sub = SubFlag(name: string) | SubValue(name: string, value: string)

  /** The variant has the option, with or without a value as written, and no text runs into the next. */
  predicate Spelled(t: Table, s: Sub) {
    && s.name in t.specs && (s.SubFlag? <==> t.specs[s.name].kind.Flag?)
    && '=' !in s.name && ',' !in s.name && (s.SubValue? ==> ',' !in s.value)
  }

  predicate AllSpelled(t: Table, subs: seq<Sub>) {
    forall k :: 0 <= k < |subs| ==> Spelled(t, subs[k])
  }

  function SubText(s: Sub): string {
    if s.SubFlag? then s.name else s.name + ['='] + s.value
  }

  function Texts(subs: seq<Sub>): seq<string> {
    if subs == [] then [] else [SubText(subs[0])] + Texts(subs[1..])
  }

  /** `a,b=v,c` */
  function JoinSubs(subs: seq<Sub>): string
    requires subs != []
  {
    if |subs| == 1 then SubText(subs[0]) else SubText(subs[0]) + [','] + JoinSubs(subs[1..])
  }

  function ValueText(variant: string, subs: seq<Sub>): string {
    if subs == [] then variant else variant + [','] + JoinSubs(subs)
  }

  function TokensOf(s: Sub): seq<string> {
    if s.SubFlag? then [s.name] else [s.name, s.value]
  }

  function SubsTokens(subs: seq<Sub>): seq<string> {
    if subs == [] then [] else TokensOf(subs[0]) + SubsTokens(subs[1..])
  }

  lemma IndexOfAbsent(s: string, c: char)
    requires c !in s
    ensures IndexOf(s, c) == |s|
  {
  }

  lemma SubTextHasNoComma(t: Table, s: Sub)
    requires Spelled(t, s)
    ensures ',' !in SubText(s)
  {
  }

  lemma {:induction false} JoinedPieces(t: Table, subs: seq<Sub>)
    requires subs != [] && AllSpelled(t, subs)
    ensures Pieces(JoinSubs(subs)) == Texts(subs)
    decreases |subs|
  {
    var first := SubText(subs[0]);
    SubTextHasNoComma(t, subs[0]);
    if |subs| == 1 {
      IndexOfAbsent(first, ',');
      assert first[..|first|] == first && subs[1..] == [];
    } else {
      var rest := JoinSubs(subs[1..]);
      var all := first + [','] + rest;
      IndexOfFirst(first, ',', rest);
      assert all[..|first|] == first && all[|first| + 1..] == rest;
      JoinedPieces(t, subs[1..]);
    }
  }

  /** An option of the variant is taken with a value exactly if it takes one, and as what it is. */
  lemma PieceExactly(t: Table, s: Sub)
    requires '=' !in s.name
    ensures PieceTokens(t, SubText(s)) ==
              if s.name in t.specs && (s.SubFlag? <==> t.specs[s.name].kind.Flag?) then Some(TokensOf(s)) else None
  {
    var text := SubText(s);
    if s.SubFlag? {
      IndexOfAbsent(text, '=');
      assert text[..|text|] == text;
    } else {
      IndexOfFirst(s.name, '=', s.value);
      assert text[..|s.name|] == s.name && text[|s.name| + 1..] == s.value;
    }
  }

  lemma {:induction false} TextsTokens(t: Table, subs: seq<Sub>)
    requires AllSpelled(t, subs)
    ensures SubTokens(t, Texts(subs)) == Some(SubsTokens(subs))
    decreases |subs|
  {
    if subs != [] {
      assert Spelled(t, subs[0]);
      PieceExactly(t, subs[0]);
      TextsTokens(t, subs[1..]);
      assert Texts(subs)[1..] == Texts(subs[1..]);
    }
  }

  lemma ValuePieces(t: Table, variant: string, subs: seq<Sub>)
    requires ',' !in variant && AllSpelled(t, subs)
    ensures
      var v := ValueText(variant, subs);
      v[..IndexOf(v, ',')] == variant && SubPieces(v) == Texts(subs)
  {
    var v := ValueText(variant, subs);
    if subs == [] {
      IndexOfAbsent(variant, ',');
      assert v[..|v|] == v;
    } else {
      var rest := JoinSubs(subs);
      IndexOfFirst(variant, ',', rest);
      assert v[..|variant|] == variant && v[|variant| + 1..] == rest;
      JoinedPieces(t, subs);
    }
  }

  /**
   A variant with options behind it selects the variant and parses exactly those options, in order, into
   what was gathered for it before.
   */
  lemma NestedValueReads(s: ChoiceSpec, nested: map<string, Options>, variant: string, subs: seq<Sub>)
    requires variant in s.variants && ',' !in variant && AllSpelled(s.variants[variant], subs)
    ensures
      var before := if variant in nested then nested[variant] else UNSET;
      var p := Parse(GrammarOf(s.variants[variant]), Fail, Stop, before, SubsTokens(subs));
      PutNested(s, nested, ValueText(variant, subs)) ==
        if p.Done? then Some(Choice(variant, nested[variant := p.opts])) else None
  {
    hide Parse, SubTokens, SubPieces, ValueText, GrammarOf;
    ValuePieces(s.variants[variant], variant, subs);
    TextsTokens(s.variants[variant], subs);
  }

  /** An unknown variant is refused, and so is one unsuitable option among others. */
  lemma NestedValueRefused(s: ChoiceSpec, nested: map<string, Options>, v: string, k: nat)
    requires
      var variant := v[..IndexOf(v, ',')];
      || variant !in s.variants
      || (k < |SubPieces(v)| && PieceTokens(s.variants[variant], SubPieces(v)[k]).None?)
    ensures PutNested(s, nested, v) == None
  {
    var variant := v[..IndexOf(v, ',')];
    if variant in s.variants {
      OneBadPiece(s.variants[variant], SubPieces(v), k);
    }
  }

  lemma {:induction false} OneBadPiece(t: Table, pieces: seq<string>, k: nat)
    requires k < |pieces| && PieceTokens(t, pieces[k]).None?
    ensures SubTokens(t, pieces) == None
    decreases |pieces|
  {
    if k > 0 {
      OneBadPiece(t, pieces[1..], k - 1);
    }
  }

  /** On the command line: the option with such a value leaves the choice in its field and nothing else. */
  lemma ChoiceIsSet(t: FullTable, om: Mode, am: Mode, name: string, variant: string, subs: seq<Sub>)
    requires name in t.choices && name != "--"
    requires
      var s := t.choices[name];
      variant in s.variants && ',' !in variant && AllSpelled(s.variants[variant], subs)
    ensures
      var s, v := t.choices[name], ValueText(variant, subs);
      var p := Parse(GrammarOf(s.variants[variant]), Fail, Stop, UNSET, SubsTokens(subs));
      Parse(FullGrammarOf(t), om, am, FULL_UNSET, [name, v]) ==
        if p.Done? then Done(FullOptions(UNSET, map[s.field := Choice(variant, map[variant := p.opts])]), [])
        else Failed(Invalid(name, v))
  {
    hide PutNested, ValueText, GrammarOf, SubsTokens;
    var s, v := t.choices[name], ValueText(variant, subs);
    NestedValueReads(s, map[], variant, subs);
    var g := FullGrammarOf(t);
    assert name in g.valued && name !in g.flags;
    assert [name, v][2..] == [];
    var o := PutFull(t, FULL_UNSET, name, v);
    assert Step(g, om, am, FULL_UNSET, [name, v]) ==
             if o.Some? then Go(o.value, 2) else Throw(Invalid(name, v));
  }
}
