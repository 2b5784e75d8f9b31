/**
 The group scanner as the stateful object it is: a peeked/scanned/skipped machine over another
 scanner. Every call is specified by what it does to the items still to be delivered, so that any
 interleaving of calls delivers exactly what `Groups.Parse` reads.
 */
module GroupScanner {
  import opened Common
  import opened Groups

  class VectorScanner {
    const v: seq<string>
    var i: nat

    constructor (v: seq<string>)
      ensures Valid() && Rest() == v && fresh(this)
    {
      this.v, i := v, 0;
    }

    predicate Valid()
      reads this
    {
      i <= |v|
    }

    /** The tokens not read yet. */
    function Rest(): seq<string>
      requires Valid()
      reads this
    {
      v[i..]
    }

    predicate More()
      requires Valid()
      reads this
      ensures More() <==> Rest() != []
    {
      i < |v|
    }

    function Peek(): (r: Result<string, Error>)
      requires Valid()
      reads this
      ensures r == if Rest() == [] then Err(EndOfStream) else Ok(Rest()[0])
    {
      if i < |v| then Ok(v[i]) else Err(EndOfStream)
    }

    method Next() returns (r: Result<string, Error>)
      requires Valid()
      modifies this
      ensures Valid()
      ensures old(Rest()) == [] ==> r == Err(EndOfStream) && Rest() == []
      ensures old(Rest()) != [] ==> r == Ok(old(Rest())[0]) && Rest() == old(Rest())[1..]
    {
      if i < |v| {
        r := Ok(v[i]);
        i := i + 1;
      } else {
        r := Err(EndOfStream);
      }
    }
  }

  datatype State = Peeked | Scanned | Skipped

  /** What a call that consumes an argument gets. */
  function First(p: Parsed): Result<Item, Error> {
    if p.items != [] then Ok(p.items[0])
    else if p.error.Some? then Err(p.error.value)
    else Err(EndOfStream)
  }

  /** What is left once it got it. */
  function Later(p: Parsed): Parsed
    requires p.items != []
  {
    p.(items := p.items[1..])
  }

  lemma SomethingPending(lead: seq<string>, ts: seq<string>)
    requires ts != []
    ensures Parse(ts) != Parsed([], None)
    ensures ParseArgument(lead, ts) != Parsed([], None)
  {
    if ReadGroups(Before, ts).Ok? {
      var back := ReadGroups(Before, ts).value.1;
      assert Parse(ts) == ParseArgument(ReadGroups(Before, ts).value.0, back);
      assert ReadGroups(After, back[1..]).Ok? ==> ParseArgument(ReadGroups(Before, ts).value.0, back).items != [];
    }
    assert ReadGroups(After, ts[1..]).Ok? ==> ParseArgument(lead, ts).items != [];
  }

  /** The scanner looks past a backslash before it classifies a token. */
  lemma Classified(a: string)
    ensures
      var escaped := |a| > 0 && a[0] == '\\';
      var s := Sense(if escaped then a[1..] else a);
      && (s == NoSeparator || escaped <==> !IsSeparator(a))
      && (IsSeparator(a) ==> s == Sense(a))
      && Value(a) == if s != NoSeparator && escaped then a[1..] else a
  {
  }

  lemma PrependTwice(a: seq<string>, b: seq<string>, r: Result<(seq<string>, seq<string>), Error>)
    ensures Prepend(a, Prepend(b, r)) == Prepend(a + b, r)
  {
    if r.Ok? {
      Associative(a, b, r.value.0);
    }
  }

  /** Reading groups is reading the first and then the others. */
  lemma GroupByGroup(side: Side, ts: seq<string>, gained: seq<string>)
    requires ts != [] && Sense(ts[0]) == Opening(side)
    ensures
      var closing := AfterBody(ts[1..]);
      Prepend(gained, ReadGroups(side, ts)) ==
        if closing == [] then Err(GroupSeparator("", Spelling(Closing(side))))
        else if Sense(closing[0]) != Closing(side) then Err(GroupSeparator(closing[0], Spelling(Closing(side))))
        else if side.Before? && closing[1..] == [] then Err(GroupSeparator("{", ""))
        else Prepend(gained + BodyValues(ts[1..]), ReadGroups(side, closing[1..]))
  {
    var closing := AfterBody(ts[1..]);
    if closing != [] {
      PrependTwice(gained, BodyValues(ts[1..]), ReadGroups(side, closing[1..]));
    }
  }

  lemma PrependNothing(r: Result<(seq<string>, seq<string>), Error>)
    ensures Prepend([], r) == r
  {
    if r.Ok? {
      assert [] + r.value.0 == r.value.0;
    }
  }

  class Scanner {
    const scan: VectorScanner
    var state: State
    var arg: string
    var group: seq<string>
    var handled: nat

    constructor (scan: VectorScanner)
      requires scan.Valid()
      ensures Valid() && Handled() && this.scan == scan && fresh(this)
      ensures Pending() == Parse(scan.Rest())
    {
      this.scan, state, arg, group, handled := scan, Skipped, "", [], 0;
    }

    ghost predicate Valid()
      reads this, scan
    {
      && scan.Valid() && handled <= |group|
      && (state.Peeked? ==> handled == 0)
      && (state.Peeked? && scan.Rest() != [] ==> !IsSeparator(scan.Rest()[0]) && arg == Value(scan.Rest()[0]))
    }

    /** The group of the last argument scanned, if any, has been read to its end. */
    ghost predicate Handled()
      reads this
    {
      state.Scanned? ==> handled == |group|
    }

    /** What is still to be delivered. */
    ghost function Pending(): Parsed
      requires Valid()
      reads this, scan
    {
      if !state.Peeked? then Parse(scan.Rest())
      else if scan.Rest() == [] then Parsed([], None)
      else ParseArgument(group, scan.Rest())
    }

    method More() returns (r: Result<bool, Error>)
      requires Valid()
      ensures !Handled() ==> r == Err(UnexpectedGroup(arg, group[handled]))
      ensures Handled() ==> r == Ok(Pending() != Parsed([], None))
    {
      if state.Scanned? && handled != |group| {
        return Err(UnexpectedGroup(arg, group[handled]));
      }
      if scan.More() {
        SomethingPending(group, scan.Rest());
      }
      r := Ok(scan.More());
    }

    method Peek() returns (r: Result<string, Error>)
      requires Valid()
      modifies this, scan
      ensures old(!Handled()) ==> r == Err(UnexpectedGroup(old(arg), old(group[handled])))
      ensures r.Ok? ==> Valid() && Handled() && Pending() == old(Pending())
      ensures old(Handled()) && r.Err? ==> First(old(Pending())) == Err(r.error)
      ensures r.Ok? && First(old(Pending())).Ok? ==> r.value == First(old(Pending())).value.arg
    {
      if !state.Peeked? {
        var e := ScanGroup(Peeked);
        if e.Some? {
          return Err(e.value);
        }
      }
      var p := scan.Peek();
      r := if p.Ok? then Ok(arg) else Err(p.error);
    }

    /** Deliver the next argument; its group is ready to be read. */
    method Next() returns (r: Result<string, Error>)
      requires Valid()
      modifies this, scan
      ensures old(!Handled()) ==> r == Err(UnexpectedGroup(old(arg), old(group[handled])))
      ensures
        old(Handled()) ==>
          match First(old(Pending()))
          case Ok(item) => r == Ok(item.arg)
          case Err(e) => r == Err(e)
      ensures old(Handled()) && old(Pending()).items == [] && old(Pending()).error.Some? ==>
                r == Err(old(Pending()).error.value)
      ensures old(Handled()) && old(Pending()).items != [] ==>
                && r == Ok(old(Pending()).items[0].arg) && Valid()
                && Pending() == Parsed(old(Pending()).items[1..], old(Pending()).error)
      ensures r.Ok? ==>
                && Valid() && state.Scanned? && handled == 0 && arg == r.value
                && group == old(Pending()).items[0].group
                && Pending() == Later(old(Pending()))
    {
      r := Advance(Scanned);
    }

    /** Pass over the next argument; its group may be looked at but need not be. */
    method Skip() returns (r: Result<(), Error>)
      requires Valid()
      modifies this, scan
      ensures old(!Handled()) ==> r == Err(UnexpectedGroup(old(arg), old(group[handled])))
      ensures
        old(Handled()) ==>
          match First(old(Pending()))
          case Ok(item) => r == Ok(())
          case Err(e) => r == Err(e)
      ensures r.Ok? ==>
                && Valid() && Handled() && state.Skipped?
                && group == old(Pending()).items[0].group
                && Pending() == Later(old(Pending()))
    {
      var a := Advance(Skipped);
      r := if a.Ok? then Ok(()) else Err(a.error);
    }

    method Advance(st: State) returns (r: Result<string, Error>)
      requires Valid() && !st.Peeked?
      modifies this, scan
      ensures old(!Handled()) ==> r == Err(UnexpectedGroup(old(arg), old(group[handled])))
      ensures
        old(Handled()) ==>
          match First(old(Pending()))
          case Ok(item) => r == Ok(item.arg)
          case Err(e) => r == Err(e)
      ensures r.Ok? ==>
                && Valid() && state == st && handled == 0 && arg == r.value
                && group == old(Pending()).items[0].group
                && Pending() == Later(old(Pending()))
    {
      if !state.Peeked? {
        var e := ScanGroup(Peeked);
        if e.Some? {
          return Err(e.value);
        }
      }
      assert Pending() == old(Pending());
      ghost var lead, ts := group, scan.Rest();
      var t := scan.Next();
      if t.Err? {
        return Err(t.error);
      }
      assert old(Pending()) == ParseArgument(lead, ts);
      var e := ScanGroup(st);
      r := if e.Some? then Err(e.value) else Ok(arg);
    }

    /** Hand over the next value of the current group. */
    method NextInGroup() returns (s: string)
      requires Valid() && !state.Peeked? && handled < |group|
      modifies this`handled
      ensures s == old(group[handled]) && handled == old(handled) + 1
      ensures Valid() && Pending() == old(Pending())
    {
      s := group[handled];
      handled := handled + 1;
    }

    /** Scan the groups before the next argument or, once it has been peeked at and passed, after it. */
    method ScanGroup(st: State) returns (e: Option<Error>)
      requires scan.Valid() && handled <= |group|
      requires st.Peeked? ==> !state.Peeked?
      requires state.Peeked? ==> handled == 0
      modifies this, scan
      ensures old(!Handled()) ==> e == Some(UnexpectedGroup(old(arg), old(group[handled])))
      ensures old(Handled()) && old(state).Peeked? ==>
                match ReadGroups(After, old(scan.Rest()))
                case Err(err) => e == Some(err)
                case Ok((vs, rest)) =>
                  && e == None && scan.Valid() && scan.Rest() == rest && state == st && handled == 0
                  && group == old(group) + vs && arg == old(arg)
      ensures old(Handled()) && !old(state).Peeked? ==>
                match ReadGroups(Before, old(scan.Rest()))
                case Err(err) => e == Some(err)
                case Ok((vs, rest)) =>
                  && e == None && scan.Valid() && scan.Rest() == rest && state == st && handled == 0
                  && group == vs && arg == if rest == [] then "" else Value(rest[0])
    {
      if state.Scanned? && handled != |group| {
        return Some(UnexpectedGroup(arg, group[handled]));
      }
      if !state.Peeked? {
        arg, group, handled := "", [], 0;
      }

      e := ReadSide(if state.Peeked? then After else Before);
      if e.Some? {
        return;
      }
      if !state.Peeked? && scan.More() {
        arg := Value(scan.Peek().value);
      }
      state := st;
    }

    /** Read group after group until an argument, the next one's leading group or the end. */
    method ReadSide(side: Side) returns (e: Option<Error>)
      requires scan.Valid()
      modifies this`group, scan
      ensures
        match ReadGroups(side, old(scan.Rest()))
        case Err(err) => e == Some(err)
        case Ok((vs, rest)) => e == None && scan.Valid() && scan.Rest() == rest && group == old(group) + vs
    {
      hide BodyValues, AfterBody;
      ghost var gained: seq<string> := [];
      ghost var goal := ReadGroups(side, scan.Rest());
      PrependNothing(goal);
      var g := false;

      while scan.More()
        invariant scan.Valid() && group == old(group) + gained
        invariant goal == if g && side.Before? && scan.Rest() == [] then Err(GroupSeparator("{", ""))
                          else Prepend(gained, ReadGroups(side, scan.Rest()))
        decreases |scan.Rest()|
      {
        ghost var ts := scan.Rest();
        var a := scan.Peek().value;
        var s := Sense(a);
        if s == NoSeparator || (s == Open && side.After?) {
          break;
        }
        if s != Opening(side) {
          return Some(GroupSeparator(a, ""));
        }
        g := true;
        GroupByGroup(side, ts, gained);
        e := ReadGroup(side);
        if e.Some? {
          return;
        }
        gained := gained + BodyValues(ts[1..]);
      }

      if g && side.Before? && !scan.More() {
        return Some(GroupSeparator("{", ""));
      }
      e := None;
    }

    /** Read one group through to its closing separator. */
    method ReadGroup(side: Side) returns (e: Option<Error>)
      requires scan.Valid() && scan.More()
      modifies this`group, scan
      ensures scan.Valid()
      ensures
        var closing := AfterBody(old(scan.Rest())[1..]);
        if closing == [] then e == Some(GroupSeparator("", Spelling(Closing(side))))
        else if Sense(closing[0]) != Closing(side) then
          e == Some(GroupSeparator(closing[0], Spelling(Closing(side))))
        else e == None && group == old(group) + BodyValues(old(scan.Rest())[1..]) && scan.Rest() == closing[1..]
    {
      var close, closer := ReadWords();
      if close == NoSeparator {
        e := Some(GroupSeparator("", Spelling(Closing(side))));
      } else if close != Closing(side) {
        e := Some(GroupSeparator(closer, Spelling(Closing(side))));
      } else {
        e := None;
      }
    }

    /** Pass the opening separator and append values to the group up to a separator or the end. */
    method ReadWords() returns (close: Separator, closer: string)
      requires scan.Valid() && scan.More()
      modifies this`group, scan
      ensures scan.Valid()
      ensures group == old(group) + BodyValues(old(scan.Rest())[1..])
      ensures
        var closing := AfterBody(old(scan.Rest())[1..]);
        if closing == [] then close == NoSeparator && scan.Rest() == []
        else close == Sense(closing[0]) && closer == closing[0] && scan.Rest() == closing[1..]
    {
      var _ := scan.Next();
      ghost var goal, closing := group + BodyValues(scan.Rest()), AfterBody(scan.Rest());
      close, closer := NoSeparator, "";
      while close == NoSeparator && scan.More()
        invariant scan.Valid()
        invariant close == NoSeparator ==>
                    goal == group + BodyValues(scan.Rest()) && closing == AfterBody(scan.Rest())
        invariant close != NoSeparator ==>
                    && goal == group && closing != [] && close == Sense(closing[0])
                    && closer == closing[0] && scan.Rest() == closing[1..]
        decreases |scan.Rest()|
      {
        close, closer := ReadWord();
      }
    }

    /** Take one token of a group: a value is appended, a separator is reported. */
    method ReadWord() returns (close: Separator, closer: string)
      requires scan.Valid() && scan.More()
      modifies this`group, scan
      ensures scan.Valid() && scan.Rest() == old(scan.Rest())[1..] && closer == old(scan.Rest())[0]
      ensures close == Sense(closer)
      ensures group == old(group) + if close == NoSeparator then [Value(closer)] else []
    {
      var a := scan.Next();
      closer := a.value;
      Classified(closer);
      var escaped := |closer| > 0 && closer[0] == '\\';
      close := Sense(if escaped then closer[1..] else closer);
      if close == NoSeparator || escaped {
        group := group + [if close != NoSeparator then closer[1..] else closer];
        close := NoSeparator;
      }
    }
  }

  /** Copy one argument over, group included. */
  method ScanArgument(r: seq<string>, s: Scanner) returns (r': seq<string>, e: Option<Error>)
    requires s.Valid() && s.Handled()
    modifies s, s.scan
    ensures old(s.Pending()).items != [] ==>
              && e == None && s.Valid() && s.Handled()
              && r' == r + PrintItem(old(s.Pending()).items[0])
              && s.Pending() == Later(old(s.Pending()))
    ensures old(s.Pending()).items == [] ==> r' == r && e == Some(First(old(s.Pending())).error)
  {
    r' := r;
    var a := s.Next();
    if a.Err? {
      return r', Some(a.error);
    }
    e := None;
    r' := r' + [Escape(a.value)];
    ghost var g := s.group;
    if s.handled < |s.group| {
      r' := CopyGroup(r' + ["+{"], s);
      r' := r' + ["}"];
      assert r' == r + ([Escape(a.value)] + (["+{"] + Escapes(g) + ["}"]));
    }
  }

  /** Copy the values of the current group over, escaped. */
  method CopyGroup(r: seq<string>, s: Scanner) returns (r': seq<string>)
    requires s.Valid() && s.state.Scanned? && s.handled == 0
    modifies s`handled
    ensures s.Valid() && s.Handled() && s.Pending() == old(s.Pending())
    ensures r' == r + Escapes(s.group)
  {
    r' := r;
    assert s.group[0..] == s.group;
    while s.handled < |s.group|
      invariant s.Valid() && s.Pending() == old(s.Pending())
      invariant r' + Escapes(s.group[s.handled..]) == r + Escapes(s.group)
      decreases |s.group| - s.handled
    {
      assert s.group[s.handled..][1..] == s.group[s.handled + 1..];
      var v := s.NextInGroup();
      r' := r' + [Escape(v)];
    }
  }

  /** Copy everything left; the copy is the printed form of all that was read. */
  method ScanArguments(s: Scanner) returns (r: seq<string>, e: Option<Error>)
    requires s.Valid() && s.Handled()
    modifies s, s.scan
    ensures r == Print(old(s.Pending()).items) && e == old(s.Pending()).error
    ensures Parse(r) == Parsed(old(s.Pending()).items, None) <==> Clean(old(s.Pending()).items)
  {
    r, e := [], None;
    ghost var all := s.Pending();
    PrintThenParse(all.items);
    while true
      invariant s.Valid() && s.Handled() && s.Pending().error == all.error
      invariant r + Print(s.Pending().items) == Print(all.items)
      decreases |s.Pending().items|
    {
      var more := s.More();
      if !more.value {
        return r, None;
      }
      ghost var p := s.Pending();
      ghost var r0 := r;
      r, e := ScanArgument(r, s);
      if e.Some? {
        return;
      }
      Associative(r0, PrintItem(p.items[0]), Print(p.items[1..]));
    }
  }
}
