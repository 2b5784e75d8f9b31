/** The argument vector scanner, which in erasing mode shifts what it has returned out of the array. */
module ArgvScanner {
  import opened Common

  /** What a vacated slot of the array holds: a null pointer in the program. */
  const NULL := ""

  class Scanner {
    const argv: array<string>
    const erase: bool
    var argc: nat
    var i: nat

    constructor (start: nat, argv: array<string>, erase: bool)
      requires start <= argv.Length
      ensures Valid() && this.argv == argv && this.erase == erase && fresh(this)
      ensures i == start && argc == argv.Length
    {
      this.argv, this.erase := argv, erase;
      argc, i := argv.Length, start;
    }

    predicate Valid()
      reads this
    {
      i <= argc <= argv.Length
    }

    /** What precedes the scanning position. */
    function Passed(): seq<string>
      requires Valid()
      reads this, argv
    {
      argv[..i]
    }

    /** What is still to be scanned. */
    function Rest(): seq<string>
      requires Valid()
      reads this, argv
    {
      argv[i..argc]
    }

    predicate More()
      requires Valid()
      reads this, argv
      ensures More() <==> Rest() != []
    {
      i < argc
    }

    function Peek(): (r: Option<string>)
      requires Valid()
      reads this, argv
      ensures r == if Rest() == [] then None else Some(Rest()[0])
    {
      if i < argc then Some(argv[i]) else None
    }

    /** Return the next argument, or nothing at the end of the stream. */
    method Next() returns (r: Option<string>)
      requires Valid()
      modifies this, argv
      ensures Valid()
      ensures old(Rest()) == [] ==>
                r == None && argv[..] == old(argv[..]) && argc == old(argc) && i == old(i)
      ensures old(Rest()) != [] ==> r == Some(old(Rest())[0]) && Rest() == old(Rest())[1..]
      ensures old(Rest()) != [] && !erase ==>
                argv[..] == old(argv[..]) && argc == old(argc) && i == old(i) + 1
      ensures old(Rest()) != [] && erase ==>
                && Passed() == old(Passed()) && argc == old(argc) - 1 && i == old(i)
                && argv[argc] == NULL && argv[argc + 1..] == old(argv[argc..])
    {
      if i == argc {
        return None;
      }
      r := Some(argv[i]);
      if erase {
        Shift();
        argc := argc - 1;
        argv[argc] := NULL;
      } else {
        i := i + 1;
      }
    }

    /** Move every argument after the current one a slot down. */
    method Shift()
      requires Valid() && i < argc
      modifies argv
      ensures argv[..i] == old(argv[..i])
      ensures argv[i..argc - 1] == old(argv[i + 1..argc])
      ensures argv[argc..] == old(argv[argc..])
    {
      for k := i + 1 to argc
        invariant forall j :: 0 <= j < i ==> argv[j] == old(argv[j])
        invariant forall j :: i <= j < k - 1 ==> argv[j] == old(argv[j + 1])
        invariant forall j :: k - 1 <= j < argv.Length ==> argv[j] == old(argv[j])
      {
        argv[k - 1] := argv[k];
      }
    }

    /** Pass over the next argument, leaving it in the array. */
    method Skip() returns (ok: bool)
      requires Valid()
      modifies this`i
      ensures Valid() && ok == (old(Rest()) != [])
      ensures ok ==> i == old(i) + 1 && Rest() == old(Rest())[1..] && Passed() == old(Passed()) + [old(Rest())[0]]
      ensures !ok ==> i == old(i)
    {
      ok := i < argc;
      if ok {
        i := i + 1;
      }
    }
  }

  // ---- Runs ------------------------------------------------------------------------------------

  datatype Call = Next | Skip

  /** What a run of calls returns, passes over and leaves; calls at the end of the stream do nothing. */
  function Returned(ts: seq<string>, calls: seq<Call>): seq<string> {
    if ts == [] || calls == [] then []
    else (if calls[0].Next? then [ts[0]] else []) + Returned(ts[1..], calls[1..])
  }

  function Skipped(ts: seq<string>, calls: seq<Call>): seq<string> {
    if ts == [] || calls == [] then []
    else (if calls[0].Skip? then [ts[0]] else []) + Skipped(ts[1..], calls[1..])
  }

  function Left(ts: seq<string>, calls: seq<Call>): seq<string> {
    if ts == [] || calls == [] then ts else Left(ts[1..], calls[1..])
  }

  /** Every argument is returned, passed over or left, none twice. */
  lemma {:induction false} NothingIsLost(ts: seq<string>, calls: seq<Call>)
    ensures multiset(ts) ==
              multiset(Returned(ts, calls)) + multiset(Skipped(ts, calls)) + multiset(Left(ts, calls))
    ensures |ts| == |Returned(ts, calls)| + |Skipped(ts, calls)| + |Left(ts, calls)|
  {
    if ts != [] && calls != [] {
      assert ts == [ts[0]] + ts[1..];
      NothingIsLost(ts[1..], calls[1..]);
    }
  }

  /** Doing the next call first changes nothing about the outcome of the run. */
  lemma CallByCall(returned: seq<string>, front: seq<string>, ts: seq<string>, calls: seq<Call>, n: nat)
    requires n < |calls|
    ensures ts == [] ==>
              && Returned(ts, calls[n..]) == Returned(ts, calls[n + 1..]) == []
              && Skipped(ts, calls[n..]) == Skipped(ts, calls[n + 1..]) == []
              && Left(ts, calls[n..]) == Left(ts, calls[n + 1..]) == []
    ensures ts != [] ==>
              && returned + Returned(ts, calls[n..]) ==
                 returned + (if calls[n].Next? then [ts[0]] else []) + Returned(ts[1..], calls[n + 1..])
              && front + Skipped(ts, calls[n..]) ==
                 front + (if calls[n].Skip? then [ts[0]] else []) + Skipped(ts[1..], calls[n + 1..])
              && Left(ts, calls[n..]) == Left(ts[1..], calls[n + 1..])
  {
    var later := calls[n + 1..];
    assert calls[n..][1..] == later && calls[n..][0] == calls[n];
    if ts != [] {
      var out, kept := if calls[n].Next? then [ts[0]] else [], if calls[n].Skip? then [ts[0]] else [];
      Associative(returned, out, Returned(ts[1..], later));
      Associative(front, kept, Skipped(ts[1..], later));
    }
  }

  /** One call of a run. */
  method Perform(s: Scanner, call: Call) returns (out: seq<string>)
    requires s.Valid()
    modifies s, s.argv
    ensures s.Valid()
    ensures old(s.Rest()) == [] ==>
              out == [] && s.Rest() == [] && s.argc == old(s.argc) && s.Passed() == old(s.Passed())
    ensures old(s.Rest()) != [] ==>
              s.Rest() == old(s.Rest())[1..] && out == if call.Next? then [old(s.Rest())[0]] else []
    ensures old(s.Rest()) != [] && s.erase ==>
              && s.Passed() == old(s.Passed()) + (if call.Skip? then [old(s.Rest())[0]] else [])
              && s.argc == old(s.argc) - |out|
    ensures !s.erase ==> s.argv[..] == old(s.argv[..]) && s.argc == old(s.argc)
  {
    out := [];
    if call.Next? {
      var r := s.Next();
      if r.Some? {
        out := [r.value];
      }
    } else {
      var _ := s.Skip();
    }
  }

  /**
   Over any run the returned arguments do not depend on the mode. In erasing mode the array ends up
   with the arguments passed over, in their original order, then the unread ones, and the count has
   dropped by the number of arguments returned; otherwise the array is not touched.
   */
  method Replay(s: Scanner, calls: seq<Call>) returns (returned: seq<string>)
    requires s.Valid()
    modifies s, s.argv
    ensures s.Valid()
    ensures returned == Returned(old(s.Rest()), calls)
    ensures s.Rest() == Left(old(s.Rest()), calls)
    ensures s.erase ==>
              && s.argv[..s.argc] == old(s.Passed()) + Skipped(old(s.Rest()), calls) + Left(old(s.Rest()), calls)
              && s.argc == old(s.argc) - |returned|
    ensures !s.erase ==> s.argv[..] == old(s.argv[..]) && s.argc == old(s.argc)
  {
    hide Skipped, Returned, Left;
    returned := [];
    ghost var ts, front := s.Rest(), s.Passed();
    ghost var r, k, l := Returned(ts, calls), front + Skipped(ts, calls), Left(ts, calls);
    var n := 0;
    while n < |calls|
      invariant s.Valid() && n <= |calls|
      invariant returned + Returned(s.Rest(), calls[n..]) == r
      invariant s.erase ==> s.Passed() + Skipped(s.Rest(), calls[n..]) == k && s.argc == old(s.argc) - |returned|
      invariant Left(s.Rest(), calls[n..]) == l
      invariant !s.erase ==> s.argv[..] == old(s.argv[..]) && s.argc == old(s.argc)
    {
      CallByCall(returned, s.Passed(), s.Rest(), calls, n);
      var out := Perform(s, calls[n]);
      returned := returned + out;
      n := n + 1;
    }
    NoCallsLeft(s.Rest(), calls[n..]);
    assert s.argv[..s.argc] == s.Passed() + s.Rest();
  }

  lemma NoCallsLeft(ts: seq<string>, calls: seq<Call>)
    requires calls == []
    ensures Returned(ts, calls) == [] && Skipped(ts, calls) == [] && Left(ts, calls) == ts
  {
  }
}
