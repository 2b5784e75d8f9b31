/** Reading `git status --porcelain=2 --branch`, with its early way out. */
module GitStatus {

  datatype Status = Status(
    commit: string,
    branch: string,
    upstream: string,
    staged: bool,
    unstaged: bool,
    ahead: bool,
    behind: bool)

  const BLANK := Status("", "", "", false, false, false, false)

  predicate IsHeader(l: string) {
    l != "" && l[0] == '#'
  }

  predicate HasWord(l: string, word: string) {
    |l| >= 2 && word <= l[2..]
  }

  /** The first position of a character not before `from`, or the length. */
  function FindFrom(l: string, c: char, from: nat): (n: nat)
    ensures n <= |l| || n == from
    ensures from <= |l| ==> from <= n <= |l|
    decreases if from <= |l| then |l| - from else 0
  {
    if from >= |l| then from else if l[from] == c then from else FindFrom(l, c, from + 1)
  }

  function TextFrom(l: string, n: nat): string {
    if n <= |l| then l[n..] else ""
  }

  /** Is there a count other than zero behind the sign? */
  predicate Counts(l: string, sign: char) {
    var n := FindFrom(l, sign, 12);
    n + 1 < |l| && l[n + 1] != '0'
  }

  function ReadHeader(r: Status, l: string): Status {
    if HasWord(l, "branch.oid") then
      r.(commit := if TextFrom(l, 13) == "(initial)" then "" else TextFrom(l, 13))
    else if HasWord(l, "branch.head") then
      r.(branch := if TextFrom(l, 14) == "(detached)" then "" else TextFrom(l, 14))
    else if HasWord(l, "branch.upstream") then
      r.(upstream := TextFrom(l, 18))
    else if HasWord(l, "branch.ab") then
      r.(ahead := r.ahead || Counts(l, '+'), behind := r.behind || Counts(l, '-'))
    else r
  }

  function ReadChange(r: Status, l: string): Status {
    if l != "" && (l[0] == '1' || l[0] == '2') then
      r.(staged := r.staged || (|l| > 2 && l[2] != '.'), unstaged := r.unstaged || (|l| > 3 && l[3] != '.'))
    else r.(unstaged := true)
  }

  function ReadLine(r: Status, l: string): Status {
    if IsHeader(l) then ReadHeader(r, l) else ReadChange(r, l)
  }

  // ---- Lines by their text -----------------------------------------------------------------------

  lemma WordOf(word: string, v: string)
    ensures
      var l := "# " + word + " " + v;
      && IsHeader(l) && |l| == |word| + 3 + |v| && TextFrom(l, |word| + 3) == v
      && l[2..] == word + " " + v && HasWord(l, word)
  {
    var l := "# " + word + " " + v;
    assert l[0] == '#' && l[2..] == word + " " + v && l[|word| + 3..] == v;
  }

  /** Two words that differ in one letter do not begin the same text. */
  lemma OtherWord(text: string, word: string, other: string, k: nat)
    requires word <= text && k < |word| && k < |other| && word[k] != other[k]
    ensures !(other <= text)
  {
    assert text[k] == word[k];
  }

  /** `# branch.oid` gives the commit, unless there is none yet. */
  lemma OidHeader(r: Status, v: string)
    ensures ReadLine(r, "# branch.oid " + v) == r.(commit := if v == "(initial)" then "" else v)
  {
    WordOf("branch.oid", v);
    assert "# " + "branch.oid" + " " + v == "# branch.oid " + v;
  }

  /** `# branch.head` gives the branch, unless the head is detached. */
  lemma HeadHeader(r: Status, v: string)
    ensures ReadLine(r, "# branch.head " + v) == r.(branch := if v == "(detached)" then "" else v)
  {
    WordOf("branch.head", v);
    var l := "# branch.head " + v;
    assert "# " + "branch.head" + " " + v == l;
    OtherWord(l[2..], "branch.head", "branch.oid", 7);
  }

  /** `# branch.upstream` gives the upstream branch. */
  lemma UpstreamHeader(r: Status, v: string)
    ensures ReadLine(r, "# branch.upstream " + v) == r.(upstream := v)
  {
    WordOf("branch.upstream", v);
    var l := "# branch.upstream " + v;
    assert "# " + "branch.upstream" + " " + v == l;
    OtherWord(l[2..], "branch.upstream", "branch.oid", 7);
    OtherWord(l[2..], "branch.upstream", "branch.head", 7);
  }

  lemma {:induction false} FoundAt(l: string, c: char, from: nat, at: nat)
    requires from <= at < |l| && l[at] == c && forall k :: from <= k < at ==> l[k] != c
    ensures FindFrom(l, c, from) == at
    decreases at - from
  {
    if from < at {
      FoundAt(l, c, from + 1, at);
    }
  }

  /** The counts found behind their signs in a text of this form. */
  lemma CountsText(front: string, ahead: string, behind: string)
    requires |front| == 12 && ahead != "" && behind != "" && '-' !in ahead
    ensures
      var l := front + ("+" + (ahead + (" -" + behind)));
      (Counts(l, '+') <==> ahead[0] != '0') && (Counts(l, '-') <==> behind[0] != '0')
  {
    var l := front + ("+" + (ahead + (" -" + behind)));
    assert l[12] == '+' && l[13] == ahead[0];
    FoundAt(l, '+', 12, 12);
    var at := 13 + |ahead| + 1;
    assert l[at] == '-' && l[at + 1] == behind[0] && l[at - 1] == ' ';
    assert forall k :: 13 <= k < 13 + |ahead| ==> l[k] == ahead[k - 13];
    FoundAt(l, '-', 12, at);
  }

  lemma CountsWord(r: Status, v: string)
    ensures
      var l := "# branch.ab " + v;
      ReadLine(r, l) == r.(ahead := r.ahead || Counts(l, '+'), behind := r.behind || Counts(l, '-'))
  {
    hide Counts;
    WordOf("branch.ab", v);
    var l := "# branch.ab " + v;
    assert "# " + "branch.ab" + " " + v == l;
    OtherWord(l[2..], "branch.ab", "branch.oid", 7);
    OtherWord(l[2..], "branch.ab", "branch.head", 7);
    OtherWord(l[2..], "branch.ab", "branch.upstream", 7);
  }

  /** `# branch.ab +<ahead> -<behind>` tells of each count whether it begins with anything but zero. */
  lemma CountsHeader(r: Status, ahead: string, behind: string)
    requires ahead != "" && behind != "" && '-' !in ahead
    ensures ReadLine(r, "# branch.ab " + ("+" + (ahead + (" -" + behind)))) ==
              r.(ahead := r.ahead || ahead[0] != '0', behind := r.behind || behind[0] != '0')
  {
    hide Counts, ReadLine;
    CountsWord(r, "+" + (ahead + (" -" + behind)));
    CountsText("# branch.ab ", ahead, behind);
  }

  /** Any other header tells nothing. */
  lemma OtherHeader(r: Status, v: string)
    requires !("branch.oid" <= v) && !("branch.head" <= v) && !("branch.upstream" <= v) && !("branch.ab" <= v)
    ensures ReadLine(r, "# " + v) == r
  {
    var l := "# " + v;
    assert l[0] == '#' && l[2..] == v;
  }

  /** A changed file has a mark for the index and one for the worktree; anything else is a change not staged. */
  lemma ChangeLine(r: Status, kind: char, x: char, y: char, rest: string)
    ensures kind == '1' || kind == '2' ==>
              ReadLine(r, [kind, ' ', x, y] + rest) ==
                r.(staged := r.staged || x != '.', unstaged := r.unstaged || y != '.')
    ensures kind != '1' && kind != '2' && kind != '#' ==>
              ReadLine(r, [kind] + rest) == r.(unstaged := true)
  {
    var l := [kind, ' ', x, y] + rest;
    assert l[0] == kind && l[2] == x && l[3] == y;
  }

  // ---- Whole output ----------------------------------------------------------------------------

  /** Every line read. */
  function ReadAll(r: Status, ls: seq<string>): Status
    decreases |ls|
  {
    if ls == [] then r else ReadAll(ReadLine(r, ls[0]), ls[1..])
  }

  /** Stop behind the first change that leaves nothing to learn from further changes. */
  function ReadUntilKnown(r: Status, ls: seq<string>): Status
    decreases |ls|
  {
    if ls == [] then r
    else
      var r' := ReadLine(r, ls[0]);
      if !IsHeader(ls[0]) && r'.staged && r'.unstaged then r' else ReadUntilKnown(r', ls[1..])
  }

  /** Where reading stops: behind which line, or the end. */
  function Stop(r: Status, ls: seq<string>): (n: nat)
    ensures n <= |ls|
    decreases |ls|
  {
    if ls == [] then 0
    else
      var r' := ReadLine(r, ls[0]);
      if !IsHeader(ls[0]) && r'.staged && r'.unstaged then 1 else 1 + Stop(r', ls[1..])
  }

  predicate HeadersFirst(ls: seq<string>) {
    forall i, j :: 0 <= i < j < |ls| && IsHeader(ls[j]) ==> IsHeader(ls[i])
  }

  predicate NoHeaders(ls: seq<string>) {
    forall i :: 0 <= i < |ls| ==> !IsHeader(ls[i])
  }

  lemma {:induction false} ChangesAddNothing(r: Status, ls: seq<string>)
    requires NoHeaders(ls) && r.staged && r.unstaged
    ensures ReadAll(r, ls) == r
    decreases |ls|
  {
    if ls != [] {
      assert !IsHeader(ls[0]);
      ChangesAddNothing(r, ls[1..]);
    }
  }

  /** Stopping early is reading a prefix, and it differs from reading all only by what the rest says. */
  lemma {:induction false} StopsAtPrefix(r: Status, ls: seq<string>)
    ensures ReadUntilKnown(r, ls) == ReadAll(r, ls[..Stop(r, ls)])
    ensures ReadAll(r, ls) == ReadAll(ReadUntilKnown(r, ls), ls[Stop(r, ls)..])
    ensures Stop(r, ls) < |ls| ==>
              ReadUntilKnown(r, ls).staged && ReadUntilKnown(r, ls).unstaged && !IsHeader(ls[Stop(r, ls) - 1])
    ensures ls != [] ==> Stop(r, ls) > 0
    decreases |ls|
  {
    if ls != [] {
      var r', n := ReadLine(r, ls[0]), Stop(r, ls);
      StopsAtPrefix(r', ls[1..]);
      assert ls[..n][1..] == ls[1..][..n - 1] && ls[..n][0] == ls[0];
      assert ls[1..][n - 1..] == ls[n..];
      if n == 1 {
        assert ReadAll(r', ls[..n][1..]) == r';
      }
    }
  }

  /**
   Given that headers come first, as git promises, the early way out makes no difference: the status
   is the one that reading every line gives.
   */
  lemma EarlyExitIsExact(ls: seq<string>)
    requires HeadersFirst(ls)
    ensures ReadUntilKnown(BLANK, ls) == ReadAll(BLANK, ls)
  {
    StopsAtPrefix(BLANK, ls);
    var n := Stop(BLANK, ls);
    if n < |ls| {
      assert NoHeaders(ls[n..]) by {
        forall i | 0 <= i < |ls[n..]|
          ensures !IsHeader(ls[n..][i])
        {
          assert !IsHeader(ls[n - 1]) && ls[n..][i] == ls[n + i];
        }
      }
      ChangesAddNothing(ReadUntilKnown(BLANK, ls), ls[n..]);
    } else {
      assert ls[n..] == [];
    }
  }

  /** The line of a change with a mark other than a dot at the position. */
  predicate MarkedChange(l: string, at: nat) {
    l != "" && (l[0] == '1' || l[0] == '2') && |l| > at && l[at] != '.'
  }

  predicate UntrackedOrUnmerged(l: string) {
    l == "" || (l[0] != '#' && l[0] != '1' && l[0] != '2')
  }

  /** All lines read, something is staged or unstaged if and only if some line says so. */
  lemma {:induction false} ChangesOfAll(r: Status, ls: seq<string>)
    ensures ReadAll(r, ls).staged <==> r.staged || exists k :: 0 <= k < |ls| && MarkedChange(ls[k], 2)
    ensures ReadAll(r, ls).unstaged <==>
              r.unstaged || exists k :: 0 <= k < |ls| && (MarkedChange(ls[k], 3) || UntrackedOrUnmerged(ls[k]))
    decreases |ls|
  {
    if ls != [] {
      var r' := ReadLine(r, ls[0]);
      assert r'.staged <==> r.staged || MarkedChange(ls[0], 2);
      assert r'.unstaged <==> r.unstaged || MarkedChange(ls[0], 3) || UntrackedOrUnmerged(ls[0]);
      hide ReadLine, MarkedChange, UntrackedOrUnmerged;
      ChangesOfAll(r', ls[1..]);
      assert forall k :: 0 < k < |ls| ==> ls[k] == ls[1..][k - 1];
      assert forall k :: 0 <= k < |ls| - 1 ==> ls[1..][k] == ls[k + 1];
    }
  }

  function Headers(ls: seq<string>): seq<string> {
    if ls == [] then [] else if IsHeader(ls[0]) then [ls[0]] + Headers(ls[1..]) else Headers(ls[1..])
  }

  /** Once there is nothing to learn from changes, only headers matter. */
  lemma {:induction false} OnlyHeadersMatter(r: Status, ls: seq<string>)
    requires r.staged && r.unstaged
    ensures ReadAll(r, ls) == ReadAll(r, Headers(ls))
    ensures ReadAll(r, ls).staged && ReadAll(r, ls).unstaged
    decreases |ls|
  {
    if ls != [] {
      if IsHeader(ls[0]) {
        assert Headers(ls)[0] == ls[0] && Headers(ls)[1..] == Headers(ls[1..]);
      }
      OnlyHeadersMatter(ReadLine(r, ls[0]), ls[1..]);
    }
  }

  /**
   For any output at all: the early way out never misses a change, and it gives the status of all lines
   if and only if the headers behind the point where it stops have nothing to add.
   */
  lemma EarlyExitExactly(ls: seq<string>)
    ensures
      var r, late := ReadUntilKnown(BLANK, ls), Headers(ls[Stop(BLANK, ls)..]);
      && r.staged == ReadAll(BLANK, ls).staged && r.unstaged == ReadAll(BLANK, ls).unstaged
      && (r == ReadAll(BLANK, ls) <==> ReadAll(r, late) == r)
  {
    StopsAtPrefix(BLANK, ls);
    var r, n := ReadUntilKnown(BLANK, ls), Stop(BLANK, ls);
    if n < |ls| {
      OnlyHeadersMatter(r, ls[n..]);
    } else {
      assert ls[n..] == [];
    }
  }

  /** It may have: a header behind that point is missed. */
  lemma LateHeaderIsMissed()
    ensures
      var ls := ["1 MM f", "# branch.head x"];
      ReadUntilKnown(BLANK, ls).branch == "" && ReadAll(BLANK, ls).branch == "x"
  {
    var change, head := "1 MM f", "# branch.head x";
    var ls := [change, head];
    var r := ReadLine(BLANK, change);
    assert change[0] == '1' && change[2] == 'M' && change[3] == 'M';
    assert ls[1..] == [head];
    assert head[2..] == "branch.head x" && head[14..] == "x";
    assert !HasWord(head, "branch.oid") by {
      assert head[2..][7] == 'h' && "branch.oid"[7] == 'o';
    }
    assert "branch.head" <= head[2..];
    assert ReadAll(ReadLine(r, head), [head][1..]) == ReadLine(r, head);
  }

  /** The loop over the output. */
  method ReadStatus(ls: seq<string>) returns (r: Status)
    ensures r == ReadUntilKnown(BLANK, ls)
    ensures HeadersFirst(ls) ==> r == ReadAll(BLANK, ls)
  {
    if HeadersFirst(ls) {
      EarlyExitIsExact(ls);
    }
    r := BLANK;
    assert ls[0..] == ls;
    for k := 0 to |ls|
      invariant ReadUntilKnown(r, ls[k..]) == ReadUntilKnown(BLANK, ls)
    {
      var l := ls[k];
      assert ls[k..][0] == l && ls[k..][1..] == ls[k + 1..];
      if IsHeader(l) {
        r := ReadHeader(r, l);
        continue;
      }
      if l != "" && (l[0] == '1' || l[0] == '2') {
        if |l| > 2 && l[2] != '.' {
          r := r.(staged := true);
        }
        if |l| > 3 && l[3] != '.' {
          r := r.(unstaged := true);
        }
      } else {
        r := r.(unstaged := true);
      }
      if r.staged && r.unstaged {
        return;
      }
    }
  }
}
