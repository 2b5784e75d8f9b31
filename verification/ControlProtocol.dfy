/**
 Any number of publishers sharing one remote: the stages of `ControlBranch` as the steps of a state
 machine whose runs interleave them freely with fetches, failed and half-delivered pushes, failing
 git commands and crashes. An event that its publisher is not ready for changes nothing.
 */
module ControlProtocol {
  import opened Common
  import opened ControlBranch

  /** Where a publisher's current attempt stands. */
  datatype Phase =
    | Idle
    | Failed(failure: Failure)
    | Opened(flags: Flags)
    | Merged(flags: Flags)
    | Committed(flags: Flags, added: bool)
    | Posting(next: nat, control: bool)

  datatype Publisher = Publisher(clone: Clone, phase: Phase, pkgs: seq<string>)

  /** A submission made to the package repository, with or without the control manifest. */
  datatype Submission = Submission(checksum: string, control: bool)

  datatype World = World(remote: Option<History>, publishers: map<nat, Publisher>, posts: seq<Submission>)

  datatype Event =
    | Start(who: nat, pkgs: seq<string>, control: bool, rootId: nat)
    | Merge(who: nat)
    | Record(who: nat, id: nat)
    | Send(who: nat, delivery: Delivery)
    | Cut(who: nat, remains: Remains)   // the process dies during its push, or a guard fails
    | Post(who: nat)
    | PostFails(who: nat)
    | Fetch(who: nat)
    | Abort(who: nat)   // a git step between the checkout and the push fails; the worktree guard runs
    | Crash(who: nat)   // the process dies; no guard runs

  // ---- Steps -------------------------------------------------------------------------------

  function Settle<T>(p: Publisher, o: Outcome<T>, going: T -> Phase): Publisher {
    match o
    case Going(c, v) => p.(clone := c, phase := going(v))
    case Stopped(c, e) => p.(clone := c, phase := Failed(e))
  }

  /** The step of one publisher: its new state, the new remote and what it submitted. */
  function Act(p: Publisher, remote: Option<History>, e: Event): (Publisher, Option<History>, seq<Submission>) {
    match e
    case Start(_, pkgs, control, rootId) =>
      if !(p.phase.Idle? || p.phase.Failed?) || pkgs == [] then (p, remote, [])
      else if !control then (p.(phase := Posting(0, false), pkgs := pkgs), remote, [])
      else (Settle(p.(pkgs := pkgs), Open(p.clone, rootId), f => Opened(f)), remote, [])
    case Merge(_) =>
      if p.phase.Opened? then (Settle(p, FastForward(p.clone, p.phase.flags), _ => Merged(p.phase.flags)), remote, [])
      else (p, remote, [])
    case Record(_, id) =>
      if p.phase.Merged? && p.clone.local.Some? then
        (Settle(p, Authorize(p.clone, p.phase.flags, p.pkgs, id), added => Committed(p.phase.flags, added)), remote, [])
      else (p, remote, [])
    case Send(_, d) =>
      if p.phase.Committed? && p.clone.local.Some? then
        var (o, remote') := Push(p.clone, p.phase.flags, p.phase.added, remote, d);
        (Settle(p, o, _ => Posting(0, true)), remote', [])
      else (p, remote, [])
    case Cut(_, remains) =>
      if p.phase.Committed? && p.clone.local.Some? then
        var (c, remote') := CutShort(p.clone, p.phase.flags, p.phase.added, remote, remains);
        (p.(clone := c, phase := Idle), remote', [])
      else (p, remote, [])
    case Post(_) =>
      if p.phase.Posting? && p.phase.next < |p.pkgs| then
        var k := p.phase.next;
        (p.(phase := if k + 1 == |p.pkgs| then Idle else p.phase.(next := k + 1)),
         remote, [Submission(p.pkgs[k], p.phase.control)])
      else (p, remote, [])
    case PostFails(_) =>
      if p.phase.Posting? then (p.(phase := Idle), remote, []) else (p, remote, [])
    case Fetch(_) => (p.(clone := Fetched(p.clone, remote)), remote, [])
    case Abort(_) =>
      if p.phase.Opened? || p.phase.Merged? then
        (p.(clone := p.clone.(checkedOut := false), phase := Failed(GitStep)), remote, [])
      else (p, remote, [])
    case Crash(_) => (p.(phase := Idle), remote, [])
  }

  function Next(w: World, e: Event): World {
    if e.who !in w.publishers then w
    else
      var (p, remote, posted) := Act(w.publishers[e.who], w.remote, e);
      World(remote, w.publishers[e.who := p], w.posts + posted)
  }

  function Run(w: World, es: seq<Event>): World
    decreases |es|
  {
    if es == [] then w else Run(Next(w, es[0]), es[1..])
  }

  // ---- The steps are those of an attempt -------------------------------------------------------

  /** The stages of an attempt, one after another, as long as none of them stops it. */
  function Stages(i: nat, pkgs: seq<string>, rootId: nat, id: nat, d: Delivery): seq<Event> {
    [Start(i, pkgs, true, rootId), Merge(i), Record(i, id), Send(i, d)]
  }

  /** Taken without interruption, the steps of one publisher make up an attempt, and nobody else changes. */
  lemma StagesMakeAttempt(w: World, i: nat, pkgs: seq<string>, rootId: nat, id: nat, d: Delivery)
    requires i in w.publishers && w.publishers[i].phase.Idle? && pkgs != []
    ensures
      var w' := Run(w, Stages(i, pkgs, rootId, id, d));
      var (o, remote) := Attempt(w.publishers[i].clone, w.remote, pkgs, rootId, id, d);
      var phase := if o.Going? then Posting(0, true) else Failed(o.failure);
      w' == World(remote, w.publishers[i := Publisher(o.clone, phase, pkgs)], w.posts)
  {
    hide Tip, Names, HasSubmitDirectory, Reverted, Accepts;
    var es := Stages(i, pkgs, rootId, id, d);
    var w1 := Next(w, es[0]);
    var w2 := Next(w1, es[1]);
    var w3 := Next(w2, es[2]);
    var w4 := Next(w3, es[3]);
    assert Run(w, es) == w4 by {
      assert es[1..][1..][1..][1..] == [];
      assert Run(w, es) == Run(w1, es[1..]) == Run(w2, es[1..][1..]) == Run(w3, es[1..][1..][1..]) == w4;
    }
    ActsAlone(w, es[0]);
    ActsAlone(w1, es[1]);
    ActsAlone(w2, es[2]);
    ActsAlone(w3, es[3]);
  }

  /** A step that submits nothing changes its publisher and perhaps the remote. */
  lemma ActsAlone(w: World, e: Event)
    requires e.who in w.publishers && !e.Post?
    ensures
      var (p, remote, _) := Act(w.publishers[e.who], w.remote, e);
      Next(w, e) == World(remote, w.publishers[e.who := p], w.posts)
  {
    assert w.posts + [] == w.posts;
  }

  /** What the steps that are not part of an attempt leave behind. */
  lemma Interruptions(w: World, i: nat)
    requires i in w.publishers
    ensures
      var p := w.publishers[i];
      && Next(w, Crash(i)) == w.(publishers := w.publishers[i := p.(phase := Idle)])
      && (p.phase.Posting? ==> Next(w, PostFails(i)) == w.(publishers := w.publishers[i := p.(phase := Idle)]))
      && (p.phase.Opened? || p.phase.Merged? ==>
            Next(w, Abort(i)) ==
            w.(publishers := w.publishers[i := Publisher(p.clone.(checkedOut := false), Failed(GitStep), p.pkgs)]))
      && (!p.phase.Opened? && !p.phase.Merged? ==> Next(w, Abort(i)) == w)
      && (w.remote.None? ==> Next(w, Fetch(i)) == w)
      && (w.remote.Some? ==>
            Next(w, Fetch(i)) ==
            w.(publishers := w.publishers[i := p.(clone := p.clone.(tracking := w.remote))]))
  {
    assert w.posts + [] == w.posts;
    assert w.publishers[i := w.publishers[i]] == w.publishers;
  }

  /** Without the control manifest an attempt is submitting alone. */
  lemma StartWithoutControl(w: World, i: nat, pkgs: seq<string>, rootId: nat)
    requires i in w.publishers && w.publishers[i].phase.Idle? && pkgs != []
    ensures Next(w, Start(i, pkgs, false, rootId)) ==
              w.(publishers := w.publishers[i := Publisher(w.publishers[i].clone, Posting(0, false), pkgs)])
  {
    assert w.posts + [] == w.posts;
  }

  /** A push cut short leaves its publisher idle, and clone and remote as far as it got. */
  lemma CutIsInterruptedPush(w: World, i: nat, r: Remains)
    requires i in w.publishers && w.publishers[i].phase.Committed? && w.publishers[i].clone.local.Some?
    ensures
      var p := w.publishers[i];
      var (c, remote) := CutShort(p.clone, p.phase.flags, p.phase.added, w.remote, r);
      Next(w, Cut(i, r)) == World(remote, w.publishers[i := Publisher(c, Idle, p.pkgs)], w.posts)
  {
    assert w.posts + [] == w.posts;
  }

  // ---- The remote only moves forward ---------------------------------------------------------

  ghost predicate Extends(a: Option<History>, b: Option<History>) {
    a.Some? ==> b.Some? && a.value <= b.value
  }

  lemma ActExtendsRemote(p: Publisher, remote: Option<History>, e: Event)
    ensures Extends(remote, Act(p, remote, e).1)
  {
  }

  // ---- Nothing is submitted before it is authorized -----------------------------------------

  ghost predicate GrowsIfAny(h: Option<History>) {
    h.Some? ==> Grows(h.value)
  }

  ghost predicate PublisherHonest(p: Publisher, remote: Option<History>) {
    && GrowsIfAny(p.clone.local) && GrowsIfAny(p.clone.tracking)
    && (p.phase.Committed? ==> p.clone.local.Some? && Names(p.pkgs) <= Tip(p.clone.local.value))
    && (p.phase.Posting? && p.phase.control ==> remote.Some? && Names(p.pkgs) <= Tip(remote.value))
  }

  ghost predicate Authorized(posts: seq<Submission>, remote: Option<History>) {
    forall s :: s in posts && s.control ==>
      && remote.Some? && Abbreviation(s.checksum) in Tip(remote.value)
      && (|s.checksum| >= 16 ==> s.checksum[..16] in Tip(remote.value))
  }

  ghost predicate Honest(w: World) {
    && GrowsIfAny(w.remote)
    && (forall i :: i in w.publishers ==> PublisherHonest(w.publishers[i], w.remote))
    && Authorized(w.posts, w.remote)
  }

  lemma TipGrows(a: History, b: History)
    requires a <= b && Grows(b)
    ensures Tip(a) <= Tip(b)
  {
    if a != [] {
      assert a[|a| - 1] == b[|a| - 1];
    }
  }

  lemma CommitGrows(h: History, id: nat, names: set<string>)
    requires Grows(h)
    ensures Grows(h + [Commit(id, Tip(h) + names)])
  {
  }

  lemma ActHonest(p: Publisher, remote: Option<History>, e: Event)
    requires GrowsIfAny(remote) && PublisherHonest(p, remote)
    ensures
      var (p', remote', posted) := Act(p, remote, e);
      GrowsIfAny(remote') && PublisherHonest(p', remote') && Authorized(posted, remote')
  {
    match e
    case Record(_, _) => RecordHonest(p, remote, e);
    case Send(_, _) => SendHonest(p, remote, e);
    case Cut(_, _) => CutHonest(p, remote, e);
    case Post(_) => PostHonest(p, remote, e);
    case _ =>
  }

  lemma RecordHonest(p: Publisher, remote: Option<History>, e: Event)
    requires PublisherHonest(p, remote) && e.Record?
    ensures Act(p, remote, e).1 == remote && Act(p, remote, e).2 == [] && PublisherHonest(Act(p, remote, e).0, remote)
  {
    if p.phase.Merged? && p.clone.local.Some? {
      CommitGrows(p.clone.local.value, e.id, Names(p.pkgs));
    }
  }

  lemma SendHonest(p: Publisher, remote: Option<History>, e: Event)
    requires GrowsIfAny(remote) && PublisherHonest(p, remote) && e.Send?
    ensures
      var (p', remote', posted) := Act(p, remote, e);
      GrowsIfAny(remote') && PublisherHonest(p', remote') && posted == []
  {
  }

  lemma CutHonest(p: Publisher, remote: Option<History>, e: Event)
    requires GrowsIfAny(remote) && PublisherHonest(p, remote) && e.Cut?
    ensures
      var (p', remote', posted) := Act(p, remote, e);
      GrowsIfAny(remote') && PublisherHonest(p', remote') && posted == []
  {
  }

  lemma PostHonest(p: Publisher, remote: Option<History>, e: Event)
    requires PublisherHonest(p, remote) && e.Post?
    ensures
      var (p', remote', posted) := Act(p, remote, e);
      remote' == remote && PublisherHonest(p', remote) && Authorized(posted, remote)
  {
    if p.phase.Posting? && p.phase.next < |p.pkgs| {
      assert Abbreviation(p.pkgs[p.phase.next]) in Names(p.pkgs);
    }
  }

  /** What holds of a publisher and of the past submissions survives another one's step. */
  lemma HonestUnderExtension(p: Publisher, posts: seq<Submission>, remote: Option<History>, remote': Option<History>)
    requires PublisherHonest(p, remote) && Authorized(posts, remote)
    requires Extends(remote, remote') && GrowsIfAny(remote')
    ensures PublisherHonest(p, remote') && Authorized(posts, remote')
  {
    if remote.Some? {
      TipGrows(remote.value, remote'.value);
    }
  }

  lemma NextHonest(w: World, e: Event)
    requires Honest(w)
    ensures Honest(Next(w, e))
  {
    if e.who in w.publishers {
      var p := w.publishers[e.who];
      var (p', remote', posted) := Act(p, w.remote, e);
      ActHonest(p, w.remote, e);
      ActExtendsRemote(p, w.remote, e);
      HonestUnderExtension(p, w.posts, w.remote, remote');
      forall i | i in w.publishers && i != e.who
        ensures PublisherHonest(w.publishers[i], remote')
      {
        HonestUnderExtension(w.publishers[i], w.posts, w.remote, remote');
      }
    }
  }

  /**
   In a git repository, no package is submitted with a control manifest before its authorization is on
   the remote, and the authorization stays there: in every state of every run, with crashes anywhere,
   during a push included, and guards that fail.
   */
  lemma {:induction false} SubmittedIsAuthorized(w: World, es: seq<Event>)
    requires Honest(w)
    ensures Honest(Run(w, es))
    ensures forall s :: s in Run(w, es).posts && s.control && |s.checksum| >= 16 ==>
              Run(w, es).remote.Some? && s.checksum[..16] in Tip(Run(w, es).remote.value)
    decreases |es|
  {
    if es != [] {
      NextHonest(w, es[0]);
      SubmittedIsAuthorized(Next(w, es[0]), es[1..]);
    }
  }

  lemma AnyQuietStartIsHonest(w: World)
    requires w.posts == [] && GrowsIfAny(w.remote)
    requires forall i :: i in w.publishers ==>
               && w.publishers[i].phase.Idle?
               && GrowsIfAny(w.publishers[i].clone.local) && GrowsIfAny(w.publishers[i].clone.tracking)
    ensures Honest(w)
  {
  }

  /** What a publisher submits from one package on. */
  function Submissions(p: Publisher, from: nat): seq<Submission>
    requires p.phase.Posting? && from <= |p.pkgs|
    decreases |p.pkgs| - from
  {
    if from == |p.pkgs| then [] else [Submission(p.pkgs[from], p.phase.control)] + Submissions(p, from + 1)
  }

  function Posts(i: nat, n: nat): seq<Event> {
    if n == 0 then [] else [Post(i)] + Posts(i, n - 1)
  }

  /** The submit loop submits every package once, in order, and then the publisher is done. */
  lemma {:induction false} SubmitsInOrder(w: World, i: nat)
    requires i in w.publishers && w.publishers[i].phase.Posting?
    requires w.publishers[i].phase.next < |w.publishers[i].pkgs|
    ensures
      var p := w.publishers[i];
      var w' := Run(w, Posts(i, |p.pkgs| - p.phase.next));
      && w'.posts == w.posts + Submissions(p, p.phase.next)
      && w'.publishers == w.publishers[i := p.(phase := Idle)] && w'.remote == w.remote
    decreases |w.publishers[i].pkgs| - w.publishers[i].phase.next
  {
    var p := w.publishers[i];
    var k := p.phase.next;
    var es := Posts(i, |p.pkgs| - k);
    assert es[0] == Post(i) && es[1..] == Posts(i, |p.pkgs| - k - 1);
    var w1 := Next(w, Post(i));
    var one := [Submission(p.pkgs[k], p.phase.control)];
    if k + 1 == |p.pkgs| {
      assert es[1..] == [];
      assert Submissions(p, k) == one + Submissions(p, k + 1) == one;
    } else {
      var p1 := w1.publishers[i];
      SubmitsInOrder(w1, i);
      SameSubmissions(p, p1, k + 1);
      Associative(w.posts, one, Submissions(p1, k + 1));
    }
  }

  lemma {:induction false} SameSubmissions(p: Publisher, q: Publisher, from: nat)
    requires p.phase.Posting? && q.phase.Posting? && from <= |p.pkgs|
    requires p.pkgs == q.pkgs && p.phase.control == q.phase.control
    ensures Submissions(p, from) == Submissions(q, from)
    decreases |p.pkgs| - from
  {
    if from < |p.pkgs| {
      SameSubmissions(p, q, from + 1);
    }
  }

  // ---- What an interruption may leave --------------------------------------------------------

  /**
   A first attempt that dies between making the branch and committing to it leaves the lone root commit
   that blocks every later one, however often the publisher fetches and whatever others do, unless the
   branch fetched continues that very commit.
   */
  lemma AbandonedRootIsReached(w: World, i: nat, pkgs: seq<string>, root: nat, es: seq<Event>,
                               again: seq<string>, rootId: nat, id: nat)
    requires i in w.publishers && w.publishers[i].phase.Idle? && w.publishers[i].clone == Clone(None, None, false)
    requires pkgs != [] && again != [] && Elsewhere(es, i)
    ensures
      var w' := Run(Next(Next(w, Start(i, pkgs, true, root)), Crash(i)), es);
      i in w'.publishers &&
      var c := w'.publishers[i].clone;
      && c.local == Some([Commit(root, {})]) && c.checkedOut
      && ((c.tracking.Some? ==> !Related(c.local.value, c.tracking.value)) ==> Prepare(c, again, rootId, id).Stopped?)
  {
    var w1 := Next(Next(w, Start(i, pkgs, true, root)), Crash(i));
    ElsewhereKeepsBranch(w1, es, i);
    var c := Run(w1, es).publishers[i].clone;
    if c.tracking.None? || !Related(c.local.value, c.tracking.value) {
      AbandonedRootBlocks(root, c.tracking, c.checkedOut, again, rootId, id);
    }
  }

  // ---- Only the push can fail ----------------------------------------------------------------

  /** A branch that somebody has published to. */
  ghost predicate Published(h: History) {
    Tip(h) != {}
  }

  /** local <= tracking <= remote, as far as each is there. */
  ghost predicate InStep(c: Clone) {
    c.local.Some? ==> c.tracking.Some? && c.local.value <= c.tracking.value && Published(c.local.value)
  }

  ghost predicate PublisherSynced(p: Publisher, remote: Option<History>) {
    var c := p.clone;
    && (c.tracking.Some? ==> Extends(c.tracking, remote) && Published(c.tracking.value))
    && match p.phase
       case Idle => InStep(c) && !c.checkedOut
       case Posting(_, _) => InStep(c) && !c.checkedOut
       case Failed(f) => InStep(c) && !c.checkedOut && f == PushFailed
       case Opened(f) => p.pkgs != [] && c.checkedOut && OnBranch(c, f)
       case Merged(f) => p.pkgs != [] && c.checkedOut && OnBranch(c, f)
       case Committed(f, added) =>
         && c.checkedOut && c.local.Some? && Published(c.local.value)
         && (added ==> |c.local.value| > 0 && OnBranch(c.(local := Some(c.local.value[..|c.local.value| - 1])), f))
         && (!added ==> InStep(c))
  }

  /** Checked out, nothing committed yet: either a branch in step, or the root of a new one. */
  ghost predicate OnBranch(c: Clone, f: Flags) {
    && c.local.Some?
    && if f.localNew then Tip(c.local.value) == {} && !f.localExists else InStep(c)
  }

  ghost predicate Synced(w: World) {
    && (w.remote.Some? ==> Published(w.remote.value))
    && forall i :: i in w.publishers ==> PublisherSynced(w.publishers[i], w.remote)
  }

  ghost predicate OnlyPushFails(es: seq<Event>) {
    forall e :: e in es ==> !e.Crash? && !e.Abort? && !e.Cut?
  }

  lemma NamesNonempty(pkgs: seq<string>)
    requires pkgs != []
    ensures Names(pkgs) != {}
  {
    assert Abbreviation(pkgs[0]) in Names(pkgs);
  }

  lemma ActSynced(p: Publisher, remote: Option<History>, e: Event)
    requires PublisherSynced(p, remote) && (remote.Some? ==> Published(remote.value))
    requires !e.Crash? && !e.Abort? && !e.Cut?
    ensures
      var (p', remote', _) := Act(p, remote, e);
      PublisherSynced(p', remote') && (remote'.Some? ==> Published(remote'.value))
  {
    match e
    case Start(_, _, _, _) => StartSynced(p, remote, e);
    case Merge(_) => MergeSynced(p, remote, e);
    case Record(_, _) => RecordSynced(p, remote, e);
    case Send(_, _) => SendSynced(p, remote, e);
    case _ =>
  }

  lemma StartSynced(p: Publisher, remote: Option<History>, e: Event)
    requires PublisherSynced(p, remote) && e.Start?
    ensures Act(p, remote, e).1 == remote && PublisherSynced(Act(p, remote, e).0, remote)
  {
  }

  /** The fast-forward merge finds the local branch behind the tracking one. */
  lemma MergeSynced(p: Publisher, remote: Option<History>, e: Event)
    requires PublisherSynced(p, remote) && e.Merge?
    ensures Act(p, remote, e).1 == remote && PublisherSynced(Act(p, remote, e).0, remote)
  {
  }

  lemma RecordSynced(p: Publisher, remote: Option<History>, e: Event)
    requires PublisherSynced(p, remote) && e.Record?
    ensures Act(p, remote, e).1 == remote && PublisherSynced(Act(p, remote, e).0, remote)
  {
    if p.phase.Merged? && p.clone.local.Some? {
      NamesNonempty(p.pkgs);
      var h := p.clone.local.value;
      assert (h + [Commit(e.id, Tip(h) + Names(p.pkgs))])[..|h|] == h;
    }
  }

  lemma SendSynced(p: Publisher, remote: Option<History>, e: Event)
    requires PublisherSynced(p, remote) && (remote.Some? ==> Published(remote.value)) && e.Send?
    ensures
      var (p', remote', _) := Act(p, remote, e);
      PublisherSynced(p', remote') && (remote'.Some? ==> Published(remote'.value))
  {
  }

  lemma NextSynced(w: World, e: Event)
    requires Synced(w) && !e.Crash? && !e.Abort? && !e.Cut?
    ensures Synced(Next(w, e))
  {
    if e.who in w.publishers {
      ActSynced(w.publishers[e.who], w.remote, e);
      ActExtendsRemote(w.publishers[e.who], w.remote, e);
    }
  }

  lemma {:induction false} RunSynced(w: World, es: seq<Event>)
    requires Synced(w) && OnlyPushFails(es)
    ensures Synced(Run(w, es))
    decreases |es|
  {
    if es != [] {
      NextSynced(w, es[0]);
      RunSynced(Next(w, es[0]), es[1..]);
    }
  }

  /**
   Over every interleaving in which a push is the only git step that may fail: between attempts each
   local branch is absent or a prefix of the remote one and has a tracking branch, and whatever
   attempt has failed, failed at its push. So the fast-forward merge always succeeds.
   */
  lemma OnlyPushFailsTheorem(w: World, es: seq<Event>, i: nat)
    requires Synced(w) && OnlyPushFails(es)
    requires i in Run(w, es).publishers
    ensures
      var p := Run(w, es).publishers[i];
      && (p.phase.Failed? ==> p.phase.failure == PushFailed)
      && (p.phase.Idle? || p.phase.Failed? || p.phase.Posting? ==>
            && !p.clone.checkedOut
            && (p.clone.local.Some? ==> p.clone.tracking.Some? && Extends(p.clone.local, Run(w, es).remote)))
      && (p.phase.Opened? ==> FastForward(p.clone, p.phase.flags).Going?)
      && (p.phase.Merged? ==>
            p.clone.local.Some? && Authorize(p.clone, p.phase.flags, p.pkgs, 0).Going?)
  {
    RunSynced(w, es);
  }

  // ---- A failed push leaves no trace, and fetching and retrying succeeds -----------------------

  /** Steps of others, and fetches of this publisher. */
  ghost predicate Elsewhere(es: seq<Event>, i: nat) {
    forall e :: e in es ==> e.who != i || e.Fetch?
  }

  lemma {:induction false} ElsewhereKeepsBranch(w: World, es: seq<Event>, i: nat)
    requires i in w.publishers && Elsewhere(es, i)
    ensures i in Run(w, es).publishers
    ensures
      var p, p' := w.publishers[i], Run(w, es).publishers[i];
      && p'.phase == p.phase && p'.pkgs == p.pkgs
      && p'.clone.local == p.clone.local && p'.clone.checkedOut == p.clone.checkedOut
    ensures Extends(w.remote, Run(w, es).remote)
    decreases |es|
  {
    if es != [] {
      assert es[0] in es;
      if es[0].who in w.publishers {
        ActExtendsRemote(w.publishers[es[0].who], w.remote, es[0]);
      }
      ElsewhereKeepsBranch(Next(w, es[0]), es[1..], i);
    }
  }

  /**
   A push that fails after this attempt added authorizations leaves the local branch exactly as it
   was before the attempt's commit, or absent if the attempt made it, and the worktree released,
   whatever others did and whatever was fetched between the commit and the push.
   */
  lemma FailedPushReverts(w: World, i: nat, id: nat, between: seq<Event>, d: Delivery)
    requires i in w.publishers && w.publishers[i].phase.Merged? && w.publishers[i].clone.local.Some?
    requires Elsewhere(between, i)
    requires Next(w, Record(i, id)).publishers[i].phase == Committed(w.publishers[i].phase.flags, true)
    ensures
      var w' := Next(Run(Next(w, Record(i, id)), between), Send(i, d));
      i in w'.publishers &&
      var before, after := w.publishers[i], w'.publishers[i];
      after.phase == Failed(PushFailed) ==>
        && !after.clone.checkedOut
        && after.clone.local == (if before.phase.flags.localNew then None else before.clone.local)
  {
    var w1 := Next(w, Record(i, id));
    ElsewhereKeepsBranch(w1, between, i);
    var h := w1.publishers[i].clone.local.value;
    assert h[..|h| - 1] == w.publishers[i].clone.local.value;
  }

  /** Nobody else's push gets through and this publisher does nothing. */
  ghost predicate Quiet(es: seq<Event>, i: nat) {
    forall e :: e in es ==> e.who != i && !e.Send? && !e.Cut?
  }

  lemma {:induction false} QuietChangesNothing(w: World, es: seq<Event>, i: nat)
    requires i in w.publishers && Quiet(es, i)
    ensures i in Run(w, es).publishers
    ensures Run(w, es).publishers[i] == w.publishers[i]
    ensures Run(w, es).remote == w.remote
    decreases |es|
  {
    if es != [] {
      assert es[0] in es;
      QuietChangesNothing(Next(w, es[0]), es[1..], i);
    }
  }

  /** Some quiet steps of the others, then a step of one's own. */
  function After(w: World, quiet: seq<Event>, e: Event): World {
    Next(Run(w, quiet), e)
  }

  lemma QuietThen(w: World, quiet: seq<Event>, e: Event)
    requires e.who in w.publishers && Quiet(quiet, e.who)
    ensures
      var w' := After(w, quiet, e);
      var (p', remote', _) := Act(w.publishers[e.who], w.remote, e);
      e.who in w'.publishers && w'.publishers[e.who] == p' && w'.remote == remote'
  {
    QuietChangesNothing(w, quiet, e.who);
  }

  /** One publisher's fetch and attempt, with the remote standing still. */
  lemma RetryAlone(p: Publisher, remote: Option<History>, i: nat, pkgs: seq<string>, rootId: nat, id: nat)
    requires PublisherSynced(p, remote) && (remote.Some? ==> Published(remote.value)) && pkgs != []
    requires p.phase.Idle? || p.phase.Failed?
    ensures
      var p1 := Act(p, remote, Fetch(i)).0;
      var p2 := Act(p1, remote, Start(i, pkgs, true, rootId)).0;
      var p3 := Act(p2, remote, Merge(i)).0;
      var p4 := Act(p3, remote, Record(i, id)).0;
      var (p5, remote', _) := Act(p4, remote, Send(i, Delivered));
      && p5.phase == Posting(0, true) && p5.pkgs == pkgs
      && remote'.Some? && Names(pkgs) <= Tip(remote'.value)
  {
    var p1 := Act(p, remote, Fetch(i)).0;
    assert p1.clone.tracking == remote;
    var p2 := Act(p1, remote, Start(i, pkgs, true, rootId)).0;
    assert p2.phase.Opened? && p2.clone.tracking == remote;
    if remote.Some? && remote.value <= p2.clone.local.value {
      assert p2.clone.local.value <= remote.value;
      assert p2.clone.local.value == remote.value;
    }
    var p3 := Act(p2, remote, Merge(i)).0;
    assert p3.phase.Merged? && p3.clone.local.Some?;
    assert remote.Some? ==> p3.clone.local == remote;
    NamesNonempty(pkgs);
    var p4 := Act(p3, remote, Record(i, id)).0;
    assert p4.phase.Committed? && Names(pkgs) <= Tip(p4.clone.local.value);
    assert Accepts(remote, p4.clone.local.value);
  }

  /**
   From any state the protocol keeps, a publisher that is between attempts, fetches and tries again
   gets its packages authorized, however the steps of the others fall in between, as long as none of
   them pushes meanwhile and its own push is delivered.
   */
  lemma FetchAndRetrySucceeds(w: World, i: nat, pkgs: seq<string>, rootId: nat, id: nat,
                              g0: seq<Event>, g1: seq<Event>, g2: seq<Event>, g3: seq<Event>, g4: seq<Event>)
    requires Synced(w) && i in w.publishers && pkgs != []
    requires w.publishers[i].phase.Idle? || w.publishers[i].phase.Failed?
    requires Quiet(g0, i) && Quiet(g1, i) && Quiet(g2, i) && Quiet(g3, i) && Quiet(g4, i)
    ensures
      var w1 := After(w, g0, Fetch(i));
      var w2 := After(w1, g1, Start(i, pkgs, true, rootId));
      var w3 := After(w2, g2, Merge(i));
      var w4 := After(w3, g3, Record(i, id));
      var w5 := After(w4, g4, Send(i, Delivered));
      && i in w5.publishers && w5.publishers[i].phase == Posting(0, true) && w5.publishers[i].pkgs == pkgs
      && w5.remote.Some? && Names(pkgs) <= Tip(w5.remote.value)
  {
    RetryAlone(w.publishers[i], w.remote, i, pkgs, rootId, id);
    QuietThen(w, g0, Fetch(i));
    var w1 := After(w, g0, Fetch(i));
    QuietThen(w1, g1, Start(i, pkgs, true, rootId));
    var w2 := After(w1, g1, Start(i, pkgs, true, rootId));
    QuietThen(w2, g2, Merge(i));
    var w3 := After(w2, g2, Merge(i));
    QuietThen(w3, g3, Record(i, id));
    var w4 := After(w3, g3, Record(i, id));
    QuietThen(w4, g4, Send(i, Delivered));
  }
}
