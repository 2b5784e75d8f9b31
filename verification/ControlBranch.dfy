/**
 The `build2-control` branch as `bdep publish` sees it, on values: histories, the part of a clone
 that concerns the branch, and each repository-changing stage of a publishing attempt.
 */
module ControlBranch {
  import opened Common

  /** A commit of the branch; its tree is the set of authorization file names under `submit/`. */
  datatype Commit = Commit(id: nat, names: set<string>)

  /** Oldest commit first. Two branches are related exactly when one is a prefix of the other. */
  type History = seq<Commit>

  function Tip(h: History): set<string> {
    if h == [] then {} else h[|h| - 1].names
  }

  /** Authorization files are only ever added to the branch. */
  ghost predicate Grows(h: History) {
    forall i, j :: 0 <= i <= j < |h| ==> h[i].names <= h[j].names
  }

  /** The name of the authorization file: the first 16 characters of the archive checksum. */
  function Abbreviation(checksum: string): (name: string)
    ensures |name| == (if |checksum| < 16 then |checksum| else 16) && name == checksum[..|name|]
  {
    if |checksum| <= 16 then checksum else checksum[..16]
  }

  function Names(pkgs: seq<string>): set<string> {
    set p | p in pkgs :: Abbreviation(p)
  }

  /** A package asks for one authorization file, which has the first 16 characters of its checksum for a name. */
  lemma OneAuthorization(checksum: string, pkgs: seq<string>)
    requires |checksum| >= 16
    ensures Names([checksum]) == {checksum[..16]}
    ensures Names(pkgs + [checksum]) == Names(pkgs) + {checksum[..16]}
  {
    var all := pkgs + [checksum];
    assert Abbreviation(checksum) == checksum[..16];
    assert forall p :: p in all <==> p in pkgs || p == checksum;
    assert checksum in all;
  }

  /** The local branch, the remote-tracking branch, and whether a worktree holds the branch. */
  datatype Clone = Clone(local: Option<History>, tracking: Option<History>, checkedOut: bool)

  /** What the attempt remembers from its start (local_exists, remote_exists, local_new). */
  datatype Flags = Flags(localExists: bool, remoteExists: bool, localNew: bool)

  datatype Failure = WorktreeBusy | NotFastForward | CannotWrite | GitStep | PushFailed

  datatype Outcome<+T> = Going(clone: Clone, value: T) | Stopped(clone: Clone, failure: Failure)

  /** What the network does to a push: the answer arrives, nothing does, or only the answer is lost. */
  datatype Delivery = Delivered | Undelivered | AnswerLost

  /** Create or keep the local branch and check it out into a worktree. */
  function Open(c: Clone, rootId: nat): Outcome<Flags> {
    var f := Flags(c.local.Some?, c.tracking.Some?, c.local.None? && c.tracking.None?);
    if c.local.Some? then
      // Stale worktrees are pruned first, so the checkout cannot clash.
      Going(c.(checkedOut := true), f)
    else
      var made := c.(local := if c.tracking.None? then Some([Commit(rootId, {})]) else c.tracking);
      if c.checkedOut then Stopped(made, WorktreeBusy) else Going(made.(checkedOut := true), f)
  }

  /** Fast-forward a branch that existed from the beginning over the remote-tracking one. */
  function FastForward(c: Clone, f: Flags): Outcome<()> {
    if !(f.localExists && f.remoteExists && c.local.Some? && c.tracking.Some?) then
      Going(c, ())
    else if c.tracking.value <= c.local.value then
      Going(c, ())
    else if c.local.value <= c.tracking.value then
      Going(c.(local := c.tracking), ())
    else
      Stopped(c.(checkedOut := false), NotFastForward)
  }

  /** The `submit/` directory is there if git has a file to put in it or if it was just made. */
  predicate HasSubmitDirectory(h: History, f: Flags) {
    f.localNew || Tip(h) != {}
  }

  /** Add the missing authorization files and commit them; tell whether there were any. */
  function Authorize(c: Clone, f: Flags, pkgs: seq<string>, id: nat): Outcome<bool>
    requires c.local.Some?
  {
    var h := c.local.value;
    if Names(pkgs) <= Tip(h) then
      Going(c, false)
    else if !HasSubmitDirectory(h, f) then
      Stopped(c.(checkedOut := false), CannotWrite)
    else
      Going(c.(local := Some(h + [Commit(id, Tip(h) + Names(pkgs))])), true)
  }

  /** The remote takes a push only as a fast-forward of its own branch. */
  predicate Accepts(remote: Option<History>, h: History) {
    remote.None? || remote.value <= h
  }

  /** The local branch once the guard of a failed push has run. */
  function Reverted(h: History, f: Flags, added: bool): Option<History> {
    if !added then Some(h)
    else if f.localNew then None
    else Some(if h == [] then [] else h[..|h| - 1])
  }

  /** Push, or fail and run both guards; in either case the worktree is released. */
  function Push(c: Clone, f: Flags, added: bool, remote: Option<History>, d: Delivery)
    : (r: (Outcome<()>, Option<History>))
    requires c.local.Some?
  {
    var h := c.local.value;
    var remote' := if !d.Undelivered? && Accepts(remote, h) then Some(h) else remote;
    if d.Delivered? && Accepts(remote, h) then
      (Going(Clone(Some(h), Some(h), false), ()), remote')
    else
      (Stopped(Clone(Reverted(h, f, added), c.tracking, false), PushFailed), remote')
  }

  /** How far an interrupted push got: what the remote and each of the guards still managed to do. */
  datatype Remains = Remains(arrived: bool, tracked: bool, reverted: bool, released: bool)

  /** A push during which the process dies, or one of whose guards fails in turn. */
  function CutShort(c: Clone, f: Flags, added: bool, remote: Option<History>, r: Remains)
    : (Clone, Option<History>)
    requires c.local.Some?
  {
    var h := c.local.value;
    var taken := r.arrived && Accepts(remote, h);
    (Clone(if r.reverted then Reverted(h, f, added) else c.local,
           if r.tracked && taken then c.local else c.tracking,
           !r.released),
     if taken then c.local else remote)
  }

  /** Whatever the push and its guards still managed, nothing but these three can have changed. */
  lemma CutShortExact(c: Clone, f: Flags, added: bool, remote: Option<History>, r: Remains)
    requires c.local.Some? && (added ==> c.local.value != [])
    ensures
      var (c', remote') := CutShort(c, f, added, remote, r);
      var h := c.local.value;
      var taken := r.arrived && (remote.None? || remote.value <= h);
      && c'.checkedOut == !r.released
      && c'.tracking == (if taken && r.tracked then Some(h) else c.tracking)
      && remote' == (if taken then Some(h) else remote)
      && (c'.local != Some(h) ==> r.reverted && added && c'.local == if f.localNew then None else Some(h[..|h| - 1]))
      && (r.reverted && added ==> c'.local != Some(h))
  {
  }

  function Fetched(c: Clone, remote: Option<History>): Clone {
    if remote.Some? then c.(tracking := remote) else c
  }

  /** Everything an attempt does before it talks to the remote. */
  function Prepare(c: Clone, pkgs: seq<string>, rootId: nat, id: nat): Outcome<(Flags, bool)> {
    match Open(c, rootId)
    case Stopped(c1, e) => Stopped(c1, e)
    case Going(c1, f) =>
      match FastForward(c1, f)
      case Stopped(c2, e) => Stopped(c2, e)
      case Going(c2, _) =>
        match Authorize(c2, f, pkgs, id)
        case Stopped(c3, e) => Stopped(c3, e)
        case Going(c3, added) => Going(c3, (f, added))
  }

  /** A whole attempt with nobody else in between. */
  function Attempt(c: Clone, remote: Option<History>, pkgs: seq<string>, rootId: nat, id: nat, d: Delivery)
    : (Outcome<()>, Option<History>)
  {
    match Prepare(c, pkgs, rootId, id)
    case Stopped(c', e) => (Stopped(c', e), remote)
    case Going(c', v) => Push(c', v.0, v.1, remote, d)
  }

  /** Some branch of the two continues the other. */
  predicate Related(a: History, b: History) {
    a <= b || b <= a
  }

  /** The branch an attempt commits to: the longer of the two related ones, or a new root. */
  function Base(c: Clone, rootId: nat): History {
    match (c.local, c.tracking)
    case (None, None) => [Commit(rootId, {})]
    case (None, Some(t)) => t
    case (Some(l), None) => l
    case (Some(l), Some(t)) => if t <= l then l else t
  }

  /**
   An attempt gets as far as the push if and only if no live worktree holds an absent branch, the
   two branches have not diverged, and the branch it would commit to is not an empty one that this
   attempt did not make itself. On the way it commits exactly the missing names onto that branch.
   */
  lemma PrepareExact(c: Clone, pkgs: seq<string>, rootId: nat, id: nat)
    ensures
      Prepare(c, pkgs, rootId, id).Going? <==>
        && (c.local.Some? || !c.checkedOut)
        && (c.local.Some? && c.tracking.Some? ==> Related(c.local.value, c.tracking.value))
        && ((c.local.None? && c.tracking.None?) || Names(pkgs) <= Tip(Base(c, rootId)) || Tip(Base(c, rootId)) != {})
    ensures
      var p := Prepare(c, pkgs, rootId, id);
      p.Going? ==>
        && p.clone.local.Some? && p.clone.checkedOut && p.clone.tracking == c.tracking
        && Names(pkgs) <= Tip(p.clone.local.value)
        && p.value.0.localNew == (c.local.None? && c.tracking.None?)
        && p.value.1 == !(Names(pkgs) <= Tip(Base(c, rootId)))
        && p.clone.local.value ==
           Base(c, rootId) + (if p.value.1 then [Commit(id, Tip(Base(c, rootId)) + Names(pkgs))] else [])
    ensures
      var p := Prepare(c, pkgs, rootId, id);
      p.Stopped? && !p.failure.WorktreeBusy? ==> !p.clone.checkedOut && p.clone.tracking == c.tracking
  {
    var b := Base(c, rootId);
    if c.local.Some? && c.tracking.Some? && c.tracking.value <= c.local.value && c.local.value <= c.tracking.value {
      assert c.local.value == c.tracking.value;
    }
    assert b + [] == b;
  }

  /**
   A branch left with nothing but its root commit, as after a run interrupted between making the
   branch and committing to it, blocks every later attempt, whatever has been fetched since.
   */
  lemma AbandonedRootBlocks(root: nat, tracking: Option<History>, checkedOut: bool, pkgs: seq<string>,
                            rootId: nat, id: nat)
    requires pkgs != []
    requires tracking.Some? ==> !Related([Commit(root, {})], tracking.value)
    ensures
      var c := Clone(Some([Commit(root, {})]), tracking, checkedOut);
      var p := Prepare(c, pkgs, rootId, id);
      && p == Stopped(c.(checkedOut := false), if tracking.None? then CannotWrite else NotFastForward)
  {
    assert Abbreviation(pkgs[0]) in Names(pkgs);
  }

  /**
   What a whole attempt does, for every starting state and every network behaviour. It succeeds
   exactly when it can be prepared, the remote takes the result and the answer arrives; then all
   three branches are equal and authorize every package. When the push fails, the local branch is
   what it was before this attempt's commit, or absent if this attempt made it and committed.
   */
  lemma AttemptExact(c: Clone, remote: Option<History>, pkgs: seq<string>, rootId: nat, id: nat, d: Delivery)
    ensures
      var p := Prepare(c, pkgs, rootId, id);
      var (o, remote') := Attempt(c, remote, pkgs, rootId, id, d);
      && (o.Going? <==>
            p.Going? && (remote.None? || remote.value <= p.clone.local.value) && d.Delivered?)
      && (o.Going? ==>
            && o.clone.local.Some? && o.clone.tracking == o.clone.local == remote' && !o.clone.checkedOut
            && (forall c :: c in pkgs && |c| >= 16 ==> c[..16] in Tip(o.clone.local.value)))
      && (o.Stopped? && o.failure.PushFailed? ==>
            && !o.clone.checkedOut && o.clone.tracking == c.tracking
            && o.clone.local ==
               if p.value.0.localNew && p.value.1 then None else Some(Base(c, rootId)))
      && remote' == (if p.Going? && !d.Undelivered? && (remote.None? || remote.value <= p.clone.local.value)
                     then p.clone.local else remote)
      && (remote.Some? ==> remote'.Some? && remote.value <= remote'.value)
  {
    PrepareExact(c, pkgs, rootId, id);
    assert forall k :: k in pkgs ==> Abbreviation(k) in Names(pkgs);
    var p := Prepare(c, pkgs, rootId, id);
    if p.Going? && p.value.1 {
      var b := Base(c, rootId);
      var h := p.clone.local.value;
      assert h[..|h| - 1] == b;
    } else if p.Going? {
      assert Base(c, rootId) + [] == Base(c, rootId);
    }
  }
}
