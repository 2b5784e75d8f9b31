/**
 The control-branch section of `bdep publish` in the order the command performs it: repository
 mutations, the loop that adds authorization files, the push, both failure guards and the submit
 loop. It is proved against the stages of `ControlBranch`, which the protocol proofs are about.
 */
module ControlRepository {
  import opened Common
  import opened ControlBranch

  class Remote {
    var branch: Option<History>

    constructor (branch: Option<History>)
      ensures this.branch == branch
    {
      this.branch := branch;
    }
  }

  class Local {
    var local: Option<History>
    var tracking: Option<History>
    var checkedOut: bool

    constructor (c: Clone)
      ensures State() == c
    {
      local, tracking, checkedOut := c.local, c.tracking, c.checkedOut;
    }

    function State(): Clone
      reads this
    {
      Clone(local, tracking, checkedOut)
    }

    /** Write the missing authorization files one by one, as the worktree `files` fills up. */
    method AddFiles(files: set<string>, writable: bool, pkgs: seq<string>)
      returns (files': set<string>, added: bool, ok: bool)
      ensures ok <==> (writable || Names(pkgs) <= files)
      ensures ok ==> files' == files + Names(pkgs)
      ensures ok ==> forall c :: c in pkgs && |c| >= 16 ==> c[..16] in files'
      ensures ok ==> (added <==> !(Names(pkgs) <= files))
    {
      files', added, ok := files, false, true;
      for i := 0 to |pkgs|
        invariant ok && files' == files + Names(pkgs[..i])
        invariant added <==> !(Names(pkgs[..i]) <= files)
        invariant added ==> writable
      {
        var name := Abbreviation(pkgs[i]);
        assert pkgs[..i + 1] == pkgs[..i] + [pkgs[i]];
        assert Names(pkgs[..i + 1]) == Names(pkgs[..i]) + {name};
        if name !in files' {
          if !writable {
            assert name in Names(pkgs) && name !in files;
            ok := false;
            return;
          }
          files' := files' + {name};
          added := true;
        }
      }
      assert pkgs[..|pkgs|] == pkgs;
      assert forall c :: c in pkgs ==> Abbreviation(c) in Names(pkgs);
    }

    /** git push, with both guards on failure. */
    method PushBranch(remote: Remote, f: Flags, added: bool, d: Delivery) returns (ok: bool)
      requires local.Some?
      modifies this, remote
      ensures
        var (o, branch') := Push(old(State()), f, added, old(remote.branch), d);
        State() == o.clone && remote.branch == branch' && ok == o.Going?
    {
      var accepted := remote.branch.None? || remote.branch.value <= local.value;
      if accepted && !d.Undelivered? {
        remote.branch := local;
      }
      ok := accepted && d.Delivered?;
      if ok {
        tracking := local;
      } else if added {
        if f.localNew {
          checkedOut := false;
          local := None;
        } else if |local.value| > 0 {
          local := Some(local.value[..|local.value| - 1]);
        }
      }
      checkedOut := false;
    }

    /** Make or check out the branch, bring it up to date and commit the missing authorizations. */
    method PrepareBranch(pkgs: seq<string>, rootId: nat, id: nat)
      returns (failure: Option<Failure>, f: Flags, added: bool)
      modifies this
      ensures
        match Prepare(old(State()), pkgs, rootId, id)
        case Stopped(c, e) => failure == Some(e) && State() == c
        case Going(c, v) => failure == None && State() == c && v == (f, added)
    {
      failure, added := None, false;
      var localExists, remoteExists, localNew := local.Some?, tracking.Some?, false;
      if !localExists {
        if !remoteExists {
          local := Some([Commit(rootId, {})]);
          localNew := true;
        } else {
          local := tracking;
        }
        f := Flags(localExists, remoteExists, localNew);
        if checkedOut {
          failure := Some(WorktreeBusy);
          return;
        }
      } else {
        f := Flags(localExists, remoteExists, localNew);
        checkedOut := false;
      }
      checkedOut := true;

      if localExists && remoteExists && !(tracking.value <= local.value) {
        if local.value <= tracking.value {
          local := tracking;
        } else {
          checkedOut := false;
          failure := Some(NotFastForward);
          return;
        }
      }

      var tree := Tip(local.value);
      var files, ok;
      files, added, ok := AddFiles(tree, localNew || tree != {}, pkgs);
      if !ok {
        checkedOut := false;
        failure := Some(CannotWrite);
        return;
      }
      if added {
        local := Some(local.value + [Commit(id, files)]);
      }
    }

    /** Submit the packages one by one until one of them is not taken. */
    static method SubmitAll(pkgs: seq<string>, answers: seq<bool>) returns (submitted: seq<string>)
      requires |answers| == |pkgs|
      ensures submitted <= pkgs && forall k :: 0 <= k < |submitted| ==> answers[k]
      ensures submitted != pkgs ==> |submitted| < |pkgs| && !answers[|submitted|]
    {
      submitted := [];
      for i := 0 to |pkgs|
        invariant submitted == pkgs[..i] && forall k :: 0 <= k < i ==> answers[k]
      {
        if !answers[i] {
          return;
        }
        submitted := submitted + [pkgs[i]];
      }
    }

    /**
     Publish the packages with these archive checksums. `answers` tells of each whether the package
     repository takes it; the first that it does not take ends the submitting.
     */
    method Publish(remote: Remote, pkgs: seq<string>, rootId: nat, id: nat, d: Delivery, answers: seq<bool>)
      returns (failure: Option<Failure>, submitted: seq<string>)
      requires |answers| == |pkgs|
      modifies this, remote
      ensures
        var (o, branch') := Attempt(old(State()), old(remote.branch), pkgs, rootId, id, d);
        && State() == o.clone && remote.branch == branch'
        && failure == (if o.Stopped? then Some(o.failure) else None)
      ensures failure.Some? ==> submitted == []
      ensures failure.None? ==>
                && submitted <= pkgs && (forall k :: 0 <= k < |submitted| ==> answers[k])
                && (submitted != pkgs ==> |submitted| < |pkgs| && !answers[|submitted|])
      ensures failure.None? ==> forall c :: c in pkgs && |c| >= 16 ==>
                remote.branch.Some? && c[..16] in Tip(remote.branch.value)
    {
      submitted := [];
      AttemptExact(State(), remote.branch, pkgs, rootId, id, d);
      PrepareExact(State(), pkgs, rootId, id);
      var f, added;
      failure, f, added := PrepareBranch(pkgs, rootId, id);
      if failure.Some? {
        return;
      }
      var ok := PushBranch(remote, f, added, d);
      if !ok {
        failure := Some(PushFailed);
        return;
      }
      submitted := SubmitAll(pkgs, answers);
    }
  }
}
