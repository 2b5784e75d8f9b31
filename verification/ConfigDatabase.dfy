/**
 The configuration commands as they run: loops over the selected configurations that change rows
 in a transaction which commits at the end or not at all, except that `init` and `deinit` commit
 after each configuration.
 */
module ConfigDatabase {
  import opened Common
  import opened ConfigDb
  import opened InitPackages

  /** The configurations named on the command line. */
  datatype Selection = Selection(names: seq<string>, paths: seq<string>, ids: seq<nat>, all: bool)

  predicate Nothing(sel: Selection) {
    sel.names == [] && sel.paths == [] && sel.ids == [] && !sel.all
  }

  /** Everything mentioned exists. */
  predicate Found(rows: map<nat, Config>, sel: Selection) {
    && (forall n :: n in sel.names ==> HasName(rows, n))
    && (forall p :: p in sel.paths ==> HasPath(rows, p))
    && (forall i :: i in sel.ids ==> i in rows)
    && (sel.all ==> rows != map[])
  }

  /** The ids in order of first mention, each once. */
  function Weeded(s: seq<nat>): (r: seq<nat>)
    ensures NoDuplicates(r) && forall i :: i in r <==> i in s
  {
    if s == [] then []
    else
      var r, last := Weeded(s[..|s| - 1]), s[|s| - 1];
      assert s == s[..|s| - 1] + [last];
      if last in r then r else r + [last]
  }

  /** What is mentioned later never comes before, or in place of, what was mentioned earlier. */
  lemma {:induction false} WeededPrefix(a: seq<nat>, b: seq<nat>)
    ensures Weeded(a) <= Weeded(a + b)
    decreases |b|
  {
    if b == [] {
      assert a + b == a;
    } else {
      var n := |b| - 1;
      assert a + b == (a + b[..n]) + [b[n]];
      WeedOne(a + b[..n], b[n]);
      WeededPrefix(a, b[..n]);
    }
  }

  lemma WeedOne(s: seq<nat>, i: nat)
    ensures Weeded(s + [i]) == if i in Weeded(s) then Weeded(s) else Weeded(s) + [i]
  {
    assert (s + [i])[..|s|] == s;
  }

  /** The row with the name, which is the only one. */
  ghost function IdOfName(rows: map<nat, Config>, name: string): nat
    requires HasName(rows, name)
  {
    var i :| i in rows && rows[i].name == Some(name);
    i
  }

  ghost function IdOfPath(rows: map<nat, Config>, path: string): nat
    requires HasPath(rows, path)
  {
    var i :| i in rows && rows[i].path == path;
    i
  }

  ghost function IdsOfNames(rows: map<nat, Config>, names: seq<string>): (ids: seq<nat>)
    requires forall n :: n in names ==> HasName(rows, n)
    ensures |ids| == |names| && forall k :: 0 <= k < |ids| ==> ids[k] == IdOfName(rows, names[k])
  {
    if names == [] then []
    else IdsOfNames(rows, names[..|names| - 1]) + [IdOfName(rows, names[|names| - 1])]
  }

  lemma NoNames(rows: map<nat, Config>)
    ensures Weeded(IdsOfNames(rows, [])) == []
  {
  }

  lemma NamesNext(rows: map<nat, Config>, names: seq<string>, k: nat)
    requires k < |names| && HasName(rows, names[k]) && forall n :: n in names[..k] ==> HasName(rows, n)
    ensures forall n :: n in names[..k + 1] ==> HasName(rows, n)
    ensures IdsOfNames(rows, names[..k + 1]) == IdsOfNames(rows, names[..k]) + [IdOfName(rows, names[k])]
  {
    assert names[..k + 1] == names[..k] + [names[k]];
  }

  ghost function IdsOfPaths(rows: map<nat, Config>, paths: seq<string>): (ids: seq<nat>)
    requires forall p :: p in paths ==> HasPath(rows, p)
    ensures |ids| == |paths| && forall k :: 0 <= k < |ids| ==> ids[k] == IdOfPath(rows, paths[k])
  {
    if paths == [] then []
    else IdsOfPaths(rows, paths[..|paths| - 1]) + [IdOfPath(rows, paths[|paths| - 1])]
  }

  lemma NoPaths(rows: map<nat, Config>)
    ensures IdsOfPaths(rows, []) == []
  {
  }

  lemma PathsNext(rows: map<nat, Config>, paths: seq<string>, k: nat)
    requires k < |paths| && HasPath(rows, paths[k]) && forall p :: p in paths[..k] ==> HasPath(rows, p)
    ensures forall p :: p in paths[..k + 1] ==> HasPath(rows, p)
    ensures IdsOfPaths(rows, paths[..k + 1]) == IdsOfPaths(rows, paths[..k]) + [IdOfPath(rows, paths[k])]
  {
    assert paths[..k + 1] == paths[..k] + [paths[k]];
  }

  /** All that is mentioned, in order: names, directories, ids, and with --all every row. */
  ghost function MentionedIds(rows: map<nat, Config>, listing: seq<nat>, sel: Selection): seq<nat>
    requires Found(rows, sel.(all := false))
  {
    IdsOfNames(rows, sel.names) + IdsOfPaths(rows, sel.paths) + sel.ids + if sel.all then listing else []
  }

  ghost function IdOfDefault(rows: map<nat, Config>): nat
    requires HasDefault(rows)
  {
    var i :| i in rows && rows[i].isDefault;
    i
  }

  /** The rows a selection stands for: those mentioned, each once, or the default one if none is. */
  ghost function SelectedIds(rows: map<nat, Config>, listing: seq<nat>, sel: Selection): seq<nat>
    requires Found(rows, sel) && (Nothing(sel) ==> HasDefault(rows))
  {
    if Nothing(sel) then [IdOfDefault(rows)] else Weeded(MentionedIds(rows, listing, sel))
  }

  /** The directories of these rows are there. */
  predicate AllPresent(rows: map<nat, Config>, ids: seq<nat>, present: set<string>) {
    forall k :: 0 <= k < |ids| && ids[k] in rows ==> rows[ids[k]].path in present
  }

  lemma WithoutFrom(r: seq<string>, packages: seq<string>, pkgs: seq<string>, n: nat)
    requires n < |packages|
    ensures r + Without(packages[n..], pkgs) ==
              (if packages[n] in pkgs then r else r + [packages[n]]) + Without(packages[n + 1..], pkgs)
  {
    assert packages[n..][0] == packages[n] && packages[n..][1..] == packages[n + 1..];
    var rest := Without(packages[n + 1..], pkgs);
    assert [] + rest == rest;
    Associative(r, [packages[n]], rest);
  }

  lemma NonemptyHas<T>(s: seq<T>)
    ensures s != [] ==> exists x :: x in s
  {
    if s != [] {
      assert s[0] in s;
    }
  }

  class Database {
    var rows: map<nat, Config>
    var lastId: nat

    constructor ()
      ensures State() == Db(map[], 0)
    {
      rows, lastId := map[], 0;
    }

    function State(): Db
      reads this
    {
      Db(rows, lastId)
    }

    // ---- Selecting ------------------------------------------------------------------------------

    /** A row satisfying the query, if there is one, out of the rows in whatever order they come. */
    method QueryOne(listing: seq<nat>, query: Config -> bool) returns (r: Option<nat>)
      requires forall i :: i in listing <==> i in rows
      ensures r.Some? ==> r.value in rows && query(rows[r.value])
      ensures r.None? ==> forall i :: i in rows ==> !query(rows[i])
    {
      for k := 0 to |listing|
        invariant forall j :: 0 <= j < k ==> !query(rows[listing[j]])
      {
        if query(rows[listing[k]]) {
          return Some(listing[k]);
        }
      }
      r := None;
    }

    /** Append unless already there. */
    static method Weed(r: seq<nat>, i: nat, ghost all: seq<nat>) returns (r': seq<nat>)
      requires r == Weeded(all)
      ensures r' == Weeded(all + [i])
    {
      WeedOne(all, i);
      r' := if i in r then r else r + [i];
    }

    method SelectNames(listing: seq<nat>, names: seq<string>) returns (r: Option<seq<nat>>)
      requires Valid(State()) && forall i :: i in listing <==> i in rows
      ensures r.Some? <==> forall n :: n in names ==> HasName(rows, n)
      ensures r.Some? ==> r.value == Weeded(IdsOfNames(rows, names))
    {
      hide Weeded, IdsOfNames;
      var found: seq<nat> := [];
      NoNames(rows);
      for k := 0 to |names|
        invariant forall n :: n in names[..k] ==> HasName(rows, n)
        invariant found == Weeded(IdsOfNames(rows, names[..k]))
      {
        var c := QueryOne(listing, (x: Config) => x.name == Some(names[k]));
        if c.None? {
          assert !HasName(rows, names[k]);
          return None;
        }
        LookupsAreUnique(State(), IdOfName(rows, names[k]), c.value);
        NamesNext(rows, names, k);
        found := Weed(found, c.value, IdsOfNames(rows, names[..k]));
      }
      assert names[..|names|] == names;
      r := Some(found);
    }

    method SelectPaths(listing: seq<nat>, paths: seq<string>, before: seq<nat>, ghost all: seq<nat>)
      returns (r: Option<seq<nat>>)
      requires Valid(State()) && (forall i :: i in listing <==> i in rows) && before == Weeded(all)
      ensures r.Some? <==> forall p :: p in paths ==> HasPath(rows, p)
      ensures r.Some? ==> r.value == Weeded(all + IdsOfPaths(rows, paths))
    {
      hide Weeded, IdsOfPaths;
      var found := before;
      NoPaths(rows);
      assert all + [] == all;
      for k := 0 to |paths|
        invariant forall p :: p in paths[..k] ==> HasPath(rows, p)
        invariant found == Weeded(all + IdsOfPaths(rows, paths[..k]))
      {
        var c := QueryOne(listing, (x: Config) => x.path == paths[k]);
        if c.None? {
          assert !HasPath(rows, paths[k]);
          return None;
        }
        LookupsAreUnique(State(), IdOfPath(rows, paths[k]), c.value);
        PathsNext(rows, paths, k);
        Associative(all, IdsOfPaths(rows, paths[..k]), [c.value]);
        found := Weed(found, c.value, all + IdsOfPaths(rows, paths[..k]));
      }
      assert paths[..|paths|] == paths;
      r := Some(found);
    }

    method SelectIds(ids: seq<nat>, before: seq<nat>, ghost all: seq<nat>) returns (r: Option<seq<nat>>)
      requires before == Weeded(all)
      ensures r.Some? <==> forall i :: i in ids ==> i in rows
      ensures r.Some? ==> r.value == Weeded(all + ids)
    {
      var found := before;
      assert all + [] == all;
      for k := 0 to |ids|
        invariant forall i :: i in ids[..k] ==> i in rows
        invariant found == Weeded(all + ids[..k])
      {
        if ids[k] !in rows {
          return None;
        }
        assert ids[..k + 1] == ids[..k] + [ids[k]];
        Associative(all, ids[..k], [ids[k]]);
        found := Weed(found, ids[k], all + ids[..k]);
      }
      assert ids[..|ids|] == ids;
      r := Some(found);
    }

    /** All that is mentioned, each once, in order of first mention; nothing if any of it is missing. */
    method SelectMentioned(listing: seq<nat>, sel: Selection) returns (r: Option<seq<nat>>)
      requires Valid(State()) && forall i :: i in listing <==> i in rows
      ensures r.Some? <==> Found(rows, sel.(all := false))
      ensures r.Some? ==> r.value == Weeded(MentionedIds(rows, listing, sel))
    {
      r := SelectNames(listing, sel.names);
      if r.None? {
        return;
      }
      ghost var all := IdsOfNames(rows, sel.names);
      r := SelectPaths(listing, sel.paths, r.value, all);
      if r.None? {
        return;
      }
      all := all + IdsOfPaths(rows, sel.paths);
      r := SelectIds(sel.ids, r.value, all);
      if r.None? {
        return;
      }
      all := all + sel.ids;
      if sel.all {
        r := SelectIds(listing, r.value, all);
      } else {
        assert all + [] == all;
      }
    }

    /** The configurations selected, whether or not their directories are still there. */
    method SelectConfigurations(listing: seq<nat>, sel: Selection, fallback: bool) returns (r: Result<seq<nat>, Error>)
      requires Valid(State()) && forall i :: i in listing <==> i in rows
      ensures r.Ok? <==> Found(rows, sel) && (Nothing(sel) ==> fallback && HasDefault(rows))
      ensures r.Ok? ==> r.value == SelectedIds(rows, listing, sel) && r.value != []
      ensures r.Ok? ==> forall i :: i in r.value ==> i in rows
    {
      var found := SelectMentioned(listing, sel);
      if found.None? {
        return Err(NoConfiguration);
      }
      NothingMentioned(listing, sel);
      if sel.all && found.value == [] {
        return Err(NoConfiguration);
      }
      if found.value == [] {
        if !fallback {
          return Err(NothingSpecified);
        }
        var c := QueryOne(listing, (x: Config) => x.isDefault);
        if c.None? {
          return Err(NoConfiguration);
        }
        LookupsAreUnique(State(), IdOfDefault(rows), c.value);
        return Ok([c.value]);
      }
      MentionedExist(listing, sel);
      r := Ok(found.value);
    }

    /**
     The configurations mentioned, each once, in order of first mention, or the default one if none
     is and that is allowed. It fails exactly when something mentioned does not exist, there is nothing
     to fall back to, or, if that is to be checked, the directory of one of them is gone.
     */
    method FindConfigurations(listing: seq<nat>, sel: Selection, fallback: bool, validate: bool, present: set<string>)
      returns (r: Result<seq<nat>, Error>)
      requires Valid(State()) && forall i :: i in listing <==> i in rows
      ensures r.Ok? <==>
                && Found(rows, sel) && (Nothing(sel) ==> fallback && HasDefault(rows))
                && (validate ==> AllPresent(rows, SelectedIds(rows, listing, sel), present))
      ensures r.Ok? ==> r.value == SelectedIds(rows, listing, sel)
    {
      hide SelectedIds, Found;
      r := SelectConfigurations(listing, sel, fallback);
      if r.Ok? && validate {
        var ids := r.value;
        for k := 0 to |ids|
          invariant AllPresent(rows, ids[..k], present)
        {
          if rows[ids[k]].path !in present {
            assert !AllPresent(rows, ids, present);
            return Err(DirectoryGone(rows[ids[k]].path));
          }
          assert ids[..k + 1] == ids[..k] + [ids[k]];
        }
        assert ids[..|ids|] == ids;
      }
    }

    lemma MentionedExist(listing: seq<nat>, sel: Selection)
      requires Found(rows, sel.(all := false)) && forall i :: i in listing <==> i in rows
      ensures forall i :: i in Weeded(MentionedIds(rows, listing, sel)) ==> i in rows
    {
      var names, paths := IdsOfNames(rows, sel.names), IdsOfPaths(rows, sel.paths);
      assert forall i :: i in names ==> i in rows;
      assert forall i :: i in paths ==> i in rows;
    }

    /** Nothing comes of a selection exactly if it is empty, or asks for all rows where there are none. */
    lemma NothingMentioned(listing: seq<nat>, sel: Selection)
      requires Found(rows, sel.(all := false)) && forall i :: i in listing <==> i in rows
      ensures Weeded(MentionedIds(rows, listing, sel)) == [] <==> Nothing(sel) || (sel.all && rows == map[])
    {
      var all := MentionedIds(rows, listing, sel);
      NonemptyHas(all);
      NonemptyHas(Weeded(all));
      EmptyRows(listing, sel);
      if listing == [] {
        assert forall i :: i !in rows;
        assert rows == map[];
      }
    }

    lemma EmptyRows(listing: seq<nat>, sel: Selection)
      requires Found(rows, sel.(all := false)) && forall i :: i in listing <==> i in rows
      ensures rows == map[] ==> sel.names == [] && sel.paths == [] && sel.ids == [] && listing == []
    {
      NonemptyHas(sel.names);
      NonemptyHas(sel.paths);
      NonemptyHas(sel.ids);
      NonemptyHas(listing);
    }

    // ---- Transactions ---------------------------------------------------------------------------

    method AddConfig(o: AddOptions, path: string, name: Option<string>, id: Option<nat>) returns (e: Option<Error>)
      modifies this
      ensures
        match Add(old(State()), o, path, name, id)
        case Ok(db) => e == None && State() == db
        case Err(err) => e == Some(err) && State() == old(State())
    {
      if name == Some("") {
        return Some(EmptyName);
      }
      var isDefault := o.isDefault;
      if isDefault.None? {
        isDefault := Some(rows == map[]);
      } else if isDefault.value && HasDefault(rows) {
        return Some(AlreadyDefault);
      }
      var forward := o.forward;
      if forward.None? {
        forward := Some(isDefault.value && !HasForward(rows));
      }
      if id.Some? && id.value in rows {
        return Some(IdTaken);
      }
      if name.Some? && HasName(rows, name.value) {
        return Some(NameTaken);
      }
      if HasPath(rows, path) {
        return Some(PathTaken);
      }
      var key := if id.Some? then id.value else lastId + 1;
      rows := rows[key := Config(name, path, isDefault.value, forward.value, !o.noAutoSync, [])];
      if key > lastId {
        lastId := key;
      }
      e := None;
    }

    method SetFlags(ids: seq<nat>, f: Flags) returns (e: Option<Error>)
      modifies this`rows
      ensures
        match SetConfigs(old(State()), ids, f)
        case Ok(db) => e == None && State() == db
        case Err(err) => e == Some(err) && State() == old(State())
    {
      if f.isDefault.None? && f.forward.None? && f.autoSync.None? {
        return Some(NothingSpecified);
      }
      if exists k :: 0 <= k < |ids| && ids[k] !in rows {
        return Some(NoConfiguration);
      }
      var work := rows;
      ghost var goal := SetEach(State(), ids, f);
      assert ids[0..] == ids;
      for n := 0 to |ids|
        invariant forall k :: 0 <= k < |ids| ==> ids[k] in work
        invariant rows == old(rows) && goal == SetEach(Db(work, lastId), ids[n..], f)
      {
        assert ids[n..][0] == ids[n] && ids[n..][1..] == ids[n + 1..];
        var c := work[ids[n]];
        if f.isDefault.Some? {
          if f.isDefault.value && !c.isDefault && HasDefault(work) {
            return Some(AlreadyDefault);
          }
          c := c.(isDefault := f.isDefault.value);
        }
        if f.forward.Some? {
          if f.forward.value && !c.forward && SharesForwarded(work, c) {
            return Some(AlsoForwarded);
          }
          c := c.(forward := f.forward.value);
        }
        if f.autoSync.Some? {
          c := c.(autoSync := f.autoSync.value);
        }
        work := work[ids[n] := c];
      }
      rows := work;
      e := None;
    }

    method MoveConfig(id: nat, path: string) returns (e: Option<Error>)
      requires id in rows
      modifies this`rows
      ensures
        match Move(old(State()), id, path)
        case Ok(db) => e == None && State() == db
        case Err(err) => e == Some(err) && State() == old(State())
    {
      if HasPath(rows, path) {
        return Some(PathTaken);
      }
      rows := rows[id := rows[id].(path := path)];
      e := None;
    }

    /**
     Rename the one configuration selected. The new name is the argument or else the last of the names
     given, which then does not select.
     */
    method RenameConfig(listing: seq<nat>, argument: Option<string>, sel: Selection) returns (e: Option<Error>)
      requires Valid(State()) && forall i :: i in listing <==> i in rows
      modifies this`rows
      ensures e.Some? ==> State() == old(State())
      ensures
        var taken := TakeNewName(argument, sel.names, sel.paths != [] || sel.ids != []);
        && (taken.Err? ==> e == Some(taken.error))
        && (taken.Ok? ==>
              var left := sel.(names := taken.value.1);
              && (e.None? <==>
                    && old(Found(rows, left)) && !Nothing(left) && !old(HasName(rows, taken.value.0))
                    && |old(SelectedIds(rows, listing, left))| == 1)
              && (e.None? ==>
                    Ok(State()) == old(Rename(State(), SelectedIds(rows, listing, left)[0], taken.value.0))))
    {
      var taken := TakeNewName(argument, sel.names, sel.paths != [] || sel.ids != []);
      if taken.Err? {
        return Some(taken.error);
      }
      var name, left := taken.value.0, sel.(names := taken.value.1);
      var found := SelectConfigurations(listing, left, false);
      if found.Err? {
        return Some(found.error);
      }
      if |found.value| > 1 {
        return Some(SeveralConfigurations);
      }
      if HasName(rows, name) {
        return Some(NameTaken);
      }
      var id := found.value[0];
      rows := rows[id := rows[id].(name := Some(name))];
      e := None;
    }

    method RemoveConfigs(ids: seq<nat>) returns (e: Option<Error>)
      modifies this`rows
      ensures
        match Remove(old(State()), ids)
        case Ok(db) => e == None && State() == db
        case Err(err) => e == Some(err) && State() == old(State())
    {
      var work := rows;
      ghost var goal := Remove(State(), ids);
      assert ids[0..] == ids;
      for n := 0 to |ids|
        invariant rows == old(rows) && goal == Remove(Db(work, lastId), ids[n..])
      {
        assert ids[n..][0] == ids[n] && ids[n..][1..] == ids[n + 1..];
        if ids[n] !in work {
          return Some(NoConfiguration);
        }
        if work[ids[n]].packages != [] {
          return Some(HasPackages);
        }
        work := work - {ids[n]};
      }
      rows := work;
      e := None;
    }

    // ---- One transaction per configuration --------------------------------------------------------

    /** Push the missing packages onto the copy. */
    method PushPackages(c: Config, pkgs: seq<string>) returns (r: Result<Config, Error>)
      ensures r == AddPackages(rows, c, pkgs)
    {
      var x := c;
      assert pkgs[0..] == pkgs;
      for n := 0 to |pkgs|
        invariant AddPackages(rows, x, pkgs[n..]) == AddPackages(rows, c, pkgs)
      {
        assert pkgs[n..][0] == pkgs[n] && pkgs[n..][1..] == pkgs[n + 1..];
        if pkgs[n] in x.packages {
          continue;
        }
        if x.forward && Forwards(rows, pkgs[n]) {
          return Err(AlsoForwarded);
        }
        x := x.(packages := x.packages + [pkgs[n]]);
      }
      r := Ok(x);
    }

    method InitConfigs(hs: seq<Held>, pkgs: seq<string>, luck: seq<Luck>) returns (committed: nat, ok: bool)
      requires |luck| == |hs|
      modifies this`rows
      ensures Progress(State(), committed, ok) == InitEach(old(State()), hs, pkgs, luck)
    {
      ghost var goal := InitEach(State(), hs, pkgs, luck);
      assert hs[0..] == hs && luck[0..] == luck;
      committed := 0;
      while committed < |hs|
        invariant committed <= |hs| && lastId == old(lastId)
        invariant
          var p := InitEach(State(), hs[committed..], pkgs, luck[committed..]);
          goal == p.(committed := committed + p.committed)
      {
        var h := hs[committed];
        assert hs[committed..][0] == h && hs[committed..][1..] == hs[committed + 1..];
        assert luck[committed..][0] == luck[committed] && luck[committed..][1..] == luck[committed + 1..];
        var c := PushPackages(h.config, pkgs);
        if c.Err? || !luck[committed].Fine? {
          return committed, false;
        }
        rows := rows[h.id := c.value];
        committed := committed + 1;
      }
      ok := true;
    }

    /** Drop the packages, keeping the others in order. */
    static method Drop(packages: seq<string>, pkgs: seq<string>) returns (r: seq<string>)
      ensures r == Without(packages, pkgs)
    {
      r := [];
      assert packages[0..] == packages;
      for n := 0 to |packages|
        invariant r + Without(packages[n..], pkgs) == Without(packages, pkgs)
      {
        WithoutFrom(r, packages, pkgs, n);
        if packages[n] !in pkgs {
          r := r + [packages[n]];
        }
      }
    }

    method DeinitConfigs(hs: seq<Held>, pkgs: seq<string>, luck: seq<Luck>) returns (committed: nat, ok: bool)
      requires |luck| == |hs|
      modifies this`rows
      ensures Unverified(hs, pkgs).Some? ==> State() == old(State()) && committed == 0 && !ok
      ensures Unverified(hs, pkgs).None? ==>
                Progress(State(), committed, ok) == DeinitEach(old(State()), hs, pkgs, luck)
    {
      if Unverified(hs, pkgs).Some? {
        return 0, false;
      }
      ghost var goal := DeinitEach(State(), hs, pkgs, luck);
      assert hs[0..] == hs && luck[0..] == luck;
      committed := 0;
      while committed < |hs|
        invariant committed <= |hs| && lastId == old(lastId)
        invariant
          var p := DeinitEach(State(), hs[committed..], pkgs, luck[committed..]);
          goal == p.(committed := committed + p.committed)
      {
        var h := hs[committed];
        assert hs[committed..][0] == h && hs[committed..][1..] == hs[committed + 1..];
        assert luck[committed..][0] == luck[committed] && luck[committed..][1..] == luck[committed + 1..];
        if h.config.packages != [] {
          var left := [];
          if pkgs != [] {
            left := Drop(h.config.packages, pkgs);
          }
          if luck[committed].FailsBefore? {
            return committed, false;
          }
          rows := rows[h.id := h.config.(packages := left)];
          if luck[committed].FailsAfter? {
            return committed + 1, false;
          }
        }
        committed := committed + 1;
      }
      ok := true;
    }
  }
}
