/** Every sequence of commands on the configuration database, failing ones included. */
module ConfigRuns {
  import opened Common
  import opened ConfigDb
  import opened InitPackages

  datatype Command =
    | AddConfig(options: AddOptions, path: string, newName: Option<string>, newId: Option<nat>)
    | SetFlags(ids: seq<nat>, flags: Flags)
    | MoveConfig(id: nat, path: string)
    | RenameConfig(id: nat, name: string)
    | RemoveConfigs(ids: seq<nat>)
    | InitConfigs(ids: seq<nat>, pkgs: seq<string>, luck: seq<Luck>)
    | DeinitConfigs(ids: seq<nat>, pkgs: seq<string>, luck: seq<Luck>)

  const EMPTY := Db(map[], 0)

  /** The configurations selected exist and none is selected twice. */
  predicate Selectable(db: Db, ids: seq<nat>) {
    NoDuplicates(ids) && forall k :: 0 <= k < |ids| ==> ids[k] in db.rows
  }

  /** A failed transaction leaves the database as it was. */
  function OrElse(db: Db, r: Result<Db, Error>): Db {
    if r.Ok? then r.value else db
  }

  /** What a command leaves committed; one that cannot select its configurations leaves all as it was. */
  function Exec(db: Db, c: Command): Db {
    match c
    case AddConfig(o, path, name, id) => OrElse(db, Add(db, o, path, name, id))
    case SetFlags(ids, f) => OrElse(db, SetConfigs(db, ids, f))
    case MoveConfig(id, path) => OrElse(db, Move(db, id, path))
    case RenameConfig(id, name) => OrElse(db, Rename(db, id, name))
    case RemoveConfigs(ids) => if Selectable(db, ids) then OrElse(db, Remove(db, ids)) else db
    case InitConfigs(ids, pkgs, luck) =>
      if Selectable(db, ids) && |luck| == |ids| then InitEach(db, Load(db, ids), pkgs, luck).db else db
    case DeinitConfigs(ids, pkgs, luck) =>
      if Selectable(db, ids) && |luck| == |ids| && Unverified(Load(db, ids), pkgs).None?
      then DeinitEach(db, Load(db, ids), pkgs, luck).db else db
  }

  function Run(db: Db, cs: seq<Command>): Db
    decreases |cs|
  {
    if cs == [] then db else Run(Exec(db, cs[0]), cs[1..])
  }

  /** A run is its commands one after another. */
  lemma {:induction false} RunStep(db: Db, cs: seq<Command>, c: Command)
    ensures Run(db, []) == db && Run(db, cs + [c]) == Exec(Run(db, cs), c)
    decreases |cs|
  {
    if cs == [] {
      assert (cs + [c])[1..] == [];
    } else {
      assert (cs + [c])[0] == cs[0] && (cs + [c])[1..] == cs[1..] + [c];
      RunStep(Exec(db, cs[0]), cs[1..], c);
    }
  }

  /** What succeeds is committed and what fails leaves the database as it was. */
  lemma ExecCommits(db: Db, o: AddOptions, path: string, name: Option<string>, id: Option<nat>, row: nat,
                    ids: seq<nat>, f: Flags)
    ensures
      var after := Exec(db, AddConfig(o, path, name, id));
      if Add(db, o, path, name, id).Ok? then Ok(after) == Add(db, o, path, name, id) else after == db
    ensures
      var after := Exec(db, SetFlags(ids, f));
      if SetConfigs(db, ids, f).Ok? then Ok(after) == SetConfigs(db, ids, f) else after == db
    ensures
      var after := Exec(db, MoveConfig(row, path));
      if Move(db, row, path).Ok? then Ok(after) == Move(db, row, path) else after == db
    ensures
      var after := Exec(db, RenameConfig(row, path));
      if Rename(db, row, path).Ok? then Ok(after) == Rename(db, row, path) else after == db
    ensures NoDuplicates(ids) ==>
              var after := Exec(db, RemoveConfigs(ids));
              if Remove(db, ids).Ok? then Ok(after) == Remove(db, ids) else after == db
  {
    if NoDuplicates(ids) && Remove(db, ids).Ok? {
      RemovedExist(db, ids);
    }
  }

  lemma {:induction false} RemovedExist(db: Db, ids: seq<nat>)
    requires Remove(db, ids).Ok?
    ensures forall k :: 0 <= k < |ids| ==> ids[k] in db.rows
    decreases |ids|
  {
    if ids != [] {
      RemovedExist(db.(rows := db.rows - {ids[0]}), ids[1..]);
      assert forall k :: 1 <= k < |ids| ==> ids[k] == ids[1..][k - 1];
    }
  }

  /** `init` and `deinit` leave committed what they got through. */
  lemma ExecGetsThrough(db: Db, ids: seq<nat>, pkgs: seq<string>, luck: seq<Luck>)
    requires NoDuplicates(ids) && |luck| == |ids| && forall k :: 0 <= k < |ids| ==> ids[k] in db.rows
    ensures Exec(db, InitConfigs(ids, pkgs, luck)) == InitEach(db, Load(db, ids), pkgs, luck).db
    ensures Exec(db, DeinitConfigs(ids, pkgs, luck)) ==
              if Unverified(Load(db, ids), pkgs).None? then DeinitEach(db, Load(db, ids), pkgs, luck).db else db
  {
  }

  lemma ExecKeeps(db: Db, c: Command)
    requires Valid(db)
    ensures Valid(Exec(db, c))
  {
    match c
    case AddConfig(o, path, name, id) =>
      AddExact(db, o, path, name, id);
    case SetFlags(ids, f) =>
      if SetConfigs(db, ids, f).Ok? {
        SetExact(db, ids, f);
      }
    case MoveConfig(id, path) =>
      if id in db.rows {
        MoveExact(db, id, path);
      }
    case RenameConfig(id, name) =>
      if id in db.rows {
        RenameExact(db, id, name);
      }
    case RemoveConfigs(ids) =>
      if Selectable(db, ids) {
        RemoveExact(db, ids);
      }
    case InitConfigs(ids, pkgs, luck) =>
      if Selectable(db, ids) && |luck| == |ids| {
        InitAndDeinitKeep(db, ids, pkgs, luck);
      }
    case DeinitConfigs(ids, pkgs, luck) =>
      if Selectable(db, ids) && |luck| == |ids| {
        InitAndDeinitKeep(db, ids, pkgs, luck);
      }
  }

  lemma InitAndDeinitKeep(db: Db, ids: seq<nat>, pkgs: seq<string>, luck: seq<Luck>)
    requires Valid(db) && Selectable(db, ids) && |luck| == |ids|
    ensures Valid(InitEach(db, Load(db, ids), pkgs, luck).db)
    ensures Valid(DeinitEach(db, Load(db, ids), pkgs, luck).db)
  {
    var hs := Load(db, ids);
    assert Current(db, hs);
    InitCommitsPrefix(db, hs, pkgs, luck);
    DeinitCommitsPrefix(db, hs, pkgs, luck);
  }

  /**
   In every database that commands can lead to: at most one default, unique paths and names, no
   package twice in a configuration, and no package in two forwarded configurations.
   */
  lemma {:induction false} EveryReachableIsValid(db: Db, cs: seq<Command>)
    requires Valid(db)
    ensures Valid(Run(db, cs))
    decreases |cs|
  {
    if cs != [] {
      ExecKeeps(db, cs[0]);
      EveryReachableIsValid(Exec(db, cs[0]), cs[1..]);
    }
  }

  /** So whatever has happened since the database was created, no query finds two rows for one answer. */
  lemma LookupsStayUnique(cs: seq<Command>, i: nat, j: nat)
    requires i in Run(EMPTY, cs).rows && j in Run(EMPTY, cs).rows && i != j
    ensures
      var a, b := Run(EMPTY, cs).rows[i], Run(EMPTY, cs).rows[j];
      && !(a.isDefault && b.isDefault) && a.path != b.path && (a.name.Some? ==> a.name != b.name)
      && forall p :: !BothForward(a, b, p)
  {
    EveryReachableIsValid(EMPTY, cs);
    LookupsAreUnique(Run(EMPTY, cs), i, j);
  }
}
