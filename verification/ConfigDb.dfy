/**
 The configuration database on values: what each command that changes it makes of it, or why it
 rolls back, and what every command keeps.
 */
module ConfigDb {
  import opened Common

  /** A configuration row; package names are compared without regard to case, so take them in one case. */
  datatype Config = Config(
    name: Option<string>,
    path: string,
    isDefault: bool,
    forward: bool,
    autoSync: bool,
    packages: seq<string>)

  /** The rows by id and the highest id ever given out. */
  datatype Db = Db(rows: map<nat, Config>, lastId: nat)

  datatype Error =
    | EmptyName
    | AlreadyDefault
    | IdTaken
    | NameTaken
    | PathTaken
    | NoConfiguration
    | NothingSpecified
    | NameExpected
    | SeveralConfigurations
    | DirectoryGone(path: string)
    | HasPackages
    | AlsoForwarded
    | NotInitialized(package: string)
    | CommandFailed

  // ---- What every command keeps ----------------------------------------------------------------

  predicate NoDuplicates<T(==)>(s: seq<T>) {
    forall i, j :: 0 <= i < j < |s| ==> s[i] != s[j]
  }

  /** Both are forwarded and hold the package. */
  predicate BothForward(a: Config, b: Config, p: string) {
    a.forward && b.forward && p in a.packages && p in b.packages
  }

  /** Two different rows that may stand side by side. */
  ghost predicate Compatible(a: Config, b: Config) {
    && a.path != b.path
    && (a.name.Some? ==> a.name != b.name)
    && !(a.isDefault && b.isDefault)
    && forall p :: !BothForward(a, b, p)
  }

  ghost predicate ValidRows(rows: map<nat, Config>) {
    && (forall i :: i in rows ==> NoDuplicates(rows[i].packages))
    && (forall i, j :: i in rows && j in rows && i != j ==> Compatible(rows[i], rows[j]))
  }

  ghost predicate Valid(db: Db) {
    && ValidRows(db.rows)
    && forall i :: i in db.rows ==> i <= db.lastId
  }

  // ---- Queries ---------------------------------------------------------------------------------

  predicate HasDefault(rows: map<nat, Config>) {
    exists i :: i in rows && rows[i].isDefault
  }

  predicate HasForward(rows: map<nat, Config>) {
    exists i :: i in rows && rows[i].forward
  }

  predicate HasName(rows: map<nat, Config>, name: string) {
    exists i :: i in rows && rows[i].name == Some(name)
  }

  predicate HasPath(rows: map<nat, Config>, path: string) {
    exists i :: i in rows && rows[i].path == path
  }

  /** Some forwarded row holds the package. */
  predicate Forwards(rows: map<nat, Config>, p: string) {
    exists i :: i in rows && rows[i].forward && p in rows[i].packages
  }

  /** A query by default, name or path never matches two rows. */
  lemma LookupsAreUnique(db: Db, i: nat, j: nat)
    requires Valid(db) && i in db.rows && j in db.rows
    ensures db.rows[i].isDefault && db.rows[j].isDefault ==> i == j
    ensures db.rows[i].path == db.rows[j].path ==> i == j
    ensures db.rows[i].name.Some? && db.rows[i].name == db.rows[j].name ==> i == j
    ensures forall p :: BothForward(db.rows[i], db.rows[j], p) ==> i == j
  {
    if i != j {
      assert Compatible(db.rows[i], db.rows[j]);
    }
  }

  // ---- config add --------------------------------------------------------------------------------

  datatype AddOptions = AddOptions(isDefault: Option<bool>, forward: Option<bool>, noAutoSync: bool)

  /** The row to be added, its default and forward flags settled. */
  function NewRow(db: Db, o: AddOptions, path: string, name: Option<string>): Config {
    var isDefault := if o.isDefault.Some? then o.isDefault.value else db.rows == map[];
    var forward := if o.forward.Some? then o.forward.value else isDefault && !HasForward(db.rows);
    Config(name, path, isDefault, forward, !o.noAutoSync, [])
  }

  function NewId(db: Db, id: Option<nat>): nat {
    if id.Some? then id.value else db.lastId + 1
  }

  function WithRow(db: Db, id: nat, c: Config): Db {
    Db(db.rows[id := c], if id > db.lastId then id else db.lastId)
  }

  function Add(db: Db, o: AddOptions, path: string, name: Option<string>, id: Option<nat>): Result<Db, Error> {
    if name == Some("") then Err(EmptyName)
    else if o.isDefault == Some(true) && HasDefault(db.rows) then Err(AlreadyDefault)
    else if id.Some? && id.value in db.rows then Err(IdTaken)
    else if name.Some? && HasName(db.rows, name.value) then Err(NameTaken)
    else if HasPath(db.rows, path) then Err(PathTaken)
    else Ok(WithRow(db, NewId(db, id), NewRow(db, o, path, name)))
  }

  /** A row that fits with the others can be put in place of any row or of none. */
  lemma PutRow(rows: map<nat, Config>, id: nat, c: Config)
    requires ValidRows(rows) && NoDuplicates(c.packages)
    requires forall i :: i in rows && i != id ==> Compatible(rows[i], c)
    ensures ValidRows(rows[id := c])
  {
    forall i | i in rows && i != id
      ensures Compatible(c, rows[i])
    {
      assert Compatible(rows[i], c);
      assert forall p :: BothForward(c, rows[i], p) ==> BothForward(rows[i], c, p);
    }
  }

  /** A row without packages fits if its name, its path and the default are free. */
  lemma NewRowFits(rows: map<nat, Config>, c: Config)
    requires c.packages == [] && !HasPath(rows, c.path)
    requires c.name.Some? ==> !HasName(rows, c.name.value)
    requires c.isDefault ==> !HasDefault(rows)
    ensures forall i :: i in rows ==> Compatible(rows[i], c)
  {
    assert forall i :: i in rows && rows[i].name.Some? && c.name.Some? ==> rows[i].name != c.name;
  }

  /**
   Adding succeeds if and only if the name is not empty, the id is free and the database with the new
   row is valid, and that is then the result.
   */
  lemma AddExact(db: Db, o: AddOptions, path: string, name: Option<string>, id: Option<nat>)
    requires Valid(db)
    ensures
      var key, c := NewId(db, id), NewRow(db, o, path, name);
      && (Add(db, o, path, name, id).Ok? <==> name != Some("") && key !in db.rows && Valid(WithRow(db, key, c)))
      && (Add(db, o, path, name, id).Ok? ==> Add(db, o, path, name, id).value == WithRow(db, key, c))
  {
    var key, c := NewId(db, id), NewRow(db, o, path, name);
    if Add(db, o, path, name, id).Ok? {
      NewRowFits(db.rows, c);
      PutRow(db.rows, key, c);
    } else if name != Some("") && key !in db.rows {
      RowClashes(db.rows, key, c);
    }
  }

  /** What the checks reject would not be valid. */
  lemma RowClashes(rows: map<nat, Config>, key: nat, c: Config)
    requires key !in rows
    requires
      || (c.isDefault && HasDefault(rows))
      || (c.name.Some? && HasName(rows, c.name.value))
      || HasPath(rows, c.path)
    ensures !ValidRows(rows[key := c])
  {
    var all := rows[key := c];
    var i :| i in rows && (|| (c.isDefault && rows[i].isDefault)
                           || (c.name.Some? && rows[i].name == c.name)
                           || rows[i].path == c.path);
    assert i in all && key in all && all[i] == rows[i] && all[key] == c;
    assert !Compatible(all[i], all[key]);
  }

  /**
   The row added, field by field, under the id asked for or else under one that was never given out
   before; all other rows are as they were.
   */
  lemma AddedRow(db: Db, o: AddOptions, path: string, name: Option<string>, id: Option<nat>)
    requires Valid(db) && Add(db, o, path, name, id).Ok?
    ensures
      var db' := Add(db, o, path, name, id).value;
      var key := if id.Some? then id.value else db.lastId + 1;
      && db'.rows.Keys == db.rows.Keys + {key} && key !in db.rows
      && (forall i :: i in db.rows ==> db'.rows[i] == db.rows[i] && i <= db.lastId <= db'.lastId)
      && key <= db'.lastId && (db'.lastId == db.lastId || db'.lastId == key)
      && var c := db'.rows[key];
         && c.name == name && c.path == path && c.packages == [] && c.autoSync == !o.noAutoSync
         && (o.isDefault.Some? ==> c.isDefault == o.isDefault.value)
         && (o.isDefault.None? ==> (c.isDefault <==> forall i :: i !in db.rows))
         && (o.forward.Some? ==> c.forward == o.forward.value)
         && (o.forward.None? ==> (c.forward <==> c.isDefault && forall i :: i in db.rows ==> !db.rows[i].forward))
  {
    AddExact(db, o, path, name, id);
    assert db.rows == map[] <==> forall i :: i !in db.rows;
  }

  /** The first configuration becomes the default unless asked not to; a default brings forwarding along. */
  lemma AddDefaults(db: Db, o: AddOptions, path: string, name: Option<string>, id: Option<nat>)
    requires Valid(db) && Add(db, o, path, name, id).Ok?
    ensures
      var rows := Add(db, o, path, name, id).value.rows;
      && (o.isDefault.None? && db.rows == map[] ==> HasDefault(rows))
      && (o.isDefault.None? && db.rows != map[] ==> (HasDefault(rows) <==> HasDefault(db.rows)))
      && (o.forward.None? && HasDefault(rows) && !HasDefault(db.rows) ==> HasForward(rows))
  {
    var rows := Add(db, o, path, name, id).value.rows;
    var key := NewId(db, id);
    assert key in rows && key !in db.rows;
    assert forall i :: i in db.rows ==> i in rows && rows[i] == db.rows[i];
    if HasForward(db.rows) {
      var i :| i in db.rows && db.rows[i].forward;
      assert rows[i].forward;
    }
    if HasDefault(db.rows) {
      var i :| i in db.rows && db.rows[i].isDefault;
      assert rows[i].isDefault;
    }
  }

  // ---- config move, rename, remove -------------------------------------------------------------

  function Move(db: Db, id: nat, path: string): Result<Db, Error> {
    if id !in db.rows then Err(NoConfiguration)
    else if HasPath(db.rows, path) then Err(PathTaken)
    else Ok(db.(rows := db.rows[id := db.rows[id].(path := path)]))
  }

  function Rename(db: Db, id: nat, name: string): Result<Db, Error> {
    if id !in db.rows then Err(NoConfiguration)
    else if HasName(db.rows, name) then Err(NameTaken)
    else Ok(db.(rows := db.rows[id := db.rows[id].(name := Some(name))]))
  }

  function Remove(db: Db, ids: seq<nat>): Result<Db, Error>
    decreases |ids|
  {
    if ids == [] then Ok(db)
    else if ids[0] !in db.rows then Err(NoConfiguration)
    else if db.rows[ids[0]].packages != [] then Err(HasPackages)
    else Remove(db.(rows := db.rows - {ids[0]}), ids[1..])
  }

  lemma ChangeKeeps(db: Db, id: nat, c: Config)
    requires Valid(db) && id in db.rows
    requires c.packages == db.rows[id].packages
    requires c.isDefault == db.rows[id].isDefault && c.forward == db.rows[id].forward
    requires c.path == db.rows[id].path || !HasPath(db.rows, c.path)
    requires c.name == db.rows[id].name || (c.name.Some? && !HasName(db.rows, c.name.value))
    ensures Valid(db.(rows := db.rows[id := c]))
  {
    forall i | i in db.rows && i != id
      ensures Compatible(db.rows[i], c)
    {
      assert Compatible(db.rows[i], db.rows[id]);
      forall p
        ensures !BothForward(db.rows[i], c, p)
      {
        assert !BothForward(db.rows[i], db.rows[id], p);
      }
    }
    PutRow(db.rows, id, c);
  }

  /** A row put in place of another clashes if its path or its name is taken by a third. */
  lemma ChangeClashes(db: Db, id: nat, c: Config)
    requires Valid(db) && id in db.rows
    requires
      || (c.path != db.rows[id].path && HasPath(db.rows, c.path))
      || (c.name.Some? && c.name != db.rows[id].name && HasName(db.rows, c.name.value))
    ensures !Valid(db.(rows := db.rows[id := c]))
  {
    var all := db.rows[id := c];
    var i :| i in db.rows && i != id && (db.rows[i].path == c.path || (c.name.Some? && db.rows[i].name == c.name));
    assert i in all && id in all && all[i] == db.rows[i] && all[id] == c;
    assert !Compatible(all[i], all[id]);
  }

  /** Moving succeeds if and only if the path is another one and the database with it valid. */
  lemma MoveExact(db: Db, id: nat, path: string)
    requires Valid(db) && id in db.rows
    ensures
      var moved := db.(rows := db.rows[id := db.rows[id].(path := path)]);
      && (Move(db, id, path).Ok? <==> path != db.rows[id].path && Valid(moved))
      && (Move(db, id, path).Ok? ==> Move(db, id, path).value == moved)
  {
    var c := db.rows[id].(path := path);
    if Move(db, id, path).Ok? {
      ChangeKeeps(db, id, c);
    } else if path != db.rows[id].path {
      ChangeClashes(db, id, c);
    }
  }

  /** Renaming succeeds if and only if the name is another one and the database with it valid. */
  lemma RenameExact(db: Db, id: nat, name: string)
    requires Valid(db) && id in db.rows
    ensures
      var renamed := db.(rows := db.rows[id := db.rows[id].(name := Some(name))]);
      && (Rename(db, id, name).Ok? <==> Some(name) != db.rows[id].name && Valid(renamed))
      && (Rename(db, id, name).Ok? ==> Rename(db, id, name).value == renamed)
  {
    var c := db.rows[id].(name := Some(name));
    if Rename(db, id, name).Ok? {
      ChangeKeeps(db, id, c);
    } else if Some(name) != db.rows[id].name {
      ChangeClashes(db, id, c);
    }
  }

  /**
   The new name and the names left to select the configuration by: the argument if there is one, else
   the last of the names given, as long as something else tells which configuration is meant.
   */
  function TakeNewName(argument: Option<string>, names: seq<string>, otherwise: bool)
    : Result<(string, seq<string>), Error>
  {
    match argument
    case Some(name) => if name == "" then Err(EmptyName) else Ok((name, names))
    case None =>
      if |names| > 1 || (|names| == 1 && otherwise) then Ok((names[|names| - 1], names[..|names| - 1]))
      else Err(NameExpected)
  }

  /**
   An empty name given as the argument is rejected, but one given as the last configuration name is
   not: it is taken exactly if there is no argument and something else to select by.
   */
  lemma EmptyNewNameExactly(argument: Option<string>, names: seq<string>, otherwise: bool)
    ensures
      var r := TakeNewName(argument, names, otherwise);
      r.Ok? && r.value.0 == "" <==>
        argument.None? && names != [] && names[|names| - 1] == "" && (|names| > 1 || otherwise)
    ensures
      var r := TakeNewName(argument, names, otherwise);
      r.Err? <==> argument == Some("") || (argument.None? && (names == [] || (|names| == 1 && !otherwise)))
  {
  }

  /** So `config rename @name -n ""` stores an empty name, if it is the first to do so. */
  lemma EmptyNameIsStored(db: Db, id: nat, name: string)
    requires Valid(db) && id in db.rows && db.rows[id].name == Some(name) && !HasName(db.rows, "")
    ensures TakeNewName(None, [name, ""], false) == Ok(("", [name]))
    ensures Rename(db, id, "").Ok? && Rename(db, id, "").value.rows[id].name == Some("")
    ensures Valid(Rename(db, id, "").value)
  {
    RenameExact(db, id, "");
    assert [name, ""][..1] == [name];
    ChangeKeeps(db, id, db.rows[id].(name := Some("")));
  }

  predicate AllEmpty(rows: map<nat, Config>, ids: seq<nat>) {
    forall k :: 0 <= k < |ids| ==> ids[k] in rows && rows[ids[k]].packages == []
  }

  lemma AllEmptyStep(rows: map<nat, Config>, ids: seq<nat>)
    requires ids != [] && NoDuplicates(ids)
    ensures AllEmpty(rows, ids) <==>
              ids[0] in rows && rows[ids[0]].packages == [] && AllEmpty(rows - {ids[0]}, ids[1..])
  {
    assert forall k :: 0 <= k < |ids| - 1 ==> ids[1..][k] == ids[k + 1] && ids[k + 1] != ids[0];
    assert forall k :: 1 <= k < |ids| ==> ids[k] == ids[1..][k - 1];
  }

  function Chosen(ids: seq<nat>): set<nat> {
    set i | i in ids
  }

  /** Removing takes out exactly the named rows, all of them empty, or nothing at all. */
  lemma {:induction false} RemoveExact(db: Db, ids: seq<nat>)
    requires Valid(db) && NoDuplicates(ids)
    ensures Remove(db, ids).Ok? <==> AllEmpty(db.rows, ids)
    ensures Remove(db, ids).Ok? ==>
              Valid(Remove(db, ids).value) && Remove(db, ids).value == db.(rows := db.rows - Chosen(ids))
    decreases |ids|
  {
    if ids == [] {
      assert db.rows - Chosen(ids) == db.rows;
    } else {
      AllEmptyStep(db.rows, ids);
      if ids[0] in db.rows && db.rows[ids[0]].packages == [] {
        var db1 := db.(rows := db.rows - {ids[0]});
        RemoveExact(db1, ids[1..]);
        assert Chosen(ids) == {ids[0]} + Chosen(ids[1..]);
        assert db1.rows - Chosen(ids[1..]) == db.rows - Chosen(ids);
      }
    }
  }

  // ---- config set --------------------------------------------------------------------------------

  datatype Flags = Flags(isDefault: Option<bool>, forward: Option<bool>, autoSync: Option<bool>)

  function Flagged(c: Config, f: Flags): Config {
    c.(isDefault := if f.isDefault.Some? then f.isDefault.value else c.isDefault,
       forward := if f.forward.Some? then f.forward.value else c.forward,
       autoSync := if f.autoSync.Some? then f.autoSync.value else c.autoSync)
  }

  /** Some forwarded row shares a package with this one. */
  predicate SharesForwarded(rows: map<nat, Config>, c: Config) {
    exists i, p :: i in rows && rows[i].forward && p in rows[i].packages && p in c.packages
  }

  /** One configuration, checked against the rows as changed so far. */
  function SetOne(db: Db, id: nat, f: Flags): Result<Db, Error>
    requires id in db.rows
  {
    var c := db.rows[id];
    if f.isDefault == Some(true) && !c.isDefault && HasDefault(db.rows) then Err(AlreadyDefault)
    else if f.forward == Some(true) && !c.forward && SharesForwarded(db.rows, c) then Err(AlsoForwarded)
    else Ok(db.(rows := db.rows[id := Flagged(c, f)]))
  }

  function SetEach(db: Db, ids: seq<nat>, f: Flags): Result<Db, Error>
    requires forall k :: 0 <= k < |ids| ==> ids[k] in db.rows
    decreases |ids|
  {
    if ids == [] then Ok(db)
    else
      match SetOne(db, ids[0], f)
      case Err(e) => Err(e)
      case Ok(db1) => SetEach(db1, ids[1..], f)
  }

  /** The flags applied to all the selected configurations at once, without any check. */
  function SetAll(db: Db, ids: set<nat>, f: Flags): Db {
    db.(rows := map i | i in db.rows :: if i in ids then Flagged(db.rows[i], f) else db.rows[i])
  }

  function SetConfigs(db: Db, ids: seq<nat>, f: Flags): Result<Db, Error> {
    if f == Flags(None, None, None) then Err(NothingSpecified)
    else if exists k :: 0 <= k < |ids| && ids[k] !in db.rows then Err(NoConfiguration)
    else SetEach(db, ids, f)
  }

  lemma SetOneKeeps(db: Db, id: nat, f: Flags)
    requires Valid(db) && id in db.rows && SetOne(db, id, f).Ok?
    ensures Valid(SetOne(db, id, f).value)
  {
    var c := db.rows[id];
    var c' := Flagged(c, f);
    forall i | i in db.rows && i != id
      ensures Compatible(db.rows[i], c')
    {
      assert Compatible(db.rows[i], c);
      forall p
        ensures !BothForward(db.rows[i], c', p)
      {
        assert !BothForward(db.rows[i], c, p);
      }
    }
    PutRow(db.rows, id, c');
  }

  /** A check that fails one at a time fails when all are set at once. */
  lemma SetOneComplete(db: Db, id: nat, ids: set<nat>, f: Flags)
    requires Valid(db) && id in db.rows && id in ids && SetOne(db, id, f).Err?
    ensures !Valid(SetAll(db, ids, f))
  {
    var c, all := db.rows[id], SetAll(db, ids, f);
    if f.isDefault == Some(true) && !c.isDefault && HasDefault(db.rows) {
      var j :| j in db.rows && db.rows[j].isDefault;
      assert all.rows[j].isDefault && all.rows[id].isDefault && j != id;
      assert !Compatible(all.rows[j], all.rows[id]);
    } else {
      var j, p :| j in db.rows && db.rows[j].forward && p in db.rows[j].packages && p in c.packages;
      assert BothForward(all.rows[j], all.rows[id], p) && j != id;
      assert !Compatible(all.rows[j], all.rows[id]);
    }
  }

  lemma SetAllStep(db: Db, id: nat, rest: set<nat>, f: Flags)
    requires id in db.rows
    ensures SetAll(db.(rows := db.rows[id := Flagged(db.rows[id], f)]), rest, f) == SetAll(db, {id} + rest, f)
  {
    var db1 := db.(rows := db.rows[id := Flagged(db.rows[id], f)]);
    assert SetAll(db1, rest, f).rows == SetAll(db, {id} + rest, f).rows;
  }

  /**
   `config set` is exact: checked configuration by configuration it succeeds if and only if setting
   the flags on all selected configurations at once gives a valid database, which is then the result.
   */
  lemma {:induction false} SetExact(db: Db, ids: seq<nat>, f: Flags)
    requires Valid(db) && forall k :: 0 <= k < |ids| ==> ids[k] in db.rows
    ensures SetEach(db, ids, f).Ok? <==> Valid(SetAll(db, Chosen(ids), f))
    ensures SetEach(db, ids, f).Ok? ==> SetEach(db, ids, f).value == SetAll(db, Chosen(ids), f)
    decreases |ids|
  {
    if ids == [] {
      assert SetAll(db, Chosen(ids), f).rows == db.rows;
    } else {
      var id, rest := ids[0], Chosen(ids[1..]);
      assert Chosen(ids) == {id} + rest;
      if SetOne(db, id, f).Err? {
        SetOneComplete(db, id, Chosen(ids), f);
      } else {
        var db1 := SetOne(db, id, f).value;
        SetOneKeeps(db, id, f);
        SetExact(db1, ids[1..], f);
        SetAllStep(db, id, rest, f);
      }
    }
  }

  /** The command needs a flag and rows that exist, and then succeeds as above. */
  lemma SetConfigsExact(db: Db, ids: seq<nat>, f: Flags)
    requires Valid(db)
    ensures
      var given := f.isDefault.Some? || f.forward.Some? || f.autoSync.Some?;
      var known := forall k :: 0 <= k < |ids| ==> ids[k] in db.rows;
      var r := SetConfigs(db, ids, f);
      && (r.Ok? <==> given && known && Valid(SetAll(db, Chosen(ids), f)))
      && (r.Ok? ==> r.value == SetAll(db, Chosen(ids), f))
      && (!given ==> r == Err(NothingSpecified)) && (given && !known ==> r == Err(NoConfiguration))
  {
    if forall k :: 0 <= k < |ids| ==> ids[k] in db.rows {
      SetExact(db, ids, f);
    }
  }

  /**
   What `config set` leaves, field by field: each selected row has the values given and keeps the others,
   its name, its path and its packages, and all other rows are as they were.
   */
  lemma SetFields(db: Db, ids: seq<nat>, f: Flags)
    requires Valid(db) && forall k :: 0 <= k < |ids| ==> ids[k] in db.rows
    requires SetEach(db, ids, f).Ok?
    ensures
      var db' := SetEach(db, ids, f).value;
      && db'.rows.Keys == db.rows.Keys && db'.lastId == db.lastId
      && (forall i :: i in db.rows && i !in ids ==> db'.rows[i] == db.rows[i])
      && (forall i :: i in db.rows && i in ids ==>
            var c, c' := db.rows[i], db'.rows[i];
            && c'.name == c.name && c'.path == c.path && c'.packages == c.packages
            && c'.isDefault == (match f.isDefault case Some(v) => v case None => c.isDefault)
            && c'.forward == (match f.forward case Some(v) => v case None => c.forward)
            && c'.autoSync == (match f.autoSync case Some(v) => v case None => c.autoSync))
  {
    SetExact(db, ids, f);
  }

  /** The order in which the configurations are selected, and selecting one twice, does not matter. */
  lemma SetOrderIndependent(db: Db, a: seq<nat>, b: seq<nat>, f: Flags)
    requires Valid(db) && Chosen(a) == Chosen(b)
    requires forall k :: 0 <= k < |a| ==> a[k] in db.rows
    ensures forall k :: 0 <= k < |b| ==> b[k] in db.rows
    ensures SetEach(db, a, f).Ok? <==> SetEach(db, b, f).Ok?
    ensures SetEach(db, a, f).Ok? ==> SetEach(db, a, f) == SetEach(db, b, f)
  {
    forall k | 0 <= k < |b|
      ensures b[k] in db.rows
    {
      assert b[k] in Chosen(a);
    }
    SetExact(db, a, f);
    SetExact(db, b, f);
  }
}
