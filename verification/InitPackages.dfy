/**
 `init` and `deinit`: one transaction per configuration, working on copies of the rows that were
 loaded before the first transaction began.
 */
module InitPackages {
  import opened Common
  import opened ConfigDb

  /** A row as loaded into memory, separate from the stored one. */
  datatype Held = Held(id: nat, config: Config)

  /** The database, how many configurations were committed, and whether the command went through. */
  datatype Progress = Progress(db: Db, committed: nat, ok: bool)

  /** What the commands run besides: all well, a failure before the commit, or one after it. */
  datatype Luck = Fine | FailsBefore | FailsAfter

  /** The copies are those of distinct rows as they are stored now. */
  ghost predicate Current(db: Db, hs: seq<Held>) {
    && (forall k :: 0 <= k < |hs| ==> hs[k].id in db.rows && db.rows[hs[k].id] == hs[k].config)
    && (forall j, k :: 0 <= j < k < |hs| ==> hs[j].id != hs[k].id)
  }

  function Load(db: Db, ids: seq<nat>): (hs: seq<Held>)
    requires forall k :: 0 <= k < |ids| ==> ids[k] in db.rows
    ensures |hs| == |ids| && forall k :: 0 <= k < |hs| ==> hs[k] == Held(ids[k], db.rows[ids[k]])
  {
    if ids == [] then [] else [Held(ids[0], db.rows[ids[0]])] + Load(db, ids[1..])
  }

  lemma LoadedIsCurrent(db: Db, ids: seq<nat>)
    requires NoDuplicates(ids) && forall k :: 0 <= k < |ids| ==> ids[k] in db.rows
    ensures Current(db, Load(db, ids))
  {
  }

  // ---- init ------------------------------------------------------------------------------------

  /** The packages not there yet, each once, in the order given. */
  function Missing(have: seq<string>, pkgs: seq<string>): seq<string>
    decreases |pkgs|
  {
    if pkgs == [] then []
    else if pkgs[0] in have then Missing(have, pkgs[1..])
    else [pkgs[0]] + Missing(have + [pkgs[0]], pkgs[1..])
  }

  /** Add the packages to the copy, checking each against every stored forwarded row. */
  function AddPackages(rows: map<nat, Config>, c: Config, pkgs: seq<string>): Result<Config, Error>
    decreases |pkgs|
  {
    if pkgs == [] then Ok(c)
    else if pkgs[0] in c.packages then AddPackages(rows, c, pkgs[1..])
    else if c.forward && Forwards(rows, pkgs[0]) then Err(AlsoForwarded)
    else AddPackages(rows, c.(packages := c.packages + [pkgs[0]]), pkgs[1..])
  }

  function InitOne(db: Db, h: Held, pkgs: seq<string>, luck: Luck): Result<Db, Error> {
    match AddPackages(db.rows, h.config, pkgs)
    case Err(e) => Err(e)
    case Ok(c) => if luck.Fine? then Ok(db.(rows := db.rows[h.id := c])) else Err(CommandFailed)
  }

  function InitEach(db: Db, hs: seq<Held>, pkgs: seq<string>, luck: seq<Luck>): Progress
    requires |luck| == |hs|
    decreases |hs|
  {
    if hs == [] then Progress(db, 0, true)
    else
      match InitOne(db, hs[0], pkgs, luck[0])
      case Err(_) => Progress(db, 0, false)
      case Ok(db1) => Further(InitEach(db1, hs[1..], pkgs, luck[1..]))
  }

  function Further(p: Progress): Progress {
    p.(committed := p.committed + 1)
  }

  /** Some other forwarded row holds the package. */
  predicate OtherForwards(rows: map<nat, Config>, id: nat, p: string) {
    exists i :: i in rows && i != id && rows[i].forward && p in rows[i].packages
  }

  /** The copy is the stored row with packages appended, and fits with all other rows. */
  ghost predicate Fits(rows: map<nat, Config>, id: nat, c: Config) {
    && id in rows && c == rows[id].(packages := c.packages) && rows[id].packages <= c.packages
    && NoDuplicates(c.packages)
    && forall i :: i in rows && i != id ==> Compatible(rows[i], c)
  }

  /**
   The check rejects a package exactly when some other forwarded configuration holds it, although
   it never recognizes the configuration's own row: that row holds no more than the copy does.
   */
  lemma ForwardCheckExact(rows: map<nat, Config>, id: nat, c: Config, p: string)
    requires Fits(rows, id, c) && p !in c.packages
    ensures Forwards(rows, p) <==> OtherForwards(rows, id, p)
  {
    assert forall q :: q in rows[id].packages ==> q in c.packages;
  }

  lemma GrownRowFits(rows: map<nat, Config>, id: nat, c: Config, p: string)
    requires Fits(rows, id, c) && p !in c.packages && !(c.forward && Forwards(rows, p))
    ensures Fits(rows, id, c.(packages := c.packages + [p]))
  {
    var c' := c.(packages := c.packages + [p]);
    forall i | i in rows && i != id
      ensures Compatible(rows[i], c')
    {
      assert Compatible(rows[i], c);
      forall q
        ensures !BothForward(rows[i], c', q)
      {
        assert !BothForward(rows[i], c, q);
      }
    }
  }

  /** What adding packages comes to, for every copy that fits and every list of packages. */
  lemma {:induction false} AddPackagesExact(rows: map<nat, Config>, id: nat, c: Config, pkgs: seq<string>)
    requires Fits(rows, id, c)
    ensures AddPackages(rows, c, pkgs).Ok? <==>
              (c.forward ==> forall p :: p in pkgs && p !in c.packages ==> !OtherForwards(rows, id, p))
    ensures AddPackages(rows, c, pkgs).Ok? ==>
              && Fits(rows, id, AddPackages(rows, c, pkgs).value)
              && AddPackages(rows, c, pkgs).value == c.(packages := c.packages + Missing(c.packages, pkgs))
    decreases |pkgs|
  {
    if pkgs == [] {
      assert c.packages + [] == c.packages;
    } else {
      var p, rest := pkgs[0], pkgs[1..];
      assert forall q :: q in pkgs <==> q == p || q in rest;
      if p in c.packages {
        AddPackagesExact(rows, id, c, rest);
      } else {
        ForwardCheckExact(rows, id, c, p);
        if !(c.forward && Forwards(rows, p)) {
          var c' := c.(packages := c.packages + [p]);
          GrownRowFits(rows, id, c, p);
          AddPackagesExact(rows, id, c', rest);
          Associative(c.packages, [p], Missing(c'.packages, rest));
        }
      }
    }
  }

  lemma CurrentFits(db: Db, h: Held)
    requires Valid(db) && Current(db, [h])
    ensures Fits(db.rows, h.id, h.config)
  {
    assert [h][0] == h;
  }

  lemma InitOneKeeps(db: Db, hs: seq<Held>, pkgs: seq<string>, luck: Luck)
    requires Valid(db) && hs != [] && Current(db, hs)
    requires InitOne(db, hs[0], pkgs, luck).Ok?
    ensures
      var h, db1 := hs[0], InitOne(db, hs[0], pkgs, luck).value;
      && Valid(db1) && Current(db1, hs[1..])
      && db1 == db.(rows := db.rows[h.id := h.config.(packages := h.config.packages +
                                                                  Missing(h.config.packages, pkgs))])
  {
    var h := hs[0];
    assert Current(db, [h]);
    CurrentFits(db, h);
    AddPackagesExact(db.rows, h.id, h.config, pkgs);
    PutRow(db.rows, h.id, AddPackages(db.rows, h.config, pkgs).value);
  }

  /**
   One configuration's turn succeeds if and only if nothing run besides fails and the database with
   the missing packages appended to its row is valid.
   */
  lemma InitOneExact(db: Db, h: Held, pkgs: seq<string>, luck: Luck)
    requires Valid(db) && Current(db, [h])
    ensures InitOne(db, h, pkgs, luck).Ok? <==>
              luck.Fine? && Valid(db.(rows := db.rows[h.id := Grow(h.config, pkgs)]))
  {
    var c := h.config;
    CurrentFits(db, h);
    AddPackagesExact(db.rows, h.id, c, pkgs);
    if AddPackages(db.rows, c, pkgs).Ok? {
      PutRow(db.rows, h.id, Grow(c, pkgs));
    } else {
      var p :| p in pkgs && p !in c.packages && OtherForwards(db.rows, h.id, p);
      var i :| i in db.rows && i != h.id && db.rows[i].forward && p in db.rows[i].packages;
      MissingAreAdded(c.packages, pkgs);
      var all := db.rows[h.id := Grow(c, pkgs)];
      assert BothForward(all[i], all[h.id], p);
      assert !Compatible(all[i], all[h.id]);
    }
  }

  /** The rows with the packages initialized in all the given configurations. */
  function Grown(db: Db, hs: seq<Held>, pkgs: seq<string>): Db
    requires forall k :: 0 <= k < |hs| ==> hs[k].id in db.rows
    decreases |hs|
  {
    if hs == [] then db
    else
      var c := hs[0].config;
      Grown(db.(rows := db.rows[hs[0].id := c.(packages := c.packages + Missing(c.packages, pkgs))]), hs[1..], pkgs)
  }

  /**
   However far `init` gets, the database stays valid and is that of the configurations committed,
   as if the command had been given only those.
   */
  lemma {:induction false} InitCommitsPrefix(db: Db, hs: seq<Held>, pkgs: seq<string>, luck: seq<Luck>)
    requires Valid(db) && Current(db, hs) && |luck| == |hs|
    ensures
      var p := InitEach(db, hs, pkgs, luck);
      && p.committed <= |hs| && (p.ok <==> p.committed == |hs|)
      && Valid(p.db) && p.db == Grown(db, hs[..p.committed], pkgs)
      && InitEach(db, hs[..p.committed], pkgs, luck[..p.committed]) == Progress(p.db, p.committed, true)
    decreases |hs|
  {
    if hs != [] && InitOne(db, hs[0], pkgs, luck[0]).Ok? {
      var db1 := InitOne(db, hs[0], pkgs, luck[0]).value;
      InitOneKeeps(db, hs, pkgs, luck[0]);
      InitCommitsPrefix(db1, hs[1..], pkgs, luck[1..]);
      var n := InitEach(db1, hs[1..], pkgs, luck[1..]).committed;
      assert hs[..n + 1][1..] == hs[1..][..n] && hs[..n + 1][0] == hs[0];
      assert luck[..n + 1][1..] == luck[1..][..n] && luck[..n + 1][0] == luck[0];
    }
  }

  /** `init` stops only at a configuration whose turn fails. */
  lemma {:induction false} InitStopsAt(db: Db, hs: seq<Held>, pkgs: seq<string>, luck: seq<Luck>)
    requires |luck| == |hs|
    ensures
      var p := InitEach(db, hs, pkgs, luck);
      !p.ok ==> p.committed < |hs| && InitOne(p.db, hs[p.committed], pkgs, luck[p.committed]).Err?
    decreases |hs|
  {
    if hs != [] && InitOne(db, hs[0], pkgs, luck[0]).Ok? {
      InitStopsAt(InitOne(db, hs[0], pkgs, luck[0]).value, hs[1..], pkgs, luck[1..]);
    }
  }

  // ---- deinit ----------------------------------------------------------------------------------

  function Without(packages: seq<string>, pkgs: seq<string>): seq<string> {
    if packages == [] then []
    else (if packages[0] in pkgs then [] else [packages[0]]) + Without(packages[1..], pkgs)
  }

  /** No packages given means all that the configuration has. */
  function Remaining(packages: seq<string>, pkgs: seq<string>): seq<string> {
    if pkgs == [] then [] else Without(packages, pkgs)
  }

  function DeinitOne(db: Db, h: Held, pkgs: seq<string>): Db {
    db.(rows := db.rows[h.id := h.config.(packages := Remaining(h.config.packages, pkgs))])
  }

  function DeinitEach(db: Db, hs: seq<Held>, pkgs: seq<string>, luck: seq<Luck>): Progress
    requires |luck| == |hs|
    decreases |hs|
  {
    if hs == [] then Progress(db, 0, true)
    else if hs[0].config.packages == [] then Further(DeinitEach(db, hs[1..], pkgs, luck[1..]))
    else if luck[0].FailsBefore? then Progress(db, 0, false)
    else if luck[0].FailsAfter? then Progress(DeinitOne(db, hs[0], pkgs), 1, false)
    else Further(DeinitEach(DeinitOne(db, hs[0], pkgs), hs[1..], pkgs, luck[1..]))
  }

  /** Packages given explicitly must be initialized in every configuration. */
  function Unverified(hs: seq<Held>, pkgs: seq<string>): Option<string> {
    if hs == [] then None
    else
      match FirstMissing(hs[0].config.packages, pkgs)
      case Some(p) => Some(p)
      case None => Unverified(hs[1..], pkgs)
  }

  function FirstMissing(have: seq<string>, pkgs: seq<string>): (r: Option<string>)
    ensures r.None? <==> forall p :: p in pkgs ==> p in have
  {
    if pkgs == [] then None
    else if pkgs[0] !in have then Some(pkgs[0])
    else
      assert forall p :: p in pkgs <==> p == pkgs[0] || p in pkgs[1..];
      FirstMissing(have, pkgs[1..])
  }

  /** The packages given pass verification if and only if every configuration has them all. */
  lemma {:induction false} UnverifiedExactly(hs: seq<Held>, pkgs: seq<string>)
    ensures Unverified(hs, pkgs).None? <==>
              forall k, p :: 0 <= k < |hs| && p in pkgs ==> p in hs[k].config.packages
  {
    if hs != [] {
      UnverifiedExactly(hs[1..], pkgs);
      assert forall k :: 0 <= k < |hs| - 1 ==> hs[1..][k] == hs[k + 1];
      assert forall k :: 1 <= k < |hs| ==> hs[k] == hs[1..][k - 1];
      if Unverified(hs, pkgs).None? {
        forall k, p | 0 <= k < |hs| && p in pkgs
          ensures p in hs[k].config.packages
        {
          assert k > 0 ==> p in hs[1..][k - 1].config.packages;
        }
      } else if Unverified(hs[1..], pkgs).Some? {
        var k, p :| 0 <= k < |hs[1..]| && p in pkgs && p !in hs[1..][k].config.packages;
        assert p !in hs[k + 1].config.packages;
      }
    }
  }

  lemma {:induction false} WithoutIsSubset(packages: seq<string>, pkgs: seq<string>)
    ensures forall p :: p in Without(packages, pkgs) <==> p in packages && p !in pkgs
    ensures NoDuplicates(packages) ==> NoDuplicates(Without(packages, pkgs))
  {
    if packages != [] {
      WithoutIsSubset(packages[1..], pkgs);
      assert forall p :: p in packages <==> p == packages[0] || p in packages[1..];
      if NoDuplicates(packages) {
        assert packages[0] !in packages[1..];
      }
    }
  }

  lemma DeinitOneKeeps(db: Db, hs: seq<Held>, pkgs: seq<string>)
    requires Valid(db) && hs != [] && Current(db, hs)
    ensures Valid(DeinitOne(db, hs[0], pkgs)) && Current(DeinitOne(db, hs[0], pkgs), hs[1..])
  {
    var h := hs[0];
    var c := h.config.(packages := Remaining(h.config.packages, pkgs));
    WithoutIsSubset(h.config.packages, pkgs);
    forall i | i in db.rows && i != h.id
      ensures Compatible(db.rows[i], c)
    {
      assert Compatible(db.rows[i], h.config);
      forall p
        ensures !BothForward(db.rows[i], c, p)
      {
        assert !BothForward(db.rows[i], h.config, p);
      }
    }
    PutRow(db.rows, h.id, c);
  }

  function Fortunate(n: nat): (l: seq<Luck>)
    ensures |l| == n && forall k :: 0 <= k < n ==> l[k] == Fine
  {
    if n == 0 then [] else [Fine] + Fortunate(n - 1)
  }

  /** The rows with the packages taken out of all the given configurations. */
  function Shrunk(db: Db, hs: seq<Held>, pkgs: seq<string>): Db
    requires forall k :: 0 <= k < |hs| ==> hs[k].id in db.rows
    decreases |hs|
  {
    if hs == [] then db
    else if hs[0].config.packages == [] then Shrunk(db, hs[1..], pkgs)
    else Shrunk(DeinitOne(db, hs[0], pkgs), hs[1..], pkgs)
  }

  lemma {:induction false} DeinitFortunate(db: Db, hs: seq<Held>, pkgs: seq<string>)
    requires Valid(db) && Current(db, hs)
    ensures DeinitEach(db, hs, pkgs, Fortunate(|hs|)) == Progress(Shrunk(db, hs, pkgs), |hs|, true)
    decreases |hs|
  {
    if hs != [] {
      DeinitOneKeeps(db, hs, pkgs);
      assert Current(db, hs[1..]);
      assert Fortunate(|hs|)[1..] == Fortunate(|hs| - 1);
      DeinitFortunate(if hs[0].config.packages == [] then db else DeinitOne(db, hs[0], pkgs), hs[1..], pkgs);
    }
  }

  lemma {:induction false} DeinitKeeps(db: Db, hs: seq<Held>, pkgs: seq<string>, luck: seq<Luck>)
    requires Valid(db) && Current(db, hs) && |luck| == |hs|
    ensures
      var p := DeinitEach(db, hs, pkgs, luck);
      Valid(p.db) && p.committed <= |hs| && (p.ok ==> p.committed == |hs|)
    decreases |hs|
  {
    if hs != [] {
      DeinitOneKeeps(db, hs, pkgs);
      assert Current(db, hs[1..]);
      DeinitKeeps(if hs[0].config.packages == [] then db else DeinitOne(db, hs[0], pkgs), hs[1..], pkgs, luck[1..]);
    }
  }

  lemma {:induction false} DeinitShrinks(db: Db, hs: seq<Held>, pkgs: seq<string>, luck: seq<Luck>)
    requires |luck| == |hs| && forall k :: 0 <= k < |hs| ==> hs[k].id in db.rows
    ensures DeinitEach(db, hs, pkgs, luck).committed <= |hs|
    ensures DeinitEach(db, hs, pkgs, luck).db == Shrunk(db, hs[..DeinitEach(db, hs, pkgs, luck).committed], pkgs)
    decreases |hs|
  {
    if hs != [] {
      var db1 := if hs[0].config.packages == [] then db else DeinitOne(db, hs[0], pkgs);
      DeinitShrinks(db1, hs[1..], pkgs, luck[1..]);
      var n := DeinitEach(db1, hs[1..], pkgs, luck[1..]).committed;
      assert hs[..n + 1][0] == hs[0] && hs[..n + 1][1..] == hs[1..][..n];
      assert hs[..1][0] == hs[0] && hs[..1][1..] == [];
    }
  }

  /**
   `deinit` goes through unless a command fails for a configuration that has packages; the first such
   failure ends it, after this configuration's commit or before it.
   */
  lemma {:induction false} DeinitStopsAt(db: Db, hs: seq<Held>, pkgs: seq<string>, luck: seq<Luck>, k: nat)
    requires |luck| == |hs| && k <= |hs|
    requires forall j :: 0 <= j < k ==> hs[j].config.packages == [] || luck[j].Fine?
    requires k < |hs| ==> hs[k].config.packages != [] && !luck[k].Fine?
    ensures
      var p := DeinitEach(db, hs, pkgs, luck);
      p.ok == (k == |hs|) && p.committed == if k < |hs| && luck[k].FailsAfter? then k + 1 else k
    decreases |hs|
  {
    if k > 0 {
      var db1 := if hs[0].config.packages == [] then db else DeinitOne(db, hs[0], pkgs);
      assert hs[0].config.packages == [] || luck[0].Fine?;
      DeinitStopsAt(db1, hs[1..], pkgs, luck[1..], k - 1);
    }
  }

  /** However far `deinit` gets, likewise. */
  lemma DeinitCommitsPrefix(db: Db, hs: seq<Held>, pkgs: seq<string>, luck: seq<Luck>)
    requires Valid(db) && Current(db, hs) && |luck| == |hs|
    ensures
      var p := DeinitEach(db, hs, pkgs, luck);
      && p.committed <= |hs| && (p.ok ==> p.committed == |hs|)
      && Valid(p.db) && p.db == Shrunk(db, hs[..p.committed], pkgs)
      && DeinitEach(db, hs[..p.committed], pkgs, Fortunate(p.committed)) == Progress(p.db, p.committed, true)
  {
    DeinitKeeps(db, hs, pkgs, luck);
    DeinitShrinks(db, hs, pkgs, luck);
    DeinitFortunate(db, hs[..DeinitEach(db, hs, pkgs, luck).committed], pkgs);
  }

  // ---- init again, and init undone ----------------------------------------------------------------

  function Grow(c: Config, pkgs: seq<string>): Config {
    c.(packages := c.packages + Missing(c.packages, pkgs))
  }

  function Shrink(c: Config, pkgs: seq<string>): Config {
    c.(packages := Remaining(c.packages, pkgs))
  }

  ghost predicate NotAmong(i: nat, hs: seq<Held>) {
    forall k :: 0 <= k < |hs| ==> hs[k].id != i
  }

  lemma {:induction false} GrownAt(db: Db, hs: seq<Held>, pkgs: seq<string>)
    requires Current(db, hs)
    ensures
      var db' := Grown(db, hs, pkgs);
      && db'.lastId == db.lastId && db'.rows.Keys == db.rows.Keys
      && (forall k :: 0 <= k < |hs| ==> db'.rows[hs[k].id] == Grow(hs[k].config, pkgs))
      && (forall i :: i in db.rows && NotAmong(i, hs) ==> db'.rows[i] == db.rows[i])
    decreases |hs|
  {
    if hs != [] {
      var db1 := db.(rows := db.rows[hs[0].id := Grow(hs[0].config, pkgs)]);
      assert Current(db1, hs[1..]);
      GrownAt(db1, hs[1..], pkgs);
      var db' := Grown(db, hs, pkgs);
      assert NotAmong(hs[0].id, hs[1..]);
      forall k | 0 <= k < |hs|
        ensures db'.rows[hs[k].id] == Grow(hs[k].config, pkgs)
      {
        if k > 0 {
          assert hs[k] == hs[1..][k - 1];
        }
      }
      forall i | i in db.rows && NotAmong(i, hs)
        ensures db'.rows[i] == db.rows[i]
      {
        assert hs[0].id != i && NotAmong(i, hs[1..]);
      }
    }
  }

  lemma {:induction false} ShrunkAt(db: Db, hs: seq<Held>, pkgs: seq<string>)
    requires Current(db, hs)
    ensures
      var db' := Shrunk(db, hs, pkgs);
      && db'.lastId == db.lastId && db'.rows.Keys == db.rows.Keys
      && (forall k :: 0 <= k < |hs| ==> db'.rows[hs[k].id] == Shrink(hs[k].config, pkgs))
      && (forall i :: i in db.rows && NotAmong(i, hs) ==> db'.rows[i] == db.rows[i])
    decreases |hs|
  {
    if hs != [] {
      var db1 := if hs[0].config.packages == [] then db else DeinitOne(db, hs[0], pkgs);
      assert Current(db1, hs[1..]);
      ShrunkAt(db1, hs[1..], pkgs);
      var db' := Shrunk(db, hs, pkgs);
      assert NotAmong(hs[0].id, hs[1..]);
      assert db1.rows[hs[0].id] == Shrink(hs[0].config, pkgs);
      forall k | 0 <= k < |hs|
        ensures db'.rows[hs[k].id] == Shrink(hs[k].config, pkgs)
      {
        if k > 0 {
          assert hs[k] == hs[1..][k - 1];
        }
      }
      forall i | i in db.rows && NotAmong(i, hs)
        ensures db'.rows[i] == db.rows[i]
      {
        assert hs[0].id != i && NotAmong(i, hs[1..]);
      }
    }
  }

  lemma {:induction false} MissingAreAdded(have: seq<string>, pkgs: seq<string>)
    ensures forall p :: p in Missing(have, pkgs) ==> p in pkgs && p !in have
    ensures forall p :: p in pkgs ==> p in have + Missing(have, pkgs)
    decreases |pkgs|
  {
    if pkgs != [] {
      assert forall p :: p in pkgs <==> p == pkgs[0] || p in pkgs[1..];
      if pkgs[0] in have {
        MissingAreAdded(have, pkgs[1..]);
      } else {
        MissingAreAdded(have + [pkgs[0]], pkgs[1..]);
        Associative(have, [pkgs[0]], Missing(have + [pkgs[0]], pkgs[1..]));
      }
    }
  }

  lemma {:induction false} NothingMissing(have: seq<string>, pkgs: seq<string>)
    requires forall p :: p in pkgs ==> p in have
    ensures Missing(have, pkgs) == []
    decreases |pkgs|
  {
    if pkgs != [] {
      NothingMissing(have, pkgs[1..]);
    }
  }

  lemma {:induction false} WithoutAppend(a: seq<string>, b: seq<string>, pkgs: seq<string>)
    ensures Without(a + b, pkgs) == Without(a, pkgs) + Without(b, pkgs)
  {
    if a == [] {
      assert a + b == b;
    } else {
      assert (a + b)[1..] == a[1..] + b;
      WithoutAppend(a[1..], b, pkgs);
      Associative(if a[0] in pkgs then [] else [a[0]], Without(a[1..], pkgs), Without(b, pkgs));
    }
  }

  lemma {:induction false} WithoutAll(a: seq<string>, pkgs: seq<string>)
    ensures (forall p :: p in a ==> p in pkgs) ==> Without(a, pkgs) == []
    ensures (forall p :: p in a ==> p !in pkgs) ==> Without(a, pkgs) == a
  {
    if a != [] {
      WithoutAll(a[1..], pkgs);
    }
  }

  /** None of the packages is there. */
  ghost predicate Absent(pkgs: seq<string>, packages: seq<string>) {
    forall p :: p in pkgs ==> p !in packages
  }

  /** Growing and shrinking by the same packages, none of them there before, changes nothing. */
  lemma GrowThenShrink(c: Config, pkgs: seq<string>)
    requires pkgs != [] && Absent(pkgs, c.packages)
    ensures Shrink(Grow(c, pkgs), pkgs) == c
  {
    var m := Missing(c.packages, pkgs);
    MissingAreAdded(c.packages, pkgs);
    WithoutAppend(c.packages, m, pkgs);
    WithoutAll(m, pkgs);
    WithoutAll(c.packages, pkgs);
    assert c.packages + [] == c.packages;
  }

  lemma {:induction false} InitNothingToDo(db: Db, hs: seq<Held>, pkgs: seq<string>)
    requires Valid(db) && Current(db, hs)
    requires forall k, p :: 0 <= k < |hs| && p in pkgs ==> p in hs[k].config.packages
    ensures InitEach(db, hs, pkgs, Fortunate(|hs|)) == Progress(db, |hs|, true)
    decreases |hs|
  {
    if hs != [] {
      var h := hs[0];
      assert Current(db, [h]);
      CurrentFits(db, h);
      assert forall p :: p in pkgs ==> p in h.config.packages;
      AddPackagesExact(db.rows, h.id, h.config, pkgs);
      NothingMissing(h.config.packages, pkgs);
      assert h.config.packages + [] == h.config.packages;
      assert db.rows[h.id := h.config] == db.rows;
      assert Current(db, hs[1..]);
      assert forall k :: 0 <= k < |hs| - 1 ==> hs[1..][k] == hs[k + 1];
      InitNothingToDo(db, hs[1..], pkgs);
      assert Fortunate(|hs|)[1..] == Fortunate(|hs| - 1);
    }
  }

  /** Once `init` has gone through, each configuration has grown by the packages and no other changed. */
  lemma InitResult(db: Db, ids: seq<nat>, pkgs: seq<string>, luck: seq<Luck>)
    requires Valid(db) && NoDuplicates(ids) && |luck| == |ids|
    requires forall k :: 0 <= k < |ids| ==> ids[k] in db.rows
    requires InitEach(db, Load(db, ids), pkgs, luck).ok
    ensures
      var db' := InitEach(db, Load(db, ids), pkgs, luck).db;
      && Valid(db') && db'.lastId == db.lastId && db'.rows.Keys == db.rows.Keys
      && (forall k :: 0 <= k < |ids| ==> db'.rows[ids[k]] == Grow(db.rows[ids[k]], pkgs))
      && (forall k, p :: 0 <= k < |ids| && p in pkgs ==> p in db'.rows[ids[k]].packages)
      && (forall k :: 0 <= k < |ids| ==>
            && db.rows[ids[k]].packages <= db'.rows[ids[k]].packages
            && db'.rows[ids[k]] == db.rows[ids[k]].(packages := db'.rows[ids[k]].packages)
            && forall p :: p in db'.rows[ids[k]].packages ==> p in db.rows[ids[k]].packages || p in pkgs)
      && (forall i :: i in db.rows && i !in ids ==> db'.rows[i] == db.rows[i])
  {
    var hs := Load(db, ids);
    InitCommitsPrefix(db, hs, pkgs, luck);
    assert hs[..|hs|] == hs;
    GrownAt(db, hs, pkgs);
    var db' := InitEach(db, hs, pkgs, luck).db;
    forall k | 0 <= k < |ids|
      ensures db'.rows[ids[k]] == Grow(db.rows[ids[k]], pkgs)
      ensures forall p :: p in pkgs ==> p in db'.rows[ids[k]].packages
      ensures forall p :: p in db'.rows[ids[k]].packages ==> p in db.rows[ids[k]].packages || p in pkgs
    {
      assert hs[k] == Held(ids[k], db.rows[ids[k]]);
      MissingAreAdded(hs[k].config.packages, pkgs);
    }
    forall i | i in db.rows && i !in ids
      ensures db'.rows[i] == db.rows[i]
    {
      assert NotAmong(i, hs);
    }
  }

  /** `init` is idempotent: once it has gone through, it goes through again and changes nothing. */
  lemma InitIdempotent(db: Db, ids: seq<nat>, pkgs: seq<string>, luck: seq<Luck>)
    requires Valid(db) && NoDuplicates(ids) && |luck| == |ids|
    requires forall k :: 0 <= k < |ids| ==> ids[k] in db.rows
    requires InitEach(db, Load(db, ids), pkgs, luck).ok
    ensures
      var db' := InitEach(db, Load(db, ids), pkgs, luck).db;
      && (forall k :: 0 <= k < |ids| ==> ids[k] in db'.rows)
      && InitEach(db', Load(db', ids), pkgs, Fortunate(|ids|)) == Progress(db', |ids|, true)
  {
    hide *;
    InitResult(db, ids, pkgs, luck);
    var db' := InitEach(db, Load(db, ids), pkgs, luck).db;
    LoadedIsCurrent(db', ids);
    InitNothingToDo(db', Load(db', ids), pkgs);
  }

  lemma {:induction false} AllVerified(hs: seq<Held>, pkgs: seq<string>)
    requires forall k, p :: 0 <= k < |hs| && p in pkgs ==> p in hs[k].config.packages
    ensures Unverified(hs, pkgs) == None
  {
    if hs != [] {
      assert forall p :: p in pkgs ==> p in hs[0].config.packages;
      assert forall k :: 0 <= k < |hs| - 1 ==> hs[1..][k] == hs[k + 1];
      AllVerified(hs[1..], pkgs);
    }
  }

  /**
   `init` followed by `deinit` of the same packages, none of which was there before, passes its
   verification and restores every package list exactly, in order, and with it the database.
   */
  lemma InitThenDeinit(db: Db, ids: seq<nat>, pkgs: seq<string>, luck: seq<Luck>)
    requires Valid(db) && NoDuplicates(ids) && |luck| == |ids| && pkgs != []
    requires forall k :: 0 <= k < |ids| ==> ids[k] in db.rows
    requires forall k :: 0 <= k < |ids| ==> Absent(pkgs, db.rows[ids[k]].packages)
    requires InitEach(db, Load(db, ids), pkgs, luck).ok
    ensures
      var db' := InitEach(db, Load(db, ids), pkgs, luck).db;
      && (forall k :: 0 <= k < |ids| ==> ids[k] in db'.rows)
      && Unverified(Load(db', ids), pkgs) == None
      && DeinitEach(db', Load(db', ids), pkgs, Fortunate(|ids|)) == Progress(db, |ids|, true)
  {
    hide *;
    InitResult(db, ids, pkgs, luck);
    var db' := InitEach(db, Load(db, ids), pkgs, luck).db;
    var hs' := Load(db', ids);
    LoadedIsCurrent(db', ids);
    AllVerified(hs', pkgs);
    DeinitFortunate(db', hs', pkgs);
    ShrunkRestores(db, db', ids, pkgs);
  }

  lemma ShrunkRestores(db: Db, db': Db, ids: seq<nat>, pkgs: seq<string>)
    requires Valid(db') && NoDuplicates(ids) && pkgs != []
    requires db'.lastId == db.lastId && db'.rows.Keys == db.rows.Keys
    requires forall k :: 0 <= k < |ids| ==> ids[k] in db.rows && db'.rows[ids[k]] == Grow(db.rows[ids[k]], pkgs)
    requires forall i :: i in db.rows && i !in ids ==> db'.rows[i] == db.rows[i]
    requires forall k :: 0 <= k < |ids| ==> Absent(pkgs, db.rows[ids[k]].packages)
    ensures Shrunk(db', Load(db', ids), pkgs) == db
  {
    hide *;
    ShrunkById(db', ids, pkgs);
    var back := Shrunk(db', Load(db', ids), pkgs);
    forall i | i in db.rows
      ensures back.rows[i] == db.rows[i]
    {
      if i in ids {
        var k :| 0 <= k < |ids| && ids[k] == i;
        GrowThenShrink(db.rows[ids[k]], pkgs);
      }
    }
    assert back.rows == db.rows;
  }

  lemma ShrunkById(db: Db, ids: seq<nat>, pkgs: seq<string>)
    requires NoDuplicates(ids) && forall k :: 0 <= k < |ids| ==> ids[k] in db.rows
    ensures
      var back := Shrunk(db, Load(db, ids), pkgs);
      && back.lastId == db.lastId && back.rows.Keys == db.rows.Keys
      && forall i :: i in db.rows ==> back.rows[i] == if i in ids then Shrink(db.rows[i], pkgs) else db.rows[i]
  {
    var hs := Load(db, ids);
    assert Current(db, hs);
    ShrunkAt(db, hs, pkgs);
    forall i | i in db.rows
      ensures Shrunk(db, hs, pkgs).rows[i] == if i in ids then Shrink(db.rows[i], pkgs) else db.rows[i]
    {
      if i in ids {
        var k :| 0 <= k < |ids| && ids[k] == i;
        assert hs[k] == Held(i, db.rows[i]);
      } else {
        assert NotAmong(i, hs);
      }
    }
  }

  /**
   What a completed `deinit` leaves: without packages every selected configuration ends up empty, with
   packages it loses exactly those; all other rows are as they were.
   */
  lemma DeinitResult(db: Db, ids: seq<nat>, pkgs: seq<string>, luck: seq<Luck>)
    requires Valid(db) && NoDuplicates(ids) && |luck| == |ids|
    requires forall k :: 0 <= k < |ids| ==> ids[k] in db.rows
    requires DeinitEach(db, Load(db, ids), pkgs, luck).ok
    ensures
      var db' := DeinitEach(db, Load(db, ids), pkgs, luck).db;
      && db'.lastId == db.lastId && db'.rows.Keys == db.rows.Keys
      && (forall i :: i in db.rows && i !in ids ==> db'.rows[i] == db.rows[i])
      && (forall i :: i in db.rows && i in ids ==>
            var c, c' := db.rows[i], db'.rows[i];
            && c' == c.(packages := c'.packages)
            && (pkgs == [] ==> c'.packages == [])
            && (pkgs != [] ==> forall p :: p in c'.packages <==> p in c.packages && p !in pkgs))
  {
    hide *;
    var hs := Load(db, ids);
    LoadedIsCurrent(db, ids);
    DeinitCommitsPrefix(db, hs, pkgs, luck);
    assert hs[..|hs|] == hs;
    ShrunkById(db, ids, pkgs);
    forall i | i in db.rows && i in ids
      ensures
        var c, c' := db.rows[i], Shrink(db.rows[i], pkgs);
        && c' == c.(packages := c'.packages)
        && (pkgs == [] ==> c'.packages == [])
        && (pkgs != [] ==> forall p :: p in c'.packages <==> p in c.packages && p !in pkgs)
    {
      Shrinks(db.rows[i], pkgs);
    }
  }

  lemma Shrinks(c: Config, pkgs: seq<string>)
    ensures
      var c' := Shrink(c, pkgs);
      && c' == c.(packages := c'.packages)
      && (pkgs == [] ==> c'.packages == [])
      && (pkgs != [] ==> forall p :: p in c'.packages <==> p in c.packages && p !in pkgs)
  {
    WithoutIsSubset(c.packages, pkgs);
  }
}
