/**
 Finding the project and the package a directory belongs to by walking up. A directory is the
 sequence of its components from the root, so its parents are its prefixes.
 */
module ProjectDiscovery {
  import opened Common

  type Dir = seq<string>

  /** Which directories hold which of the files that matter. */
  datatype Files = Files(
    manifest: set<Dir>,
    database: set<Dir>,
    packages: set<Dir>,
    repositories: set<Dir>,
    configurations: set<Dir>)

  /** The project directory and, relative to it, the package directory, if any. */
  datatype Found = Found(project: Dir, package: Option<Dir>)

  datatype Failure = MultipleManifests(first: Dir, second: Dir) | NotFound

  predicate IsRoot(fs: Files, d: Dir) {
    || d in fs.database
    || d in fs.packages
    || (d in fs.manifest && (d in fs.repositories || d in fs.configurations))
  }

  // ---- What is to be found ---------------------------------------------------------------------

  /** The files of a project root: the database, packages.manifest, or a manifest with one of two others. */
  ghost predicate HasRootFiles(fs: Files, d: Dir) {
    d in fs.database + fs.packages + fs.manifest * (fs.repositories + fs.configurations)
  }

  /** The nearest enclosing project root is `start[..k]`. */
  ghost predicate NearestRoot(fs: Files, start: Dir, k: nat) {
    && k <= |start| && HasRootFiles(fs, start[..k])
    && forall j :: k < j <= |start| ==> !HasRootFiles(fs, start[..j])
  }

  ghost predicate NoRoot(fs: Files, start: Dir) {
    forall j :: 0 <= j <= |start| ==> !HasRootFiles(fs, start[..j])
  }

  /** How far up the search looks: to the nearest root, or to the top. */
  ghost predicate Bound(fs: Files, start: Dir, k: nat) {
    NearestRoot(fs, start, k) || (k == 0 && NoRoot(fs, start))
  }

  /** Only `start[..m]` holds a manifest between the bound and the start. */
  ghost predicate OnlyManifest(fs: Files, start: Dir, k: nat, m: nat) {
    k <= m <= |start| && start[..m] in fs.manifest
    && forall j :: k <= j <= |start| && j != m ==> start[..j] !in fs.manifest
  }

  ghost predicate NoManifest(fs: Files, start: Dir, k: nat) {
    forall j :: k <= j <= |start| ==> start[..j] !in fs.manifest
  }

  ghost predicate TwoManifests(fs: Files, start: Dir, k: nat) {
    exists i, j :: k <= i < j <= |start| && start[..i] in fs.manifest && start[..j] in fs.manifest
  }

  /** The answer, said without walking: what the files between the bound and the start make it. */
  ghost predicate Answer(fs: Files, start: Dir, k: nat, r: Result<Found, Failure>)
    requires Bound(fs, start, k)
  {
    match r
    case Err(MultipleManifests(first, second)) =>
      exists i: nat, j: nat ::
        && k <= i < j <= |start| && first == start[..j] && second == start[..i]
        && first in fs.manifest && second in fs.manifest
    case Err(NotFound) => NoRoot(fs, start) && NoManifest(fs, start, 0)
    case Ok(Found(project, package)) =>
      if NearestRoot(fs, start, k) then
        && project == start[..k]
        && match package
           case None => NoManifest(fs, start, k)
           case Some(p) => exists m: nat :: OnlyManifest(fs, start, k, m) && p == start[k..m]
      else
        package == Some([]) && exists m: nat :: OnlyManifest(fs, start, 0, m) && project == start[..m]
  }

  // ---- The search ------------------------------------------------------------------------------

  /** Walk up from `start[..n]` with the package found so far. */
  function Walk(fs: Files, start: Dir, n: nat, pkg: Option<Dir>): Result<Found, Failure>
    requires n <= |start|
    decreases n
  {
    var d := start[..n];
    if d in fs.manifest && pkg.Some? then Err(MultipleManifests(pkg.value, d))
    else
      var pkg' := if d in fs.manifest then Some(d) else pkg;
      if IsRoot(fs, d) then
        Ok(Found(d, if pkg'.None? then None else Some(if n <= |pkg'.value| then pkg'.value[n..] else [])))
      else if n > 0 then Walk(fs, start, n - 1, pkg')
      else if pkg'.None? then Err(NotFound)
      else Ok(Found(pkg'.value, Some([])))
  }

  function Find(fs: Files, start: Dir): Result<Found, Failure> {
    Walk(fs, start, |start|, None)
  }

  /** What has been seen below `start[..n]`: no root, and the manifests that `pkg` stands for. */
  ghost predicate Seen(fs: Files, start: Dir, n: nat, pkg: Option<Dir>) {
    && n <= |start|
    && (forall j :: n < j <= |start| ==> !IsRoot(fs, start[..j]))
    && match pkg
       case None => forall j :: n < j <= |start| ==> start[..j] !in fs.manifest
       case Some(d) =>
         exists m :: n < m <= |start| && d == start[..m] && d in fs.manifest
           && forall j :: n < j <= |start| && j != m ==> start[..j] !in fs.manifest
  }

  lemma SeenMore(fs: Files, start: Dir, n: nat, pkg: Option<Dir>)
    requires Seen(fs, start, n, pkg) && n > 0
    requires !IsRoot(fs, start[..n]) && !(start[..n] in fs.manifest && pkg.Some?)
    ensures Seen(fs, start, n - 1, if start[..n] in fs.manifest then Some(start[..n]) else pkg)
  {
  }

  lemma {:induction false} WalkAnswers(fs: Files, start: Dir, n: nat, pkg: Option<Dir>, k: nat)
    requires Seen(fs, start, n, pkg) && Bound(fs, start, k) && k <= n
    ensures Answer(fs, start, k, Walk(fs, start, n, pkg))
    decreases n
  {
    var d := start[..n];
    if d in fs.manifest && pkg.Some? {
      var m :| n < m <= |start| && pkg.value == start[..m] && pkg.value in fs.manifest;
      assert k <= n < m <= |start| && pkg.value == start[..m] && d == start[..n];
    } else {
      var pkg' := if d in fs.manifest then Some(d) else pkg;
      if IsRoot(fs, d) {
        assert n == k && NearestRoot(fs, start, k);
        if pkg'.Some? {
          RootWithPackage(fs, start, k, pkg);
        }
      } else if n > 0 {
        SeenMore(fs, start, n, pkg);
        WalkAnswers(fs, start, n - 1, pkg', k);
      } else {
        assert NoRoot(fs, start);
        if pkg'.Some? {
          TopWithPackage(fs, start, pkg);
        }
      }
    }
  }

  lemma RootWithPackage(fs: Files, start: Dir, k: nat, pkg: Option<Dir>)
    requires Seen(fs, start, k, pkg) && !(start[..k] in fs.manifest && pkg.Some?)
    requires start[..k] in fs.manifest || pkg.Some?
    ensures
      var p := if start[..k] in fs.manifest then start[..k] else pkg.value;
      k <= |p| && exists m: nat :: OnlyManifest(fs, start, k, m) && p[k..] == start[k..m]
  {
    if start[..k] in fs.manifest {
      assert OnlyManifest(fs, start, k, k) && start[..k][k..] == start[k..k];
    } else {
      var m :| k < m <= |start| && pkg.value == start[..m] && pkg.value in fs.manifest
               && forall j :: k < j <= |start| && j != m ==> start[..j] !in fs.manifest;
      assert OnlyManifest(fs, start, k, m) && start[..m][k..] == start[k..m];
    }
  }

  lemma TopWithPackage(fs: Files, start: Dir, pkg: Option<Dir>)
    requires Seen(fs, start, 0, pkg) && !(start[..0] in fs.manifest && pkg.Some?)
    requires start[..0] in fs.manifest || pkg.Some?
    ensures
      var p := if start[..0] in fs.manifest then start[..0] else pkg.value;
      exists m: nat :: OnlyManifest(fs, start, 0, m) && p == start[..m]
  {
    if start[..0] in fs.manifest {
      assert OnlyManifest(fs, start, 0, 0);
    } else {
      var m :| 0 < m <= |start| && pkg.value == start[..m] && pkg.value in fs.manifest
               && forall j :: 0 < j <= |start| && j != m ==> start[..j] !in fs.manifest;
      assert OnlyManifest(fs, start, 0, m);
    }
  }

  /** There is one bound, and only one. */
  lemma {:induction false} FindBound(fs: Files, start: Dir, n: nat) returns (k: nat)
    requires n <= |start| && forall j :: n < j <= |start| ==> !IsRoot(fs, start[..j])
    ensures Bound(fs, start, k) && k <= n
    ensures forall k': nat :: Bound(fs, start, k') ==> k' == k
    decreases n
  {
    if IsRoot(fs, start[..n]) {
      k := n;
    } else if n == 0 {
      k := 0;
    } else {
      k := FindBound(fs, start, n - 1);
    }
  }

  /** The search gives the answer: the nearest project root and the only package on the way to it. */
  lemma FindAnswers(fs: Files, start: Dir, k: nat)
    requires Bound(fs, start, k)
    ensures Answer(fs, start, k, Find(fs, start))
  {
    var k' := FindBound(fs, start, |start|);
    WalkAnswers(fs, start, |start|, None, k);
  }

  /** It fails on several manifests exactly when two lie in that range. */
  lemma FailsOnTwoManifests(fs: Files, start: Dir, k: nat)
    requires Bound(fs, start, k)
    ensures Find(fs, start).Err? && Find(fs, start).error.MultipleManifests? <==> TwoManifests(fs, start, k)
  {
    FindAnswers(fs, start, k);
    if TwoManifests(fs, start, k) {
      var i, j :| k <= i < j <= |start| && start[..i] in fs.manifest && start[..j] in fs.manifest;
      assert !NoManifest(fs, start, k);
      assert forall m: nat :: OnlyManifest(fs, start, k, m) ==> i == m && j == m;
    }
  }

  // ---- The same answer from anywhere in between --------------------------------------------------

  lemma {:induction false} WalkPrefix(fs: Files, start: Dir, m: nat, n: nat, pkg: Option<Dir>)
    requires n <= m <= |start|
    ensures Walk(fs, start[..m], n, pkg) == Walk(fs, start, n, pkg)
    decreases n
  {
    assert start[..m][..n] == start[..n];
    if n > 0 {
      WalkPrefix(fs, start, m, n - 1, pkg);
      WalkPrefix(fs, start, m, n - 1, Some(start[..n]));
    }
  }

  lemma {:induction false} WalkPastNothing(fs: Files, start: Dir, n: nat, m: nat)
    requires m <= n <= |start|
    requires forall j :: m < j <= n ==> !IsRoot(fs, start[..j]) && start[..j] !in fs.manifest
    ensures Walk(fs, start, n, None) == Walk(fs, start, m, None)
    decreases n
  {
    if m < n {
      WalkPastNothing(fs, start, n - 1, m);
    }
  }

  /** The package directory, or the project directory if there is no package. */
  function Base(f: Found): Dir {
    f.project + if f.package.Some? then f.package.value else []
  }

  lemma NothingAboveBase(fs: Files, start: Dir, k: nat, f: Found)
    requires Bound(fs, start, k) && Find(fs, start) == Ok(f)
    ensures Base(f) <= start
    ensures forall j :: |Base(f)| < j <= |start| ==> !IsRoot(fs, start[..j]) && start[..j] !in fs.manifest
  {
    FindAnswers(fs, start, k);
    if NearestRoot(fs, start, k) {
      if f.package.Some? {
        var m: nat :| OnlyManifest(fs, start, k, m) && f.package.value == start[k..m];
        assert start[..k] + start[k..m] == start[..m];
      } else {
        assert Base(f) == start[..k];
      }
    } else {
      var m: nat :| OnlyManifest(fs, start, 0, m) && f.project == start[..m];
      assert Base(f) == start[..m];
    }
  }

  /** From every directory between what was found and the start, the same is found. */
  lemma FindStable(fs: Files, start: Dir, f: Found, m: nat)
    requires Find(fs, start) == Ok(f) && |Base(f)| <= m <= |start|
    ensures Base(f) <= start && Find(fs, start[..m]) == Ok(f)
  {
    var k := FindBound(fs, start, |start|);
    NothingAboveBase(fs, start, k, f);
    WalkPastNothing(fs, start, |start|, m);
    WalkPrefix(fs, start, m, m, None);
  }

  /** The loop. */
  method FindProjectPackage(fs: Files, start: Dir) returns (r: Result<Found, Failure>)
    ensures r == Find(fs, start)
  {
    var pkg: Option<Dir> := None;
    var n: nat := |start|;
    while true
      invariant n <= |start| && Walk(fs, start, n, pkg) == Find(fs, start)
      decreases n
    {
      var d := start[..n];
      var p := d in fs.manifest;
      if p {
        if pkg.Some? {
          return Err(MultipleManifests(pkg.value, d));
        }
        pkg := Some(d);
      }
      if d in fs.database || d in fs.packages || (p && (d in fs.repositories || d in fs.configurations)) {
        if pkg.None? {
          return Ok(Found(d, None));
        }
        return Ok(Found(d, Some(if |d| <= |pkg.value| then pkg.value[|d|..] else [])));
      }
      if n == 0 {
        break;
      }
      n := n - 1;
    }
    if pkg.None? {
      return Err(NotFound);
    }
    r := Ok(Found(pkg.value, Some([])));
  }
}
