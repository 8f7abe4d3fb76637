/** The checks across inventory entries, and how every loaded model file is accounted for
    (`cross_check` and `load_uncovered` in rust/src/inventory.rs, `consumer_coverage` in
    rust/src/verification.rs, `lock_path_for` in rust/src/downloads.rs). */
module Inventory {
  import opened Common
  import opened Fields

  type Path = string

  datatype File = File(repoPath: string, destination: Path)
  datatype Artifact = Artifact(key: string, files: seq<File>)
  datatype Source = Source(id: string, lock: Path, artifacts: seq<Artifact>)
  datatype Uncovered = Uncovered(path: Path, kind: string, reason: string)

  // --- flat views ------------------------------------------------------------------

  function Artifacts(sources: seq<Source>): seq<Artifact> {
    if sources == [] then [] else Artifacts(sources[..|sources| - 1]) + sources[|sources| - 1].artifacts
  }

  function Keys(artifacts: seq<Artifact>): seq<string> {
    seq(|artifacts|, k requires 0 <= k < |artifacts| => artifacts[k].key)
  }

  function Destinations(artifacts: seq<Artifact>): seq<Path> {
    if artifacts == [] then []
    else Destinations(artifacts[..|artifacts| - 1]) + Targets(artifacts[|artifacts| - 1].files)
  }

  function Targets(files: seq<File>): seq<Path> {
    seq(|files|, k requires 0 <= k < |files| => files[k].destination)
  }

  /** What the inventory must be: artifact keys unique across sources, one owner for each
      destination. */
  ghost predicate Consistent(sources: seq<Source>) {
    Distinct(Keys(Artifacts(sources))) && Distinct(Destinations(Artifacts(sources)))
  }

  lemma DistinctPrefixOf<T>(s: seq<T>, t: seq<T>)
    requires Distinct(s + t)
    ensures Distinct(s)
  {
    forall i, j | 0 <= i < j < |s| ensures s[i] != s[j] {
      assert (s + t)[i] != (s + t)[j];
    }
  }

  // --- cross_check -------------------------------------------------------------------

  /** The state of the scan: keys and destinations seen so far. */
  class Scan {
    var keys: map<string, string>
    var owners: map<Path, string>
    ghost var seenKeys: seq<string>
    ghost var seenPaths: seq<Path>

    ghost predicate Valid()
      reads this
    {
      && Distinct(seenKeys) && Distinct(seenPaths)
      && (forall k :: k in keys <==> k in seenKeys)
      && (forall p :: p in owners <==> p in seenPaths)
    }

    constructor ()
      ensures Valid() && seenKeys == [] && seenPaths == [] && owners == map[]
    {
      keys, owners, seenKeys, seenPaths := map[], map[], [], [];
    }

    /** `keys.insert`: false when another artifact already has the key. */
    method AddKey(key: string, id: string) returns (ok: bool)
      requires Valid()
      modifies this
      ensures ok <==> Distinct(old(seenKeys) + [key])
      ensures ok ==> Valid() && seenKeys == old(seenKeys) + [key]
      ensures seenPaths == old(seenPaths) && owners == old(owners)
    {
      DistinctSnoc(seenKeys, key);
      ok := key !in keys;
      keys := keys[key := id];
      seenKeys := seenKeys + [key];
    }

    /** `owners.insert`: false when another file already has the destination. */
    method AddDestination(path: Path, owner: string) returns (ok: bool)
      requires Valid()
      modifies this
      ensures ok <==> Distinct(old(seenPaths) + [path])
      ensures ok ==> Valid() && seenPaths == old(seenPaths) + [path] && owners == old(owners)[path := owner]
      ensures seenKeys == old(seenKeys)
    {
      DistinctSnoc(seenPaths, path);
      ok := path !in owners;
      owners := owners[path := owner];
      seenPaths := seenPaths + [path];
    }

    /** One artifact: its key, then each of its files. */
    method AddArtifact(id: string, a: Artifact) returns (ok: bool)
      requires Valid()
      modifies this
      ensures ok <==> Distinct(old(seenKeys) + [a.key]) && Distinct(old(seenPaths) + Targets(a.files))
      ensures ok ==> Valid() && seenKeys == old(seenKeys) + [a.key] && seenPaths == old(seenPaths) + Targets(a.files)
    {
      ok := AddKey(a.key, id);
      if !ok {
        return;
      }
      for k := 0 to |a.files|
        invariant Valid() && seenKeys == old(seenKeys) + [a.key]
        invariant seenPaths == old(seenPaths) + Targets(a.files)[..k]
      {
        ghost var next := Targets(a.files)[..k + 1];
        assert next == Targets(a.files)[..k] + [a.files[k].destination];
        assert old(seenPaths) + next == seenPaths + [a.files[k].destination];
        ok := AddDestination(a.files[k].destination, id + "/" + a.key + "/" + a.files[k].repoPath);
        if !ok {
          assert old(seenPaths) + Targets(a.files) == (old(seenPaths) + next) + Targets(a.files)[k + 1..];
          if Distinct(old(seenPaths) + Targets(a.files)) {
            DistinctPrefixOf(old(seenPaths) + next, Targets(a.files)[k + 1..]);
          }
          return;
        }
      }
      assert Targets(a.files)[..|a.files|] == Targets(a.files);
    }

    /** One source: each of its artifacts in turn. */
    method AddSource(id: string, artifacts: seq<Artifact>) returns (ok: bool)
      requires Valid()
      modifies this
      ensures ok <==> Distinct(old(seenKeys) + Keys(artifacts)) && Distinct(old(seenPaths) + Destinations(artifacts))
      ensures ok ==> Valid() && seenKeys == old(seenKeys) + Keys(artifacts) && seenPaths == old(seenPaths) + Destinations(artifacts)
    {
      for k := 0 to |artifacts|
        invariant Valid()
        invariant seenKeys == old(seenKeys) + Keys(artifacts[..k])
        invariant seenPaths == old(seenPaths) + Destinations(artifacts[..k])
      {
        hide Keys, Destinations, Targets, Distinct;
        NextArtifact(old(seenKeys), old(seenPaths), artifacts, k);
        ok := AddArtifact(id, artifacts[k]);
        if !ok {
          return;
        }
      }
      assert artifacts[..|artifacts|] == artifacts;
      ok := true;
    }
  }

  /** Taking one more artifact: what is seen so far grows by its key and its targets, and a
      clash there is a clash in the whole list. */
  lemma NextArtifact(keys: seq<string>, paths: seq<Path>, artifacts: seq<Artifact>, k: nat)
    requires k < |artifacts|
    ensures keys + Keys(artifacts[..k + 1]) == (keys + Keys(artifacts[..k])) + [artifacts[k].key]
    ensures paths + Destinations(artifacts[..k + 1]) == (paths + Destinations(artifacts[..k])) + Targets(artifacts[k].files)
    ensures Distinct(keys + Keys(artifacts)) ==> Distinct(keys + Keys(artifacts[..k + 1]))
    ensures Distinct(paths + Destinations(artifacts)) ==> Distinct(paths + Destinations(artifacts[..k + 1]))
  {
    hide Keys, Destinations, Targets, Distinct;
    var front, back := artifacts[..k + 1], artifacts[k + 1..];
    assert front == artifacts[..k] + [artifacts[k]] && artifacts == front + back;
    KeysSnoc(artifacts[..k], artifacts[k]);
    FlatConcat(front, back);
    Regroup(keys, Keys(artifacts[..k]), [artifacts[k].key]);
    Regroup(paths, Destinations(artifacts[..k]), Targets(artifacts[k].files));
    Regroup(keys, Keys(front), Keys(back));
    Regroup(paths, Destinations(front), Destinations(back));
  }

  lemma Regroup<T>(a: seq<T>, b: seq<T>, c: seq<T>)
    ensures a + (b + c) == (a + b) + c
    ensures Distinct(a + (b + c)) ==> Distinct(a + b)
  {
    assert a + (b + c) == (a + b) + c;
    if Distinct(a + (b + c)) {
      DistinctPrefixOf(a + b, c);
    }
  }

  lemma KeysSnoc(artifacts: seq<Artifact>, a: Artifact)
    ensures Keys(artifacts + [a]) == Keys(artifacts) + [a.key]
    ensures Destinations(artifacts + [a]) == Destinations(artifacts) + Targets(a.files)
  {
    assert (artifacts + [a])[..|artifacts|] == artifacts;
  }

  lemma {:induction false} FlatConcat(a: seq<Artifact>, b: seq<Artifact>)
    ensures Keys(a + b) == Keys(a) + Keys(b)
    ensures Destinations(a + b) == Destinations(a) + Destinations(b)
  {
    if b == [] {
      assert a + b == a;
    } else {
      FlatConcat(a, b[..|b| - 1]);
      FlatSnoc(a, b);
    }
  }

  lemma LastApart<T>(a: seq<T>, b: seq<T>)
    requires b != []
    ensures b == b[..|b| - 1] + [b[|b| - 1]]
    ensures a + b == (a + b[..|b| - 1]) + [b[|b| - 1]]
  {
  }

  lemma FlatSnoc(a: seq<Artifact>, b: seq<Artifact>)
    requires b != []
    requires var front := b[..|b| - 1]; Keys(a + front) == Keys(a) + Keys(front)
    requires var front := b[..|b| - 1]; Destinations(a + front) == Destinations(a) + Destinations(front)
    ensures Keys(a + b) == Keys(a) + Keys(b)
    ensures Destinations(a + b) == Destinations(a) + Destinations(b)
  {
    hide Keys, Destinations, Targets;
    var front, last := b[..|b| - 1], b[|b| - 1];
    LastApart(a, b);
    KeysSnoc(a + front, last);
    KeysSnoc(front, last);
  }

  lemma {:induction false} ArtifactsConcat(a: seq<Source>, b: seq<Source>)
    ensures Artifacts(a + b) == Artifacts(a) + Artifacts(b)
  {
    if b == [] {
      assert a + b == a;
    } else {
      ArtifactsConcat(a, b[..|b| - 1]);
      ArtifactsJoin(a, b);
    }
  }

  lemma OneMoreSource(front: seq<Source>, last: Source)
    ensures Artifacts(front + [last]) == Artifacts(front) + last.artifacts
  {
    assert (front + [last])[..|front|] == front;
  }

  lemma ArtifactsJoin(a: seq<Source>, b: seq<Source>)
    requires b != [] && Artifacts(a + b[..|b| - 1]) == Artifacts(a) + Artifacts(b[..|b| - 1])
    ensures Artifacts(a + b) == Artifacts(a) + Artifacts(b)
  {
    hide Artifacts;
    var front, last := b[..|b| - 1], b[|b| - 1];
    LastApart(a, b);
    OneMoreSource(a + front, last);
    OneMoreSource(front, last);
    Regroup(Artifacts(a), Artifacts(front), last.artifacts);
  }

  /** `cross_check`: the inventory is accepted exactly when it is consistent, and then each
      destination has its one owner on record. */
  method CrossCheck(sources: seq<Source>) returns (owners: Option<map<Path, string>>)
    ensures owners.Some? <==> Consistent(sources)
    ensures owners.Some? ==> forall p :: p in owners.value <==> p in Destinations(Artifacts(sources))
  {
    var scan := new Scan();
    for s := 0 to |sources|
      invariant fresh(scan) && scan.Valid()
      invariant scan.seenKeys == Keys(Artifacts(sources[..s])) && scan.seenPaths == Destinations(Artifacts(sources[..s]))
    {
      hide Keys, Destinations, Artifacts, Distinct;
      NextSource(sources, s);
      var ok := scan.AddSource(sources[s].id, sources[s].artifacts);
      if !ok {
        return None;
      }
    }
    assert sources[..|sources|] == sources;
    owners := Some(scan.owners);
  }

  lemma ArtifactsSnoc(sources: seq<Source>)
    requires sources != []
    ensures Artifacts(sources) == Artifacts(sources[..|sources| - 1]) + sources[|sources| - 1].artifacts
  {
  }

  lemma NextSource(sources: seq<Source>, s: nat)
    requires s < |sources|
    ensures Keys(Artifacts(sources[..s + 1])) == Keys(Artifacts(sources[..s])) + Keys(sources[s].artifacts)
    ensures Destinations(Artifacts(sources[..s + 1])) == Destinations(Artifacts(sources[..s])) + Destinations(sources[s].artifacts)
    ensures Distinct(Keys(Artifacts(sources))) ==> Distinct(Keys(Artifacts(sources[..s + 1])))
    ensures Distinct(Destinations(Artifacts(sources))) ==> Distinct(Destinations(Artifacts(sources[..s + 1])))
  {
    hide Keys, Destinations, Artifacts, Distinct;
    var front, back := sources[..s + 1], sources[s + 1..];
    assert front[..s] == sources[..s] && sources == front + back;
    ArtifactsSnoc(front);
    ArtifactsConcat(front, back);
    FlatConcat(Artifacts(sources[..s]), sources[s].artifacts);
    FlatConcat(Artifacts(front), Artifacts(back));
    if Distinct(Keys(Artifacts(sources))) {
      DistinctPrefixOf(Keys(Artifacts(front)), Keys(Artifacts(back)));
    }
    if Distinct(Destinations(Artifacts(sources))) {
      DistinctPrefixOf(Destinations(Artifacts(front)), Destinations(Artifacts(back)));
    }
  }

  // --- one owner, one lock ----------------------------------------------------------------

  ghost predicate Claims(s: Source, p: Path) { p in Destinations(s.artifacts) }

  lemma DistinctHalves<T>(a: seq<T>, b: seq<T>, x: T)
    requires Distinct(a + b) && x in a
    ensures x !in b
  {
    var i :| 0 <= i < |a| && a[i] == x;
    forall j | 0 <= j < |b| ensures b[j] != x {
      assert (a + b)[i] != (a + b)[|a| + j];
    }
  }

  lemma {:induction false} ClaimedWithin(sources: seq<Source>, i: nat, p: Path)
    requires i < |sources| && Claims(sources[i], p)
    ensures p in Destinations(Artifacts(sources))
  {
    var n := |sources| - 1;
    if i < n {
      ClaimedWithin(sources[..n], i, p);
    }
    FlatConcat(Artifacts(sources[..n]), sources[n].artifacts);
  }

  /** In an accepted inventory a destination has exactly one owning source, and so exactly one
      lock that guards it. */
  lemma OneOwner(sources: seq<Source>, i: nat, j: nat, p: Path)
    requires Consistent(sources) && i <= j < |sources|
    requires Claims(sources[i], p) && Claims(sources[j], p)
    ensures i == j
  {
    hide Artifacts, Destinations, Claims, Distinct;
    if i < j {
      var a, b := sources[..i + 1], sources[i + 1..];
      assert sources == a + b && a[i] == sources[i] && b[j - i - 1] == sources[j];
      ArtifactsConcat(a, b);
      FlatConcat(Artifacts(a), Artifacts(b));
      ClaimedWithin(a, i, p);
      ClaimedWithin(b, j - i - 1, p);
      DistinctHalves(Destinations(Artifacts(a)), Destinations(Artifacts(b)), p);
    }
  }

  // --- uncovered declarations ---------------------------------------------------------------

  const MAX_UNCOVERED: nat := 1000

  function Paths(rows: seq<Uncovered>): seq<Path> {
    seq(|rows|, k requires 0 <= k < |rows| => rows[k].path)
  }

  /** A declaration as such: an absolute path in normal form, one of the three classes, and a reason. */
  predicate DeclarationGood(u: Uncovered) {
    && GoodText(u.path) && GoodDestination(u.path) && GoodText(u.reason)
    && u.kind in {"local-conversion", "digest-without-recorded-size", "no-recorded-identity"}
  }

  /** The same by what the rules let through. */
  ghost predicate SoundDeclaration(u: Uncovered) {
    && Trimmed(u.path) && IsDestination(u.path) && Trimmed(u.reason)
    && (u.kind == "local-conversion" || u.kind == "digest-without-recorded-size" || u.kind == "no-recorded-identity")
  }

  lemma DeclarationGoodIff(u: Uncovered)
    ensures DeclarationGood(u) <==> SoundDeclaration(u)
  {
    TextIff(u.path);
    TextIff(u.reason);
    PathsIff(u.path);
    hide GoodText, GoodDestination, JoinsPlain, TrimStart, TrimEnd;
  }

  /** `load_uncovered`: declarations are accepted exactly when there are not too many, each is good,
      none is made twice, and none names a file whose identity the inventory records. */
  method LoadUncovered(rows: seq<Uncovered>, owners: map<Path, string>) returns (uncovered: Option<seq<Uncovered>>)
    ensures uncovered.Some? <==>
              && |rows| <= MAX_UNCOVERED && (forall k :: 0 <= k < |rows| ==> SoundDeclaration(rows[k]))
              && Distinct(Paths(rows)) && forall p :: p in Paths(rows) ==> p !in owners
    ensures uncovered.Some? ==> uncovered.value == rows
  {
    hide DeclarationGood, SoundDeclaration;
    if |rows| > MAX_UNCOVERED {
      return None;
    }
    var accepted: seq<Uncovered> := [];
    for k := 0 to |rows|
      invariant accepted == rows[..k] && Distinct(Paths(rows[..k]))
      invariant forall j :: 0 <= j < k ==> rows[j].path !in owners && SoundDeclaration(rows[j])
    {
      DeclarationGoodIff(rows[k]);
      if !DeclarationGood(rows[k]) {
        return None;
      }
      assert rows[..k + 1] == rows[..k] + [rows[k]];
      assert Paths(rows[..k + 1]) == Paths(rows[..k]) + [rows[k].path];
      assert Paths(rows) == Paths(rows[..k + 1]) + Paths(rows[k + 1..]);
      DistinctSnoc(Paths(rows[..k]), rows[k].path);
      assert Paths(rows)[k] == rows[k].path;
      if rows[k].path in owners {
        return None;
      }
      if exists j :: 0 <= j < |accepted| && accepted[j].path == rows[k].path {
        var j :| 0 <= j < |accepted| && accepted[j].path == rows[k].path;
        assert Paths(rows)[j] == Paths(rows)[k];
        return None;
      }
      forall j | 0 <= j < k ensures Paths(rows[..k])[j] != rows[k].path {
        assert accepted[j].path != rows[k].path;
      }
      accepted := accepted + [rows[k]];
    }
    assert rows[..|rows|] == rows;
    uncovered := Some(accepted);
  }

  // --- what is loaded -------------------------------------------------------------------------

  datatype Coverage = InventorySource(source: nat) | DeclaredUnverifiable(declaration: Uncovered) | Unaccounted

  datatype ConsumerSummary = ConsumerSummary(paths: nat, inSources: nat, declared: nat, unaccounted: nat)

  ghost predicate CoversRightly(sources: seq<Source>, uncovered: seq<Uncovered>, p: Path, c: Coverage) {
    match c
    case InventorySource(i) => i < |sources| && Claims(sources[i], p) && forall j :: 0 <= j < i ==> !Claims(sources[j], p)
    case DeclaredUnverifiable(u) => u in uncovered && u.path == p && p in Paths(uncovered) && forall j :: 0 <= j < |sources| ==> !Claims(sources[j], p)
    case Unaccounted => p !in Paths(uncovered) && forall j :: 0 <= j < |sources| ==> !Claims(sources[j], p)
  }

  /** `find_map` over the sources and their artifacts. */
  method FindOwner(sources: seq<Source>, p: Path) returns (owner: Option<nat>)
    ensures owner.Some? ==>
              owner.value < |sources| && Claims(sources[owner.value], p) && forall j :: 0 <= j < owner.value ==> !Claims(sources[j], p)
    ensures owner.None? ==> forall j :: 0 <= j < |sources| ==> !Claims(sources[j], p)
  {
    for i := 0 to |sources|
      invariant forall j :: 0 <= j < i ==> !Claims(sources[j], p)
    {
      if p in Destinations(sources[i].artifacts) {
        return Some(i);
      }
    }
    owner := None;
  }

  /** The declarations that nothing loads any more, in order. */
  method StaleDeclarations(uncovered: seq<Uncovered>, loaded: seq<Path>) returns (stale: seq<Path>)
    ensures forall p :: p in stale <==> p in Paths(uncovered) && p !in loaded
    ensures |stale| <= |uncovered|
  {
    stale := [];
    for k := 0 to |uncovered|
      invariant forall p :: p in stale <==> p in Paths(uncovered)[..k] && p !in loaded
      invariant |stale| <= k
    {
      assert Paths(uncovered)[..k + 1] == Paths(uncovered)[..k] + [uncovered[k].path];
      if uncovered[k].path !in loaded {
        stale := stale + [uncovered[k].path];
      }
    }
    assert Paths(uncovered)[..|uncovered|] == Paths(uncovered);
  }

  /** `consumer_coverage`: every loaded path falls in exactly one class, and the counters add up. */
  method ConsumerCoverage(sources: seq<Source>, uncovered: seq<Uncovered>, loaded: seq<Path>)
    returns (rows: seq<Coverage>, summary: ConsumerSummary)
    ensures |rows| == |loaded| == summary.paths
    ensures forall k :: 0 <= k < |rows| ==> CoversRightly(sources, uncovered, loaded[k], rows[k])
    ensures summary.paths == summary.inSources + summary.declared + summary.unaccounted
    ensures summary.unaccounted == 0 <==>
              forall k :: 0 <= k < |loaded| ==>
                loaded[k] in Paths(uncovered) || exists i :: 0 <= i < |sources| && Claims(sources[i], loaded[k])
  {
    rows, summary := [], ConsumerSummary(|loaded|, 0, 0, 0);
    for k := 0 to |loaded|
      invariant |rows| == k && summary.paths == |loaded|
      invariant forall j :: 0 <= j < k ==> CoversRightly(sources, uncovered, loaded[j], rows[j])
      invariant k == summary.inSources + summary.declared + summary.unaccounted
      invariant summary.unaccounted == 0 <==> forall j :: 0 <= j < k ==> rows[j] != Unaccounted
    {
      var owner := FindOwner(sources, loaded[k]);
      if owner.Some? {
        summary := summary.(inSources := summary.inSources + 1);
        rows := rows + [InventorySource(owner.value)];
      } else if exists e :: 0 <= e < |uncovered| && uncovered[e].path == loaded[k] {
        var e :| 0 <= e < |uncovered| && uncovered[e].path == loaded[k];
        assert Paths(uncovered)[e] == loaded[k];
        summary := summary.(declared := summary.declared + 1);
        rows := rows + [DeclaredUnverifiable(uncovered[e])];
      } else {
        assert loaded[k] !in Paths(uncovered);
        summary := summary.(unaccounted := summary.unaccounted + 1);
        rows := rows + [Unaccounted];
      }
    }
    forall k | 0 <= k < |loaded|
      ensures rows[k] != Unaccounted <==>
                loaded[k] in Paths(uncovered) || exists i :: 0 <= i < |sources| && Claims(sources[i], loaded[k])
    {
      assert CoversRightly(sources, uncovered, loaded[k], rows[k]);
    }
  }

  // --- lock paths ---------------------------------------------------------------------------------

  /** The position just past the last `c`, or 0. */
  function After(s: string, c: char): nat {
    if s == [] then 0
    else if s[|s| - 1] == c then |s|
    else After(s[..|s| - 1], c)
  }

  lemma {:induction false} AfterBound(s: string, c: char)
    ensures After(s, c) <= |s| && (After(s, c) > 0 ==> s[After(s, c) - 1] == c)
  {
    if s != [] && s[|s| - 1] != c {
      AfterBound(s[..|s| - 1], c);
    }
  }

  lemma {:induction false} AfterLast(a: string, c: char, b: string)
    requires c !in b
    ensures After(a + [c] + b, c) == |a| + 1
  {
    if b == [] {
      assert (a + [c] + b)[|a|] == c;
    } else {
      assert (a + [c] + b)[..|a + [c] + b| - 1] == a + [c] + b[..|b| - 1];
      assert b[|b| - 1] in b;
      AfterLast(a, c, b[..|b| - 1]);
    }
  }

  /** A file name without its extension: up to the last dot, unless that dot leads the name. */
  function Stem(name: string): string {
    AfterBound(name, '.');
    if After(name, '.') <= 1 then name else name[..After(name, '.') - 1]
  }

  /** The directory of a path, with its slash. */
  function DirectoryOf(path: Path): Path {
    AfterBound(path, '/');
    path[..After(path, '/')]
  }

  function NameOf(path: Path): string {
    AfterBound(path, '/');
    path[After(path, '/')..]
  }

  /** `manifest.with_extension("lock")`, for a path that names a file. */
  function LockPathFor(manifest: Path): Path {
    DirectoryOf(manifest) + Stem(NameOf(manifest)) + ".lock"
  }

  lemma {:induction false} NoneAfter(s: string, c: char)
    ensures After(s, c) <= |s| && c !in s[After(s, c)..]
  {
    AfterBound(s, c);
    if s != [] && s[|s| - 1] != c {
      NoneAfter(s[..|s| - 1], c);
      AfterBound(s[..|s| - 1], c);
      var n := After(s, c);
      assert s[n..] == s[..|s| - 1][n..] + [s[|s| - 1]];
    }
  }

  lemma {:induction false} AfterWithout(s: string, c: char)
    requires c !in s
    ensures After(s, c) == 0
  {
    if s != [] {
      assert s[|s| - 1] in s && forall x :: x in s[..|s| - 1] ==> x in s;
      AfterWithout(s[..|s| - 1], c);
    }
  }

  /** A directory and a name without slashes are found again in what they make together. */
  lemma SplitsBack(directory: string, name: string)
    requires (directory == "" || directory[|directory| - 1] == '/') && '/' !in name
    ensures After(directory + name, '/') == |directory|
  {
    if directory == "" {
      assert directory + name == name;
      AfterWithout(name, '/');
    } else {
      var front := directory[..|directory| - 1];
      assert directory + name == front + ['/'] + name;
      AfterLast(front, '/', name);
    }
  }

  lemma StemHasNoSlash(path: Path)
    ensures '/' !in Stem(NameOf(path))
    ensures DirectoryOf(path) == "" || DirectoryOf(path)[|DirectoryOf(path)| - 1] == '/'
  {
    AfterBound(path, '/');
    NoneAfter(path, '/');
    AfterBound(NameOf(path), '.');
    var name, stem := NameOf(path), Stem(NameOf(path));
    assert forall k :: 0 <= k < |stem| ==> stem[k] == name[k] && name[k] in name;
  }

  lemma {:induction false} AfterAll(s: string, c: char, i: nat)
    requires i < |s| && s[i] == c
    ensures i < After(s, c)
  {
    if s[|s| - 1] != c {
      AfterAll(s[..|s| - 1], c, i);
    }
  }

  /** A stem is never empty unless the name is; what it leaves out is one extension, if the name has a
      dot that does not lead it. */
  lemma StemIs(name: string)
    ensures (exists i :: 0 < i < |name| && name[i] == '.') ==>
              exists extension: string ::
                Stem(name) != "" && '.' !in extension && name == Stem(name) + "." + extension
    ensures (forall i :: 0 < i < |name| ==> name[i] != '.') ==> Stem(name) == name
  {
    AfterBound(name, '.');
    NoneAfter(name, '.');
    var n := After(name, '.');
    if i :| 0 < i < |name| && name[i] == '.' {
      AfterAll(name, '.', i);
      assert name == name[..n - 1] + "." + name[n..];
    }
  }

  /** Two manifests are guarded by one lock exactly when they stand in one directory and their names
      differ at most in the extension. */
  lemma SameLockIff(a: Path, b: Path)
    ensures LockPathFor(a) == LockPathFor(b) <==>
              DirectoryOf(a) == DirectoryOf(b) && Stem(NameOf(a)) == Stem(NameOf(b))
  {
    if LockPathFor(a) == LockPathFor(b) {
      StemHasNoSlash(a);
      StemHasNoSlash(b);
      hide Stem, DirectoryOf, NameOf;
      var x, y := DirectoryOf(a) + Stem(NameOf(a)), DirectoryOf(b) + Stem(NameOf(b));
      assert x == LockPathFor(a)[..|LockPathFor(a)| - 5] && y == LockPathFor(b)[..|LockPathFor(b)| - 5];
      SplitsBack(DirectoryOf(a), Stem(NameOf(a)));
      SplitsBack(DirectoryOf(b), Stem(NameOf(b)));
      assert x[..|DirectoryOf(a)|] == DirectoryOf(a) && y[..|DirectoryOf(b)|] == DirectoryOf(b);
      assert x[|DirectoryOf(a)|..] == Stem(NameOf(a)) && y[|DirectoryOf(b)|..] == Stem(NameOf(b));
    }
  }

  /** The usual case: one name, two extensions. */
  lemma SameStemSameLock(directory: string, stem: string, one: string, other: string)
    requires '/' !in stem && '/' !in one && '/' !in other
    requires stem != [] && '.' !in one && '.' !in other
    ensures LockPathFor(directory + "/" + stem + "." + one) == LockPathFor(directory + "/" + stem + "." + other)
              == directory + "/" + stem + ".lock"
  {
    LockOf(directory, stem, one);
    LockOf(directory, stem, other);
  }

  lemma LockOf(directory: string, stem: string, extension: string)
    requires '/' !in stem && '/' !in extension && stem != [] && '.' !in extension
    ensures LockPathFor(directory + "/" + stem + "." + extension) == directory + "/" + stem + ".lock"
  {
    var name := stem + "." + extension;
    var path := directory + "/" + stem + "." + extension;
    assert path == directory + ['/'] + name;
    AfterLast(directory, '/', name);
    AfterLast(stem, '.', extension);
    assert path[..|directory| + 1] == directory + "/" && path[|directory| + 1..] == name;
    assert name[..|stem|] == stem;
  }
}
