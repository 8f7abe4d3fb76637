/** The rules a manifest must meet across its entries (`QueueManifest::parse`, `assemble` and
    `select` in rust/src/manifest.rs). Reading the fields out of JSON is not
    modelled: an entry is already typed. */
module Manifest {
  import opened Common
  import opened Fields
  import Inventory

  datatype Row = Row(repoPath: string, destination: string, size: nat, sha256: Option<string>)

  /** `declared` is the artifact's own byte total, which it may leave out. */
  datatype Entry = Entry(key: string, capability: string, repository: string, revision: string,
                         files: seq<Row>, declared: Option<nat>)

  const U64: nat := 0x1_0000_0000_0000_0000
  const MAX_ARTIFACTS := 1_000
  const MAX_FILES := 10_000

  // --- totals -------------------------------------------------------------------------------

  function Bytes(files: seq<Row>): nat {
    if files == [] then 0 else Bytes(files[..|files| - 1]) + files[|files| - 1].size
  }

  function TotalBytes(entries: seq<Entry>): nat {
    if entries == [] then 0 else TotalBytes(entries[..|entries| - 1]) + Bytes(entries[|entries| - 1].files)
  }

  function TotalFiles(entries: seq<Entry>): nat {
    if entries == [] then 0 else TotalFiles(entries[..|entries| - 1]) + |entries[|entries| - 1].files|
  }

  lemma {:induction false} BytesGrow(files: seq<Row>, k: nat)
    requires k <= |files|
    ensures Bytes(files[..k]) <= Bytes(files)
    decreases |files|
  {
    if k == |files| {
      assert files[..k] == files;
    } else {
      BytesGrow(files[..|files| - 1], k);
      assert files[..|files| - 1][..k] == files[..k];
    }
  }

  lemma {:induction false} TotalsGrow(entries: seq<Entry>, k: nat)
    requires k <= |entries|
    ensures TotalBytes(entries[..k]) <= TotalBytes(entries) && TotalFiles(entries[..k]) <= TotalFiles(entries)
    decreases |entries|
  {
    if k == |entries| {
      assert entries[..k] == entries;
    } else {
      TotalsGrow(entries[..|entries| - 1], k);
      assert entries[..|entries| - 1][..k] == entries[..k];
    }
  }

  // --- the entries as an inventory sees them ---------------------------------------------------

  function Plain(e: Entry): Inventory.Artifact {
    Inventory.Artifact(e.key, seq(|e.files|, k requires 0 <= k < |e.files| => Inventory.File(e.files[k].repoPath, e.files[k].destination)))
  }

  function Plains(entries: seq<Entry>): (r: seq<Inventory.Artifact>)
    ensures |r| == |entries|
  {
    seq(|entries|, k requires 0 <= k < |entries| => Plain(entries[k]))
  }

  /** Unique keys, and one owner for each destination. */
  ghost predicate Unambiguous(entries: seq<Entry>) {
    Distinct(Inventory.Keys(Plains(entries))) && Distinct(Inventory.Destinations(Plains(entries)))
  }

  /** `checked_add` down the files of one artifact. */
  method AddBytes(files: seq<Row>, before: nat) returns (total: Option<nat>)
    requires before < U64
    ensures total == if before + Bytes(files) < U64 then Some(before + Bytes(files)) else None
  {
    var sum := before;
    for k := 0 to |files|
      invariant sum == before + Bytes(files[..k]) < U64
    {
      assert files[..k + 1][..k] == files[..k];
      BytesGrow(files, k + 1);
      if sum + files[k].size >= U64 { return None; }
      sum := sum + files[k].size;
    }
    assert files[..|files|] == files;
    total := Some(sum);
  }

  /** One artifact: its key and destinations join those seen, its bytes the sum. */
  method Admit(scan: Inventory.Scan, e: Entry, sum: nat) returns (more: Option<nat>)
    requires scan.Valid() && sum < U64
    modifies scan
    ensures more.Some? <==>
            && Distinct(old(scan.seenKeys) + [e.key])
            && Distinct(old(scan.seenPaths) + Inventory.Targets(Plain(e).files)) && sum + Bytes(e.files) < U64
    ensures more.Some? ==>
            && more.value == sum + Bytes(e.files) && scan.Valid()
            && scan.seenKeys == old(scan.seenKeys) + [e.key]
            && scan.seenPaths == old(scan.seenPaths) + Inventory.Targets(Plain(e).files)
  {
    hide Inventory.Targets, Distinct, Bytes;
    var ok := scan.AddArtifact("", Plain(e));
    if !ok { return None; }
    more := AddBytes(e.files, sum);
  }

  /** What `parse` and `assemble` check alike: every artifact in turn is admitted. */
  method AdmitAll(entries: seq<Entry>) returns (total: Option<nat>)
    ensures total.Some? <==> Unambiguous(entries) && TotalBytes(entries) < U64
    ensures total.Some? ==> total.value == TotalBytes(entries)
  {
    hide Inventory.Keys, Inventory.Destinations, Inventory.Targets, Distinct, Plains, Bytes, TotalBytes, TotalFiles, Unambiguous;
    var scan := new Inventory.Scan();
    var sum := 0;
    NothingYet(entries);
    for n := 0 to |entries|
      invariant scan.Valid() && fresh(scan)
      invariant scan.seenKeys == Inventory.Keys(Plains(entries[..n]))
      invariant scan.seenPaths == Inventory.Destinations(Plains(entries[..n]))
      invariant sum == TotalBytes(entries[..n]) < U64
    {
      NextEntry(entries, n);
      TotalsGrow(entries, n + 1);
      AmbiguityStays(entries, n + 1);
      var more := Admit(scan, entries[n], sum);
      if more.None? { return None; }
      sum := more.value;
    }
    assert entries[..|entries|] == entries;
    SeenIsUnambiguous(scan, entries);
    total := Some(sum);
  }

  lemma SeenIsUnambiguous(scan: Inventory.Scan, entries: seq<Entry>)
    requires scan.Valid() && scan.seenKeys == Inventory.Keys(Plains(entries))
    requires scan.seenPaths == Inventory.Destinations(Plains(entries))
    ensures Unambiguous(entries)
  {
  }

  /** `assemble`: accepted exactly when there is an artifact, none is empty, keys and destinations
      are unambiguous and the bytes fit; the total is then the sum of all sizes. */
  method Assemble(entries: seq<Entry>) returns (total: Option<nat>)
    ensures total.Some? <==>
            && entries != [] && Unambiguous(entries) && TotalBytes(entries) < U64
            && forall k :: 0 <= k < |entries| ==> entries[k].files != []
    ensures total.Some? ==> total.value == TotalBytes(entries)
  {
    hide Unambiguous, TotalBytes;
    if entries == [] { return None; }
    for n := 0 to |entries|
      invariant forall k :: 0 <= k < n ==> entries[k].files != []
    {
      if entries[n].files == [] { return None; }
    }
    total := AdmitAll(entries);
  }

  lemma NothingYet(entries: seq<Entry>)
    ensures Inventory.Keys(Plains(entries[..0])) == [] && Inventory.Destinations(Plains(entries[..0])) == []
    ensures TotalBytes(entries[..0]) == 0 && TotalFiles(entries[..0]) == 0
  {
  }

  /** A clash among the first entries is a clash. */
  lemma AmbiguityStays(entries: seq<Entry>, n: nat)
    requires 0 < n <= |entries|
    ensures !Distinct(Inventory.Keys(Plains(entries[..n]))) ==> !Unambiguous(entries)
    ensures !Distinct(Inventory.Destinations(Plains(entries[..n]))) ==> !Unambiguous(entries)
  {
    NextEntry(entries, n - 1);
  }

  lemma NextEntry(entries: seq<Entry>, n: nat)
    requires n < |entries|
    ensures Inventory.Keys(Plains(entries[..n + 1])) == Inventory.Keys(Plains(entries[..n])) + [Plain(entries[n]).key]
    ensures Inventory.Destinations(Plains(entries[..n + 1])) ==
              Inventory.Destinations(Plains(entries[..n])) + Inventory.Targets(Plain(entries[n]).files)
    ensures TotalBytes(entries[..n + 1]) == TotalBytes(entries[..n]) + Bytes(entries[n].files)
    ensures TotalFiles(entries[..n + 1]) == TotalFiles(entries[..n]) + |entries[n].files|
    ensures Distinct(Inventory.Keys(Plains(entries))) ==> Distinct(Inventory.Keys(Plains(entries[..n + 1])))
    ensures Distinct(Inventory.Destinations(Plains(entries))) ==> Distinct(Inventory.Destinations(Plains(entries[..n + 1])))
  {
    assert entries[..n + 1][..n] == entries[..n];
    var all, done := Plains(entries), Plains(entries[..n]);
    assert Plains(entries[..n + 1]) == all[..n + 1] && done == all[..n];
    var none: seq<string> := [];
    Inventory.NextArtifact(none, none, all, n);
    assert none + Inventory.Keys(all[..n + 1]) == Inventory.Keys(all[..n + 1]);
    assert none + Inventory.Keys(all[..n]) == Inventory.Keys(all[..n]);
    assert none + Inventory.Destinations(all[..n + 1]) == Inventory.Destinations(all[..n + 1]);
    assert none + Inventory.Destinations(all[..n]) == Inventory.Destinations(all[..n]);
    assert none + Inventory.Keys(all) == Inventory.Keys(all) && none + Inventory.Destinations(all) == Inventory.Destinations(all);
  }

  // --- the whole manifest ------------------------------------------------------------------------

  predicate RowGood(r: Row) {
    && GoodText(r.repoPath) && GoodRepoPath(r.repoPath) && GoodText(r.destination) && GoodDestination(r.destination)
    && (r.sha256.Some? ==> GoodDigest(r.sha256.value))
  }

  predicate EntryGood(e: Entry) {
    && GoodText(e.key) && GoodText(e.capability)
    && GoodText(e.repository) && GoodRepository(e.repository) && GoodText(e.revision) && GoodRevision(e.revision)
    && 1 <= |e.files| <= MAX_FILES && (e.declared.Some? ==> e.declared.value == Bytes(e.files))
    && forall k :: 0 <= k < |e.files| ==> RowGood(e.files[k])
  }

  /** The same by what the rules let through. */
  ghost predicate SoundRow(r: Row) {
    && Trimmed(r.repoPath) && JoinsPlain(r.repoPath) && Trimmed(r.destination) && IsDestination(r.destination)
    && (r.sha256.Some? ==> IsDigest(r.sha256.value))
  }

  ghost predicate SoundEntry(e: Entry) {
    && Trimmed(e.key) && Trimmed(e.capability) && Trimmed(e.repository) && IsOwnerAndName(e.repository)
    && Trimmed(e.revision) && NoWhite(e.revision)
    && 0 < |e.files| < MAX_FILES + 1 && (e.declared == None || e.declared == Some(Bytes(e.files)))
    && forall r :: r in e.files ==> SoundRow(r)
  }

  lemma RowGoodIff(r: Row)
    ensures RowGood(r) <==> SoundRow(r)
  {
    TextIff(r.repoPath);
    TextIff(r.destination);
    PathsIff(r.repoPath);
    PathsIff(r.destination);
    if r.sha256.Some? {
      DigestIff(r.sha256.value);
    }
    hide GoodText, GoodRepoPath, GoodDestination, GoodDigest, JoinsPlain, TrimStart, TrimEnd;
  }

  lemma EntryGoodIff(e: Entry)
    ensures EntryGood(e) <==> SoundEntry(e)
  {
    TextIff(e.key);
    TextIff(e.capability);
    TextIff(e.repository);
    TextIff(e.revision);
    OwnerAndNameIff(e.repository);
    RevisionIff(e.revision);
    forall r ensures RowGood(r) <==> SoundRow(r) {
      RowGoodIff(r);
    }
    hide GoodText, GoodRepository, GoodRevision, RowGood, SoundRow, IsOwnerAndName, NoWhite, TrimStart, TrimEnd, Bytes;
    assert forall k :: 0 <= k < |e.files| ==> e.files[k] in e.files;
  }

  /** The checks of `parse` from the artifact list on: accepted exactly when every entry is good, the
      counts are within the limits, keys and destinations are unambiguous, the bytes fit and the
      declared total is their sum. */
  method CheckEntries(declared: nat, entries: seq<Entry>) returns (ok: bool)
    ensures ok <==>
            && 1 <= |entries| <= MAX_ARTIFACTS && TotalFiles(entries) <= MAX_FILES
            && (forall k :: 0 <= k < |entries| ==> SoundEntry(entries[k]))
            && Unambiguous(entries) && declared == TotalBytes(entries) < U64
  {
    hide Unambiguous, TotalBytes, EntryGood, SoundEntry;
    if entries == [] || |entries| > MAX_ARTIFACTS { return false; }
    var files := 0;
    assert entries[..0] == [];
    for n := 0 to |entries|
      invariant files == TotalFiles(entries[..n]) <= MAX_FILES
      invariant forall k :: 0 <= k < n ==> SoundEntry(entries[k])
    {
      assert entries[..n + 1][..n] == entries[..n];
      TotalsGrow(entries, n + 1);
      EntryGoodIff(entries[n]);
      if !EntryGood(entries[n]) || files + |entries[n].files| > MAX_FILES { return false; }
      files := files + |entries[n].files|;
    }
    assert entries[..|entries|] == entries;
    var sum := AdmitAll(entries);
    ok := sum == Some(declared);
  }

  // --- selection -------------------------------------------------------------------------------

  /** The entries with a wanted key, in manifest order. */
  function Chosen(entries: seq<Entry>, wanted: set<string>): seq<Entry> {
    if entries == [] then []
    else
      var last := entries[|entries| - 1];
      Chosen(entries[..|entries| - 1], wanted) + if last.key in wanted then [last] else []
  }

  predicate Knows(entries: seq<Entry>, key: string) {
    exists k :: 0 <= k < |entries| && entries[k].key == key
  }

  /** `select`: everything for an empty list; otherwise refused exactly when a key is unknown or
      given twice. */
  method Select(entries: seq<Entry>, keys: seq<string>) returns (r: Option<seq<Entry>>)
    ensures r.None? <==> keys != [] && (!Distinct(keys) || exists k :: k in keys && !Knows(entries, k))
    ensures r.Some? ==> r.value == if keys == [] then entries else Chosen(entries, set k | k in keys)
  {
    if keys == [] { return Some(entries); }
    var wanted: set<string> := {};
    for n := 0 to |keys|
      invariant wanted == set k | k in keys[..n]
      invariant Distinct(keys[..n]) && forall k :: k in keys[..n] ==> Knows(entries, k)
    {
      hide Distinct, Knows;
      assert keys[..n + 1] == keys[..n] + [keys[n]] && keys[n] in keys;
      DistinctSnoc(keys[..n], keys[n]);
      PrefixDistinct(keys, n + 1);
      if !Knows(entries, keys[n]) || keys[n] in wanted { return None; }
      wanted := wanted + {keys[n]};
    }
    assert keys[..|keys|] == keys;
    var chosen: seq<Entry> := [];
    assert entries[..0] == [];
    for n := 0 to |entries|
      invariant chosen == Chosen(entries[..n], wanted)
    {
      assert entries[..n + 1][..n] == entries[..n];
      if entries[n].key in wanted { chosen := chosen + [entries[n]]; }
    }
    assert entries[..|entries|] == entries;
    r := Some(chosen);
  }

  lemma PrefixDistinct(keys: seq<string>, n: nat)
    requires n <= |keys|
    ensures Distinct(keys) ==> Distinct(keys[..n])
  {
  }

  /** In a manifest with unique keys the selection has each wanted artifact once and no other, in
      manifest order. */
  lemma {:induction false} ChosenExactly(entries: seq<Entry>, wanted: set<string>) returns (at: seq<nat>)
    requires Distinct(Inventory.Keys(Plains(entries))) && forall key :: key in wanted ==> Knows(entries, key)
    ensures |at| == |Chosen(entries, wanted)| == |wanted|
    ensures forall i :: 0 <= i < |at| ==> at[i] < |entries| && Chosen(entries, wanted)[i] == entries[at[i]]
    ensures forall i, j :: 0 <= i < j < |at| ==> at[i] < at[j]
    ensures forall i :: 0 <= i < |at| ==> entries[at[i]].key in wanted
  {
    if entries == [] {
      at := [];
      NothingKnown(wanted);
    } else {
      var m := |entries| - 1;
      var others := wanted - {entries[m].key};
      KeysApart(entries);
      FrontKnows(entries, wanted, others);
      ChosenIgnores(entries[..m], wanted, entries[m].key);
      at := ChosenExactly(entries[..m], others);
      hide Inventory.Keys, Plains, Distinct, Knows;
      if entries[m].key in wanted {
        assert wanted == others + {entries[m].key};
        at := at + [m];
      } else {
        assert others == wanted;
      }
    }
  }

  lemma NothingKnown(wanted: set<string>)
    requires forall key :: key in wanted ==> Knows([], key)
    ensures wanted == {}
  {
    assert forall key :: !Knows([], key);
  }

  lemma FrontKnows(entries: seq<Entry>, wanted: set<string>, others: set<string>)
    requires entries != [] && forall key :: key in wanted ==> Knows(entries, key)
    requires others == wanted - {entries[|entries| - 1].key}
    ensures forall key :: key in others ==> Knows(entries[..|entries| - 1], key)
  {
    var m := |entries| - 1;
    forall key | key in others ensures Knows(entries[..m], key) {
      var k :| 0 <= k < |entries| && entries[k].key == key;
      assert entries[..m][k].key == key;
    }
  }

  lemma KeysApart(entries: seq<Entry>)
    requires entries != [] && Distinct(Inventory.Keys(Plains(entries)))
    ensures Distinct(Inventory.Keys(Plains(entries[..|entries| - 1])))
    ensures !Knows(entries[..|entries| - 1], entries[|entries| - 1].key)
  {
    var keys, m := Inventory.Keys(Plains(entries)), |entries| - 1;
    assert Inventory.Keys(Plains(entries[..m])) == keys[..m];
    assert forall k :: 0 <= k < m ==> keys[k] == entries[k].key && keys[k] != keys[m];
  }

  lemma {:induction false} ChosenIgnores(entries: seq<Entry>, wanted: set<string>, key: string)
    requires !Knows(entries, key)
    ensures Chosen(entries, wanted) == Chosen(entries, wanted - {key})
  {
    if entries != [] {
      var m := |entries| - 1;
      forall k | 0 <= k < m ensures entries[..m][k].key != key {
        assert entries[k].key != key;
      }
      assert entries[m].key != key;
      ChosenIgnores(entries[..m], wanted, key);
    }
  }
}
