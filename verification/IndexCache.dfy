/** Snapshot files: staged, renamed into place, verified on load, two kept. */
module IndexCache {
  import opened Wrappers
  import opened Fingerprint

  datatype Name =
    | Snapshot(namespace: Digest, fingerprint: Digest, sha: Digest)
    | Stage(token: nat)

  // `isPrivate`: a regular file with mode 0600.
  datatype File = File(content: Bytes, isPrivate: bool)

  type Directory = map<Name, File>

  // The configuration and the ordered rows an index was built from.
  datatype Source = Source(config: Bytes, rows: seq<Row>)

  ghost predicate SourceOk(src: Source) {
    SourcePackable(src.config, src.rows)
  }

  function NamespaceOf(digest: Bytes -> Digest, src: Source): Digest {
    digest(NamespaceStream(src.config))
  }

  function FingerprintOf(digest: Bytes -> Digest, src: Source): Digest {
    digest(Stream(src.config, src.rows))
  }

  predicate ValidFile(digest: Bytes -> Digest, dir: Directory, name: Name) {
    name in dir && name.Snapshot? && dir[name].isPrivate && digest(dir[name].content) == name.sha
  }

  // ----- load -----

  // Either not a valid file, or one the loader returns nothing for.
  predicate Rejects<T>(digest: Bytes -> Digest, dir: Directory, name: Name, loader: Bytes -> Option<T>) {
    ValidFile(digest, dir, name) ==> loader(dir[name].content).None?
  }

  // The valid file at i gives `loaded`, and every newer one was rejected.
  ghost predicate FirstAccepted<T>(digest: Bytes -> Digest, dir: Directory, files: seq<Name>,
                                   loader: Bytes -> Option<T>,
                                   i: nat, loaded: Option<T>) {
    && i < |files| && ValidFile(digest, dir, files[i]) && loader(dir[files[i]].content) == loaded
    && forall k :: 0 <= k < i ==> Rejects(digest, dir, files[k], loader)
  }

  // `files` lists the private files of this namespace and fingerprint, newest
  // first; a loader that raises counts as one that returns nothing.
  method LoadIndexSnapshot<T(0)>(digest: Bytes -> Digest, dir: Directory, files: seq<Name>, loader: Bytes -> Option<T>)
    returns (loaded: Option<T>)
    requires forall f :: f in files ==> f in dir && f.Snapshot? && dir[f].isPrivate
    ensures loaded.Some? ==> exists i :: FirstAccepted(digest, dir, files, loader, i, loaded)
    ensures loaded.None? ==> forall i :: 0 <= i < |files| ==> Rejects(digest, dir, files[i], loader)
  {
    for i := 0 to |files|
      invariant forall k :: 0 <= k < i ==> Rejects(digest, dir, files[k], loader)
    {
      assert files[i] in files;
      if digest(dir[files[i]].content) == files[i].sha {
        loaded := loader(dir[files[i]].content);
        if loaded.Some? {
          assert FirstAccepted(digest, dir, files, loader, i, loaded);
          return;
        }
      }
    }
    loaded := None;
  }

  // ----- retention -----

  function Without(files: seq<Name>, x: Name): (r: seq<Name>)
    ensures forall f :: f in r <==> f in files && f != x
  {
    if files == [] then [] else (if files[0] == x then [] else [files[0]]) + Without(files[1..], x)
  }

  // What a retention pass over the files in this order leaves.
  function Retain(digest: Bytes -> Digest, dir: Directory, files: seq<Name>, retained: nat): Directory {
    if files == [] then dir
    else if ValidFile(digest, dir, files[0]) then
      Retain(digest, if retained >= 2 then dir - {files[0]} else dir, files[1..], retained + 1)
    else Retain(digest, dir, files[1..], retained)
  }

  // `files` lists the private files of the namespace, newest first.
  method RetainTwo(digest: Bytes -> Digest, dir: Directory, files: seq<Name>, published: Name)
    returns (after: Directory)
    ensures after ==
            Retain(digest, dir, if published in files then [published] + Without(files, published) else files, 0)
  {
    var ordered := if published in files then [published] + Without(files, published) else files;
    after := dir;
    var retained := 0;
    for i := 0 to |ordered|
      invariant Retain(digest, after, ordered[i..], retained) == Retain(digest, dir, ordered, 0)
    {
      assert ordered[i..][1..] == ordered[i + 1..];
      if ValidFile(digest, after, ordered[i]) {
        retained := retained + 1;
        if retained > 2 { after := after - {ordered[i]}; }
      }
    }
  }

  ghost predicate DistinctNames(files: seq<Name>) {
    forall i, j :: 0 <= i < j < |files| ==> files[i] != files[j]
  }

  // The first position from which no file is valid, or where the first is.
  function FirstValid(digest: Bytes -> Digest, dir: Directory, files: seq<Name>): (r: nat)
    ensures r <= |files|
    ensures forall i :: 0 <= i < r ==> !ValidFile(digest, dir, files[i])
    ensures r < |files| ==> ValidFile(digest, dir, files[r])
  {
    if files == [] || ValidFile(digest, dir, files[0]) then 0 else 1 + FirstValid(digest, dir, files[1..])
  }

  // With two kept already, every later valid file goes and nothing else does.
  lemma {:induction false} RetainNone(digest: Bytes -> Digest, dir: Directory, files: seq<Name>, retained: nat)
    requires DistinctNames(files) && retained >= 2
    ensures var after := Retain(digest, dir, files, retained);
            && (forall n :: n in after ==> n in dir && after[n] == dir[n])
            && (forall n :: n in dir ==> (n !in after <==> n in files && ValidFile(digest, dir, n)))
  {
    if files == [] {
    } else {
      var f, rest := files[0], files[1..];
      var next := if ValidFile(digest, dir, f) then dir - {f} else dir;
      RetainNone(digest, next, rest, if ValidFile(digest, dir, f) then retained + 1 else retained);
      assert f !in rest;
      assert forall n :: n in files <==> n == f || n in rest;
      assert forall n :: n in next ==> (ValidFile(digest, next, n) <==> ValidFile(digest, dir, n));
    }
  }

  // With one kept, the first valid file that follows is the other one kept.
  lemma {:induction false} RetainOne(digest: Bytes -> Digest, dir: Directory, files: seq<Name>)
    requires DistinctNames(files)
    ensures var after, k := Retain(digest, dir, files, 1), FirstValid(digest, dir, files);
            && (forall n :: n in after ==> n in dir && after[n] == dir[n])
            && (forall n :: n in dir ==> (n !in after <==> n in files && ValidFile(digest, dir, n) && n != files[k]))
  {
    if files == [] {
    } else {
      var f, rest := files[0], files[1..];
      assert f !in rest;
      assert forall n :: n in files <==> n == f || n in rest;
      if ValidFile(digest, dir, f) {
        RetainNone(digest, dir, rest, 2);
      } else {
        RetainOne(digest, dir, rest);
      }
    }
  }

  // Another valid file comes before n in the listing.
  ghost predicate Preceded(digest: Bytes -> Digest, dir: Directory, files: seq<Name>, published: Name, n: Name) {
    exists i, j :: 0 <= i < j < |files| && files[j] == n && files[i] != published && ValidFile(digest, dir, files[i])
  }

  // A pass after a publication keeps it and the newest other valid snapshot of
  // its namespace, deletes every other valid one, and touches nothing else.
  lemma {:induction false} RetainKeepsTwo(digest: Bytes -> Digest, dir: Directory, files: seq<Name>, published: Name)
    requires DistinctNames(files) && ValidFile(digest, dir, published)
    ensures var after := Retain(digest, dir, [published] + Without(files, published), 0);
            && published in after
            && (forall n :: n in after ==> n in dir && after[n] == dir[n])
            && (forall n :: n in dir ==>
                 (n !in after <==>
                  n in files && ValidFile(digest, dir, n) && n != published &&
                  Preceded(digest, dir, files, published, n)))
  {
    hide Preceded;
    var others := Without(files, published);
    assert ([published] + others)[1..] == others;
    WithoutDistinct(files, published);
    RetainOne(digest, dir, others);
    forall n | n in files && ValidFile(digest, dir, n) && n != published
      ensures n != others[FirstValid(digest, dir, others)] <==> Preceded(digest, dir, files, published, n)
    {
      NewestOther(digest, dir, files, published, n);
    }
  }

  lemma {:induction false} WithoutConcat(a: seq<Name>, b: seq<Name>, x: Name)
    ensures Without(a + b, x) == Without(a, x) + Without(b, x)
  {
    if a == [] {
      assert a + b == b;
    } else {
      assert (a + b)[1..] == a[1..] + b;
      WithoutConcat(a[1..], b, x);
    }
  }

  // Where the rest of the listing takes up n.
  lemma WithoutAt(files: seq<Name>, published: Name, b: nat)
    requires DistinctNames(files) && b < |files| && files[b] != published
    ensures var before, others := Without(files[..b], published), Without(files, published);
            |before| < |others| && before == others[..|before|] && others[|before|] == files[b]
  {
    assert files == files[..b] + files[b..];
    WithoutConcat(files[..b], files[b..], published);
  }

  lemma ValidBefore(digest: Bytes -> Digest, dir: Directory, files: seq<Name>, published: Name, b: nat)
    requires b < |files|
    ensures FirstValid(digest, dir, Without(files[..b], published)) < |Without(files[..b], published)| <==>
            exists i :: 0 <= i < b && files[i] != published && ValidFile(digest, dir, files[i])
  {
    hide ValidFile;
    var before := Without(files[..b], published);
    var k := FirstValid(digest, dir, before);
    if k < |before| {
      assert before[k] in files[..b];
    }
    forall i | 0 <= i < b && files[i] != published && ValidFile(digest, dir, files[i])
      ensures k < |before|
    {
      assert files[..b][i] in files[..b];
      var j :| 0 <= j < |before| && before[j] == files[i];
    }
  }

  lemma {:induction false} FirstValidUpto(digest: Bytes -> Digest, dir: Directory, files: seq<Name>, m: nat)
    requires m < |files| && ValidFile(digest, dir, files[m])
    ensures var k, j := FirstValid(digest, dir, files), FirstValid(digest, dir, files[..m]);
            k == j <= m
  {
    hide ValidFile;
    var k, j := FirstValid(digest, dir, files), FirstValid(digest, dir, files[..m]);
    if k < m { assert files[..m][k] == files[k]; }
    if j < m { assert files[..m][j] == files[j]; }
  }

  // The newest other valid file is the one no other precedes.
  lemma NewestOther(digest: Bytes -> Digest, dir: Directory, files: seq<Name>, published: Name, n: Name)
    requires DistinctNames(files) && n in files && n != published && ValidFile(digest, dir, n)
    ensures var others, k := Without(files, published), FirstValid(digest, dir, Without(files, published));
            k < |others| && (n != others[k] <==> Preceded(digest, dir, files, published, n))
  {
    hide ValidFile, Without, FirstValid, DistinctNames;
    var b :| 0 <= b < |files| && files[b] == n;
    var before, others := Without(files[..b], published), Without(files, published);
    var m, k := |before|, FirstValid(digest, dir, others);
    WithoutAt(files, published, b);
    WithoutDistinct(files, published);
    ValidBefore(digest, dir, files, published, b);
    FirstValidUpto(digest, dir, others, m);
    assert k <= m && (k < m <==> others[k] != n) by { OnlyAt(others, k, m); }
    assert Preceded(digest, dir, files, published, n) <==>
           exists i :: 0 <= i < b && files[i] != published && ValidFile(digest, dir, files[i]) by {
      OnlyPlace(digest, dir, files, published, b);
    }
  }

  lemma OnlyAt(files: seq<Name>, k: nat, m: nat)
    requires DistinctNames(files) && k <= m < |files|
    ensures k < m <==> files[k] != files[m]
  {
  }

  lemma OnlyPlace(digest: Bytes -> Digest, dir: Directory, files: seq<Name>, published: Name, b: nat)
    requires DistinctNames(files) && b < |files|
    ensures Preceded(digest, dir, files, published, files[b]) <==>
            exists i :: 0 <= i < b && files[i] != published && ValidFile(digest, dir, files[i])
  {
    hide ValidFile;
    forall j | 0 <= j < |files| && files[j] == files[b]
      ensures j == b
    {
    }
  }

  lemma {:induction false} WithoutDistinct(files: seq<Name>, x: Name)
    requires DistinctNames(files)
    ensures DistinctNames(Without(files, x))
  {
    if files == [] {
    } else {
      WithoutDistinct(files[1..], x);
      assert files[0] !in files[1..];
    }
  }

  // ----- save -----

  // Lists the private snapshots of a namespace, newest first.
  ghost predicate Lists(list: Directory -> seq<Name>, namespace: Digest) {
    forall d: Directory :: DistinctNames(list(d)) &&
      forall n: Name :: n in list(d) <==> n in d && n.Snapshot? && n.namespace == namespace && d[n].isPrivate
  }

  // Where the file system raises: before the stage file is renamed, or in
  // the directory sync before or after retention.
  datatype Fault = NoFault | StageFault | FirstSyncFault | LastSyncFault

  class Cache {
    var dir: Directory

    // `written` is what the index saves, None when saving it raises; `token`
    // names the fresh stage file. A sync that fails after the rename answers
    // false although the snapshot is in place.
    method SaveIndexSnapshot(digest: Bytes -> Digest, namespace: Digest, fingerprint: Digest, written: Option<Bytes>,
                             token: nat, list: Directory -> seq<Name>, fault: Fault) returns (ok: bool)
      requires Stage(token) !in dir && Lists(list, namespace)
      modifies this
      ensures ok <==> fault.NoFault? && Renames(digest, namespace, fingerprint, written, old(dir), fault)
      ensures !Renames(digest, namespace, fingerprint, written, old(dir), fault) ==> dir == old(dir)
      ensures Renames(digest, namespace, fingerprint, written, old(dir), fault) ==>
                var final := Snapshot(namespace, fingerprint, digest(written.value));
                var published := old(dir)[final := File(written.value, true)];
                && final in list(published)
                && dir == (if fault.FirstSyncFault? then published
                           else Retain(digest, published, [final] + Without(list(published), final), 0))
                && ValidFile(digest, dir, final) && dir[final].content == written.value
    {
      if fault.StageFault? { return false; }
      ghost var before := dir;
      var stage := Stage(token);
      dir := dir[stage := File([], true)];
      if written.None? {
        dir := dir - {stage};
        return false;
      }
      dir := dir[stage := File(written.value, true)];
      var final := Snapshot(namespace, fingerprint, digest(dir[stage].content));
      if final in dir && !dir[final].isPrivate {
        dir := dir - {stage};
        return false;
      }
      var file := dir[stage];
      dir := (dir - {stage})[final := file];
      assert dir == before[final := File(written.value, true)];
      var files := list(dir);
      assert final in files;
      if fault.FirstSyncFault? { return false; }
      RetainKeepsTwo(digest, dir, files, final);
      dir := RetainTwo(digest, dir, files, final);
      return fault.NoFault?;
    }
  }

  // The stage file gets its final name: it was written, and that name is free
  // or held by a private file.
  predicate Renames(digest: Bytes -> Digest, namespace: Digest, fingerprint: Digest, written: Option<Bytes>,
                    dir: Directory, fault: Fault) {
    && !fault.StageFault? && written.Some?
    && var final := Snapshot(namespace, fingerprint, digest(written.value));
       final in dir ==> dir[final].isPrivate
  }

  // ----- savers, crashes and rot -----

  // A saver between making its stage file and renaming it; `wrote` is what its
  // index has written so far.
  datatype Saver = Staging(src: Source, token: nat, wrote: Bytes) | Retaining(src: Source)

  // `published` records each source with the snapshot renamed into place for it.
  datatype State = State(dir: Directory, savers: map<nat, Saver>, published: set<(Source, Bytes)>)

  datatype Action =
    | Begin(pid: nat, src: Source, token: nat)
    | Write(pid: nat, bytes: Bytes)
    | Publish(pid: nat)
    | Discard(pid: nat)
    | Unlink(pid: nat, name: Name)
    | Finish(pid: nat)
    | Crash(pid: nat)
    | Rot(name: Name, file: File)

  function FinalName(digest: Bytes -> Digest, src: Source, content: Bytes): Name {
    Snapshot(NamespaceOf(digest, src), FingerprintOf(digest, src), digest(content))
  }

  predicate IsStaging(s: State, pid: nat) {
    pid in s.savers && s.savers[pid].Staging? && Stage(s.savers[pid].token) in s.dir
  }

  predicate IsRetaining(s: State, pid: nat) {
    pid in s.savers && s.savers[pid].Retaining?
  }

  // A saver stops anywhere, leaving its stage file behind; a stored snapshot may
  // come to hold anything.
  ghost predicate Enabled(digest: Bytes -> Digest, s: State, a: Action) {
    match a
    case Begin(pid, src, token) => pid !in s.savers && Stage(token) !in s.dir && SourceOk(src)
    case Write(pid, _) => IsStaging(s, pid)
    case Publish(pid) =>
      && IsStaging(s, pid)
      && var final := FinalName(digest, s.savers[pid].src, s.dir[Stage(s.savers[pid].token)].content);
         final in s.dir ==> s.dir[final].isPrivate
    case Discard(pid) => IsStaging(s, pid)
    case Unlink(pid, name) =>
      && IsRetaining(s, pid) && ValidFile(digest, s.dir, name)
      && name.namespace == NamespaceOf(digest, s.savers[pid].src)
    case Finish(pid) => IsRetaining(s, pid)
    case Crash(pid) => pid in s.savers
    case Rot(name, _) => name in s.dir && name.Snapshot?
  }

  ghost function Next(digest: Bytes -> Digest, s: State, a: Action): State
    requires Enabled(digest, s, a)
  {
    match a
    case Begin(pid, src, token) =>
      State(s.dir[Stage(token) := File([], true)], s.savers[pid := Staging(src, token, [])], s.published)
    case Write(pid, bytes) =>
      var saver := s.savers[pid];
      State(s.dir[Stage(saver.token) := File(bytes, true)],
            s.savers[pid := Staging(saver.src, saver.token, bytes)], s.published)
    case Publish(pid) =>
      var saver := s.savers[pid];
      var file := s.dir[Stage(saver.token)];
      State((s.dir - {Stage(saver.token)})[FinalName(digest, saver.src, file.content) := file],
            s.savers[pid := Retaining(saver.src)], s.published + {(saver.src, saver.wrote)})
    case Discard(pid) => State(s.dir - {Stage(s.savers[pid].token)}, s.savers - {pid}, s.published)
    case Unlink(_, name) => State(s.dir - {name}, s.savers, s.published)
    case Finish(pid) => State(s.dir, s.savers - {pid}, s.published)
    case Crash(pid) => State(s.dir, s.savers - {pid}, s.published)
    case Rot(name, file) => State(s.dir[name := file], s.savers, s.published)
  }

  ghost predicate Traced(digest: Bytes -> Digest, published: set<(Source, Bytes)>, name: Name) {
    exists p :: p in published && name == FinalName(digest, p.0, p.1)
  }

  // Each stage file holds what its own saver wrote.
  ghost predicate StagesOwn(s: State) {
    && (forall p :: p in s.savers && s.savers[p].Staging? ==>
         Stage(s.savers[p].token) in s.dir && s.dir[Stage(s.savers[p].token)].content == s.savers[p].wrote)
    && (forall p, q :: p in s.savers && q in s.savers && s.savers[p].Staging? && s.savers[q].Staging? && p != q ==>
         s.savers[p].token != s.savers[q].token)
  }

  ghost predicate SourcesOk(s: State) {
    (forall p :: p in s.savers ==> SourceOk(s.savers[p].src)) && (forall p :: p in s.published ==> SourceOk(p.0))
  }

  ghost predicate NamesTraced(digest: Bytes -> Digest, s: State) {
    forall n :: n in s.dir && n.Snapshot? ==> Traced(digest, s.published, n)
  }

  ghost predicate Inv(digest: Bytes -> Digest, s: State) {
    StagesOwn(s) && SourcesOk(s) && NamesTraced(digest, s)
  }

  lemma {:induction false} TracedMore(digest: Bytes -> Digest, published: set<(Source, Bytes)>,
                                      more: set<(Source, Bytes)>, name: Name)
    requires Traced(digest, published, name) && published <= more
    ensures Traced(digest, more, name)
  {
    var p :| p in published && name == FinalName(digest, p.0, p.1);
    assert p in more;
  }

  lemma {:induction false} TracedNext(digest: Bytes -> Digest, s: State, a: Action)
    requires Inv(digest, s) && Enabled(digest, s, a)
    ensures NamesTraced(digest, Next(digest, s, a))
  {
    hide SourcesOk, FinalName, Traced;
    var t := Next(digest, s, a);
    forall n | n in t.dir && n.Snapshot?
      ensures Traced(digest, t.published, n)
    {
      if n in s.dir {
        TracedMore(digest, s.published, t.published, n);
      } else if a.Publish? {
        FreshlyTraced(digest, t.published, s.savers[a.pid].src, s.savers[a.pid].wrote);
      }
    }
  }

  lemma {:induction false} FreshlyTraced(digest: Bytes -> Digest, published: set<(Source, Bytes)>, src: Source,
                                         content: Bytes)
    requires (src, content) in published
    ensures Traced(digest, published, FinalName(digest, src, content))
  {
    var p := (src, content);
    assert p in published;
  }

  lemma {:induction false} StagesNext(digest: Bytes -> Digest, s: State, a: Action)
    requires StagesOwn(s) && Enabled(digest, s, a)
    ensures StagesOwn(Next(digest, s, a))
  {
  }

  // Every step of every saver, a crash, or rot keeps the invariant.
  lemma {:induction false} StepKeeps(digest: Bytes -> Digest, s: State, a: Action)
    requires Inv(digest, s) && Enabled(digest, s, a)
    ensures Inv(digest, Next(digest, s, a))
  {
    hide StagesOwn, NamesTraced, FinalName;
    StagesNext(digest, s, a);
    TracedNext(digest, s, a);
  }

  // ----- runs -----

  const EMPTY_CACHE := State(map[], map[], {})

  // The state after a run, if every action of it could happen.
  ghost function After(digest: Bytes -> Digest, actions: seq<Action>): Option<State> {
    if actions == [] then Some(EMPTY_CACHE)
    else match After(digest, actions[..|actions| - 1])
      case None => None
      case Some(s) =>
        if Enabled(digest, s, actions[|actions| - 1]) then Some(Next(digest, s, actions[|actions| - 1])) else None
  }

  lemma {:induction false} RunKeeps(digest: Bytes -> Digest, actions: seq<Action>)
    ensures After(digest, actions).Some? ==> Inv(digest, After(digest, actions).value)
  {
    hide Inv, Enabled, Next;
    if actions == [] {
      EmptyHolds(digest);
    } else {
      var front, last := actions[..|actions| - 1], actions[|actions| - 1];
      RunKeeps(digest, front);
      if After(digest, front).Some? && Enabled(digest, After(digest, front).value, last) {
        StepKeeps(digest, After(digest, front).value, last);
      }
    }
  }

  lemma {:induction false} EmptyHolds(digest: Bytes -> Digest)
    ensures Inv(digest, EMPTY_CACHE)
  {
  }

  // After any run, with crashes and rot anywhere, a file that passes the digest
  // check under a source's name holds what was published for exactly that
  // configuration and those rows.
  lemma {:induction false} HitWasPublished(digest: Bytes -> Digest, actions: seq<Action>, s: State, src: Source,
                                           name: Name)
    requires After(digest, actions) == Some(s) && CollisionFree(digest) && SourceOk(src)
    requires ValidFile(digest, s.dir, name) && name.fingerprint == FingerprintOf(digest, src)
    ensures (src, s.dir[name].content) in s.published
  {
    hide After, Stream, NamespaceStream;
    RunKeeps(digest, actions);
    var p :| p in s.published && name == FinalName(digest, p.0, p.1);
    FingerprintIdentifies(digest, src.config, src.rows, p.0.config, p.0.rows);
  }
}
