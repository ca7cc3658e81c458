/** The mirror's writes under interference: whatever other people commit between any two
    client calls, a write of the mirror replaces exactly the blob it last learnt of, and
    nobody has touched the path since it learnt that. */
module Interleaving {
  import opened Basics
  import opened Domain
  import opened GitRepo
  import opened Mirror
  import opened Sync
  import opened Adopt
  import opened Convergence
  import opened Syncing

  // ---- What the log says the mirror knows ----

  /** What the mirror last learnt about a path, provided nobody has committed there since:
      Some(None) is a listing without the path. */
  ghost function Seen(h: seq<Event>, path: Path): Option<Option<Sha>> {
    if h == [] then None
    else
      var front := h[..|h| - 1];
      match h[|h| - 1]
      case Listed(tree) => Some(Lookup(tree, path))
      case Got(p, c) => if p == path then Some(Some(ShaOf(c))) else Seen(front, path)
      case Put(p, _, _) => if p == path then None else Seen(front, path)
      case Deleted(p, _) => if p == path then None else Seen(front, path)
      case ForeignCommit(p, _) => if p == path then None else Seen(front, path)
  }

  ghost function LastListing(h: seq<Event>): Option<map<Path, Sha>> {
    if h == [] then None
    else if h[|h| - 1].Listed? then Some(h[|h| - 1].tree)
    else LastListing(h[..|h| - 1])
  }

  /** A write is justified by the log before it: it replaces the blob the mirror knows the
      path to hold; it creates only where the last listing had nothing; and it deletes a
      definition only if that blob carries the rendered header. */
  ghost predicate Justified(h: seq<Event>, e: Event) {
    match e
    case Put(p, Some(was), _) => Seen(h, p) == Some(Some(ShaOf(was)))
    case Put(p, None, _) => LastListing(h).Some? && p !in LastListing(h).value
    case Deleted(p, was) => Seen(h, p) == Some(Some(ShaOf(was))) && (IsCredentialPath(p) || HasHeader(was))
    case _ => true
  }

  ghost predicate SoundFrom(h: seq<Event>, n: nat) {
    forall i :: n <= i < |h| && IsWrite(h[i]) ==> Justified(h[..i], h[i])
  }

  lemma SoundTransitive(h: seq<Event>, h': seq<Event>, n: nat)
    requires h <= h' && n <= |h| && SoundFrom(h, n) && SoundFrom(h', |h|)
    ensures SoundFrom(h', n)
  {
    forall i | n <= i < |h'| && IsWrite(h'[i]) ensures Justified(h'[..i], h'[i]) {
      if i < |h| { assert h'[..i] == h[..i]; }
    }
  }

  // ---- Watching a listed blob ----

  /** The path has held the listed blob; and if it holds it now, nobody has committed to
      the path since the mirror last looked. */
  ghost predicate Watched(r: Repo, p: Path, sha: Sha) {
    && (p, BlobOf(sha)) in r.held
    && (Lookup(r.files, p) == Some(BlobOf(sha)) ==> Seen(r.history, p) == Some(Some(sha)))
  }

  /** The mirror is working from the listing `tree` and has written only paths in `done`. */
  ghost predicate Working(r: Repo, tree: map<Path, Sha>, done: set<Path>) {
    && HeldCovers(r) && LastListing(r.history) == Some(tree)
    && (forall p :: p in tree && p !in done ==> Watched(r, p, tree[p]))
  }

  /** From r to r' the mirror kept working soundly; claimed only for runs in which nobody
      brings back a blob its path had moved on from. */
  ghost predicate Safe(r: Repo, r': Repo, tree: map<Path, Sha>, done: set<Path>, done': set<Path>) {
    && r.history <= r'.history && (r'.clean ==> r.clean)
    && (r'.clean && Working(r, tree, done) ==> Working(r', tree, done') && SoundFrom(r'.history, |r.history|))
  }

  lemma SafeTransitive(a: Repo, b: Repo, c: Repo, tree: map<Path, Sha>, d0: set<Path>, d1: set<Path>, d2: set<Path>)
    requires Safe(a, b, tree, d0, d1) && Safe(b, c, tree, d1, d2)
    ensures Safe(a, c, tree, d0, d2)
  {
    if c.clean && Working(a, tree, d0) { SoundTransitive(b.history, c.history, |a.history|); }
  }

  lemma WatchedAfterForeign(r: Repo, r': Repo, e: Edit, p: Path, sha: Sha)
    requires HeldCovers(r) && Watched(r, p, sha) && r' == ApplyEdit(r, e) && r'.clean
    ensures Watched(r', p, sha)
  {
    if r' != r { assert r'.history[..|r.history|] == r.history; }
  }

  lemma {:induction false} EditsWatch(r: Repo, edits: seq<Edit>, p: Path, sha: Sha)
    requires HeldCovers(r) && Watched(r, p, sha) && ApplyEdits(r, edits).clean
    ensures Watched(ApplyEdits(r, edits), p, sha)
    decreases |edits|
  {
    if edits != [] {
      var next := ApplyEdit(r, edits[0]);
      EditsFrame(next, edits[1..]);
      WatchedAfterForeign(r, next, edits[0], p, sha);
      EditsWatch(next, edits[1..], p, sha);
    }
  }

  lemma ArriveWatch(r: Repo, p: Path, sha: Sha)
    requires HeldCovers(r) && Watched(r, p, sha) && Arrive(r).clean
    ensures Watched(Arrive(r), p, sha)
  {
    if !Quiet(r) { EditsWatch(r.(schedule := r.schedule[1..]), r.schedule[0].edits, p, sha); }
  }

  lemma {:induction false} ListingKept(h: seq<Event>, h': seq<Event>)
    requires h <= h' && forall i :: |h| <= i < |h'| ==> !h'[i].Listed?
    ensures LastListing(h') == LastListing(h)
    decreases |h'|
  {
    if |h| < |h'| {
      assert !h'[|h'| - 1].Listed?;
      ListingKept(h, h'[..|h'| - 1]);
    } else {
      assert h == h';
    }
  }

  lemma ArriveSafe(r: Repo, tree: map<Path, Sha>, done: set<Path>)
    ensures Safe(r, Arrive(r), tree, done, done)
  {
    ArriveFrame(r);
    if Arrive(r).clean && Working(r, tree, done) {
      ListingKept(r.history, Arrive(r).history);
      ArriveHeld(r);
      forall p | p in tree && p !in done ensures Watched(Arrive(r), p, tree[p]) {
        ArriveWatch(r, p, tree[p]);
      }
    }
  }

  // ---- Client calls ----

  /** Logging an event about one path leaves the others watched. */
  lemma LogWatch(r: Repo, r': Repo, e: Event, p: Path, sha: Sha)
    requires Watched(r, p, sha) && r'.history == r.history + [e] && !e.Listed? && e.path != p
    requires r.held <= r'.held && Lookup(r'.files, p) == Lookup(r.files, p)
    ensures Watched(r', p, sha)
  {
    assert r'.history[..|r.history|] == r.history;
  }

  lemma GetSafe(r: Repo, path: Path, tree: map<Path, Sha>, done: set<Path>)
    ensures Safe(r, GetContents(r, path).repo, tree, done, done)
    ensures var got := GetContents(r, path);
            got.result.Ok? && HeldCovers(got.repo) ==> Watched(got.repo, path, ShaOf(got.result.value)) && Lookup(got.repo.files, path) == Some(got.result.value)
  {
    ArriveSafe(r, tree, done);
    var now, got := Arrive(r), GetContents(r, path);
    if got.result.Ok? {
      var h' := got.repo.history;
      assert h'[..|now.history|] == now.history;
      if now.clean && Working(now, tree, done) {
        forall p | p in tree && p !in done ensures Watched(got.repo, p, tree[p]) {
          if p != path { LogWatch(now, got.repo, h'[|h'| - 1], p, tree[p]); }
        }
      }
      SafeTransitive(r, now, got.repo, tree, done, done, done);
    }
  }

  lemma PutSafe(r: Repo, path: Path, content: Content, guard: Option<Sha>, tree: map<Path, Sha>, done: set<Path>)
    requires Working(r, tree, done) ==> if guard.Some? then Watched(r, path, guard.value) else path !in tree
    ensures Safe(r, PutContents(r, path, content, guard).repo, tree, done, done + {path})
  {
    ArriveSafe(r, tree, done);
    var now, put := Arrive(r), PutContents(r, path, content, guard);
    if put.result.Ok? && put.repo.clean && Working(r, tree, done) {
      if guard.Some? { ArriveWatch(r, path, guard.value); }
      CommitSound(now, put.repo, Put(path, Lookup(now.files, path), content), tree, done);
      SoundTransitive(now.history, put.repo.history, |r.history|);
    }
  }

  lemma CommitSound(now: Repo, r': Repo, e: Event, tree: map<Path, Sha>, done: set<Path>)
    requires Working(now, tree, done) && r'.history == now.history + [e] && IsWrite(e) && Justified(now.history, e)
    requires HeldCovers(r') && now.held <= r'.held && forall p :: p != e.path ==> Lookup(r'.files, p) == Lookup(now.files, p)
    ensures Working(r', tree, done + {e.path}) && SoundFrom(r'.history, |now.history|)
  {
    assert r'.history[..|now.history|] == now.history;
    forall p | p in tree && p !in done + {e.path} ensures Watched(r', p, tree[p]) {
      LogWatch(now, r', e, p, tree[p]);
    }
  }

  /** Deleting by a listed sha: the content now at the path is known to carry the header,
      or is not the listed blob any more. */
  lemma DeleteSafe(r: Repo, path: Path, sha: Sha, tree: map<Path, Sha>, done: set<Path>)
    requires Working(r, tree, done) ==>
               && Watched(r, path, sha)
               && (IsCredentialPath(path) || HasHeader(BlobOf(sha)) || Lookup(r.files, path) != Some(BlobOf(sha)))
    ensures Safe(r, DeleteContents(r, path, sha).repo, tree, done, done + {path})
  {
    ArriveSafe(r, tree, done);
    var now, del := Arrive(r), DeleteContents(r, path, sha);
    if del.result.Ok? && del.repo.clean && Working(r, tree, done) {
      ArriveWatch(r, path, sha);
      ArriveNeverRestores(r, path, BlobOf(sha));
      CommitSound(now, del.repo, Deleted(path, now.files[path]), tree, done);
      SoundTransitive(now.history, del.repo.history, |r.history|);
    }
  }

  // ---- The steps of a converge ----

  lemma MoreDone(r: Repo, r': Repo, tree: map<Path, Sha>, done: set<Path>, done': set<Path>, larger: set<Path>)
    requires Safe(r, r', tree, done, done') && done' <= larger
    ensures Safe(r, r', tree, done, larger)
  {
  }

  lemma UpsertFileSafe(cfg: Wiring, w: World, path: Path, df: DefinitionFile, defRows: map<PipelineID, DefRender>,
                       tree: map<Path, Sha>, done: set<Path>)
    requires IsDefinitionPath(path)
    ensures Safe(w.repo, UpsertFile(cfg, w, path, df, YamlTree(tree), defRows).world.repo, tree, done, done + {path})
  {
    if path !in YamlTree(tree) {
      PutSafe(w.repo, path, df.content, None, tree, done);
    } else {
      GetSafe(w.repo, path, tree, done);
      var got := GetContents(w.repo, path);
      MoreDone(w.repo, got.repo, tree, done, done, done + {path});
      if got.result.Ok? && got.result.value != df.content {
        PutSafe(got.repo, path, df.content, Some(ShaOf(got.result.value)), tree, done);
        var put := PutContents(got.repo, path, df.content, Some(ShaOf(got.result.value)));
        SafeTransitive(w.repo, got.repo, put.repo, tree, done, done, done + {path});
      }
    }
  }

  lemma {:induction false} UpsertFilesSafe(cfg: Wiring, w: World, paths: seq<Path>, plan: Plan, tree: map<Path, Sha>, done: set<Path>)
    requires forall p :: p in paths ==> p in plan.desired && IsDefinitionPath(p) && p in done
    ensures Safe(w.repo, UpsertFiles(cfg, w, paths, plan, YamlTree(tree)).world.repo, tree, done, done)
    decreases |paths|
  {
    if paths != [] {
      assert paths[0] in done;
      UpsertFileSafe(cfg, w, paths[0], plan.desired[paths[0]], plan.defRows, tree, done);
      assert done + {paths[0]} == done;
      var s := UpsertFile(cfg, w, paths[0], plan.desired[paths[0]], YamlTree(tree), plan.defRows);
      if s.outcome.Done? {
        UpsertFilesSafe(cfg, s.world, paths[1..], plan, tree, done);
        SafeTransitive(w.repo, s.world.repo, UpsertFiles(cfg, s.world, paths[1..], plan, YamlTree(tree)).world.repo, tree, done, done, done);
      }
    }
  }

  lemma DeleteRenderedSafe(w: World, path: Path, tree: map<Path, Sha>, done: set<Path>)
    requires path in tree && path !in done
    ensures Safe(w.repo, DeleteRendered(w, path, tree[path]).world.repo, tree, done, done + {path})
  {
    GetSafe(w.repo, path, tree, done);
    var got := GetContents(w.repo, path);
    MoreDone(w.repo, got.repo, tree, done, done, done + {path});
    if got.result.Ok? && HasHeader(got.result.value) {
      DeleteSafe(got.repo, path, tree[path], tree, done);
      SafeTransitive(w.repo, got.repo, DeleteContents(got.repo, path, tree[path]).repo, tree, done, done, done + {path});
    }
  }

  ghost function AsSet(paths: seq<Path>): set<Path> {
    set p | p in paths
  }

  lemma {:induction false} DeleteStaleRenderedSafe(w: World, paths: seq<Path>, existing: map<Path, Sha>, keep: set<Path>,
                                                   tree: map<Path, Sha>, done: set<Path>)
    requires NoDuplicates(paths) && existing == YamlTree(tree) && (forall p :: p in paths ==> p in existing)
    requires forall p :: p in paths && p !in keep ==> p !in done
    ensures Safe(w.repo, DeleteStaleRendered(w, paths, existing, keep).world.repo, tree, done, done + AsSet(paths))
    decreases |paths|
  {
    if paths == [] {
    } else {
      var path := paths[0];
      assert path in existing;
      var s := if path in keep then Step(w, Done) else DeleteRendered(w, path, existing[path]);
      var mid := if path in keep then done else done + {path};
      if path !in keep { DeleteRenderedSafe(w, path, tree, done); }
      assert AsSet(paths) == {path} + AsSet(paths[1..]);
      if s.outcome.Done? {
        DeleteStaleRenderedSafe(s.world, paths[1..], existing, keep, tree, mid);
        var t := DeleteStaleRendered(s.world, paths[1..], existing, keep).world;
        SafeTransitive(w.repo, s.world.repo, t.repo, tree, done, mid, mid + AsSet(paths[1..]));
        MoreDone(w.repo, t.repo, tree, done, mid + AsSet(paths[1..]), done + AsSet(paths));
      } else {
        MoreDone(w.repo, s.world.repo, tree, done, mid, done + AsSet(paths));
      }
    }
  }

  lemma UpsertCredentialFileSafe(cfg: Wiring, w: World, path: Path, cf: CredentialFile, plan: Plan, tree: map<Path, Sha>, done: set<Path>)
    requires IsCredentialPath(path) && path !in done
    ensures Safe(w.repo, UpsertCredentialFile(cfg, w, path, cf, plan.recipient, plan.credRows, AgeTree(tree)).world.repo,
                 tree, done, done + {path})
  {
    var cipher := Age(w.books.nonce, plan.recipient, cf.plaintext);
    PutSafe(w.repo, path, cipher, Lookup(AgeTree(tree), path), tree, done);
    assert Safe(w.repo, w.repo, tree, done, done);
    MoreDone(w.repo, w.repo, tree, done, done, done + {path});
  }

  lemma {:induction false} UpsertCredentialFilesSafe(cfg: Wiring, w: World, paths: seq<Path>, files: map<Path, CredentialFile>, plan: Plan,
                                                     tree: map<Path, Sha>, done: set<Path>)
    requires NoDuplicates(paths) && forall p :: p in paths ==> p in files && IsCredentialPath(p) && p !in done
    ensures Safe(w.repo, UpsertCredentialFiles(cfg, w, paths, files, plan, AgeTree(tree)).world.repo, tree, done, done + AsSet(paths))
    decreases |paths|
  {
    if paths == [] {
    } else {
      var path, mid := paths[0], done + {paths[0]};
      assert path in files && IsCredentialPath(path) && path !in done;
      UpsertCredentialFileSafe(cfg, w, path, files[path], plan, tree, done);
      var s := UpsertCredentialFile(cfg, w, path, files[path], plan.recipient, plan.credRows, AgeTree(tree));
      assert AsSet(paths) == {path} + AsSet(paths[1..]);
      if s.outcome.Done? {
        UpsertCredentialFilesSafe(cfg, s.world, paths[1..], files, plan, tree, mid);
        var t := UpsertCredentialFiles(cfg, s.world, paths[1..], files, plan, AgeTree(tree)).world;
        SafeTransitive(w.repo, s.world.repo, t.repo, tree, done, mid, mid + AsSet(paths[1..]));
        MoreDone(w.repo, t.repo, tree, done, mid + AsSet(paths[1..]), done + AsSet(paths));
      } else {
        MoreDone(w.repo, s.world.repo, tree, done, mid, done + AsSet(paths));
      }
    }
  }

  lemma {:induction false} DeleteStaleSafe(w: World, paths: seq<Path>, existing: map<Path, Sha>, keep: set<Path>,
                                           tree: map<Path, Sha>, done: set<Path>)
    requires NoDuplicates(paths) && existing == AgeTree(tree) && (forall p :: p in paths ==> p in existing)
    requires forall p :: p in paths && p !in keep ==> p !in done
    ensures Safe(w.repo, DeleteStale(w, paths, existing, keep).world.repo, tree, done, done + AsSet(paths))
    decreases |paths|
  {
    if paths == [] {
    } else {
      var path := paths[0];
      assert path in existing;
      var s := if path in keep then Step(w, Done) else DeleteOne(w, path, existing[path]);
      var mid := if path in keep then done else done + {path};
      if path !in keep { DeleteSafe(w.repo, path, tree[path], tree, done); }
      assert AsSet(paths) == {path} + AsSet(paths[1..]);
      if s.outcome.Done? {
        DeleteStaleSafe(s.world, paths[1..], existing, keep, tree, mid);
        var t := DeleteStale(s.world, paths[1..], existing, keep).world;
        SafeTransitive(w.repo, s.world.repo, t.repo, tree, done, mid, mid + AsSet(paths[1..]));
        MoreDone(w.repo, t.repo, tree, done, mid + AsSet(paths[1..]), done + AsSet(paths));
      } else {
        MoreDone(w.repo, s.world.repo, tree, done, mid, done + AsSet(paths));
      }
    }
  }

  ghost predicate DefinitionPaths(paths: set<Path>) {
    forall p :: p in paths ==> IsDefinitionPath(p)
  }

  lemma ConvergeDefinitionsSafe(cfg: Wiring, w: World, plan: Plan, tree: map<Path, Sha>)
    requires WellPlanned(plan)
    ensures var yaml := YamlTree(tree);
            var done := plan.desired.Keys + yaml.Keys;
            && DefinitionPaths(done)
            && Safe(w.repo, ConvergeDefinitions(cfg, w, plan, yaml).world.repo, tree, {}, done)
  {
    var yaml, desired := YamlTree(tree), plan.desired.Keys;
    var first, stale := Sorted(desired), Sorted(yaml.Keys);
    SortedEnumerates(desired);
    SortedEnumerates(yaml.Keys);
    var s := UpsertFiles(cfg, w, first, plan, yaml);
    UpsertFilesSafe(cfg, w, first, plan, tree, desired);
    assert Safe(w.repo, s.world.repo, tree, {}, desired);
    MoreDone(w.repo, s.world.repo, tree, {}, desired, desired + yaml.Keys);
    if s.outcome.Done? {
      assert AsSet(stale) == yaml.Keys;
      DeleteStaleRenderedSafe(s.world, stale, yaml, desired, tree, desired);
      SafeTransitive(w.repo, s.world.repo, DeleteStaleRendered(s.world, stale, yaml, desired).world.repo,
                     tree, {}, desired, desired + yaml.Keys);
    }
  }

  lemma ConvergeCredentialsSafe(cfg: Wiring, w: World, files: map<Path, CredentialFile>, plan: Plan, tree: map<Path, Sha>, done: set<Path>)
    requires (forall p :: p in files ==> IsCredentialPath(p)) && DefinitionPaths(done)
    ensures Safe(w.repo, ConvergeCredentials(cfg, w, files, plan, AgeTree(tree)).world.repo, tree, done,
                 done + files.Keys + AgeTree(tree).Keys)
  {
    var age, keys := AgeTree(tree), files.Keys;
    var first, stale := Sorted(keys), Sorted(age.Keys);
    SortedEnumerates(keys);
    SortedEnumerates(age.Keys);
    var s := UpsertCredentialFiles(cfg, w, first, files, plan, age);
    UpsertCredentialFilesSafe(cfg, w, first, files, plan, tree, done);
    assert AsSet(first) == keys && AsSet(stale) == age.Keys;
    MoreDone(w.repo, s.world.repo, tree, done, done + keys, done + keys + age.Keys);
    if s.outcome.Done? {
      DeleteStaleSafe(s.world, stale, age, keys, tree, done + keys);
      SafeTransitive(w.repo, s.world.repo, DeleteStale(s.world, stale, age, keys).world.repo,
                     tree, done, done + keys, done + keys + age.Keys);
    }
  }

  // ---- Whole operations, under any schedule ----

  /** Every write between r and r' is justified, given that nobody restores a blob. */
  ghost predicate Sound(r: Repo, r': Repo) {
    && r.history <= r'.history && (r'.clean ==> r.clean)
    && (r'.clean && HeldCovers(r) ==> HeldCovers(r') && SoundFrom(r'.history, |r.history|))
  }

  lemma SoundTogether(a: Repo, b: Repo, c: Repo)
    requires Sound(a, b) && Sound(b, c)
    ensures Sound(a, c)
  {
    if c.clean && HeldCovers(a) { SoundTransitive(b.history, c.history, |a.history|); }
  }

  lemma ListStartsWork(r: Repo)
    ensures var listed := ListTree(r);
            && Sound(r, listed.repo)
            && (listed.result.Ok? && HeldCovers(listed.repo) ==> Working(listed.repo, listed.result.value, {}))
  {
    ArriveFrame(r);
    if HeldCovers(r) { ArriveHeld(r); }
  }

  lemma SafeIsSound(r: Repo, listed: Repo, r': Repo, tree: map<Path, Sha>, done: set<Path>)
    requires Sound(r, listed) && Safe(listed, r', tree, {}, done)
    requires HeldCovers(listed) ==> Working(listed, tree, {})
    ensures Sound(r, r')
  {
    if r'.clean && HeldCovers(r) { SoundTransitive(listed.history, r'.history, |r.history|); }
  }

  lemma ConvergeSound(cfg: Wiring, w: World, plan: Plan)
    requires WellPlanned(plan)
    ensures Sound(w.repo, Converge(cfg, w, plan).world.repo)
  {
    ListStartsWork(w.repo);
    var listed := ListTree(w.repo);
    if listed.result.Ok? {
      var tree, start := listed.result.value, World(listed.repo, w.books);
      var done := plan.desired.Keys + YamlTree(tree).Keys;
      ConvergeDefinitionsSafe(cfg, start, plan, tree);
      var s := ConvergeDefinitions(cfg, start, plan, YamlTree(tree));
      SafeIsSound(w.repo, listed.repo, s.world.repo, tree, done);
      if s.outcome.Done? && plan.credentials.Some? {
        var files := plan.credentials.value;
        ConvergeCredentialsSafe(cfg, s.world, files, plan, tree, done);
        var all := done + files.Keys + AgeTree(tree).Keys;
        var t := ConvergeCredentials(cfg, s.world, files, plan, AgeTree(tree));
        SafeTransitive(listed.repo, s.world.repo, t.world.repo, tree, {}, done, all);
        SafeIsSound(w.repo, listed.repo, t.world.repo, tree, all);
      }
    }
  }

  /** However others commit and whenever calls fail, a sync only ever replaces what it
      knows to be there; the conflict retry included. */
  lemma SyncSound(env: Env, w: World)
    requires TableOk(w.books)
    ensures Sound(w.repo, SyncCustomer(env, w).world.repo)
  {
    var ps := Rendered(env, w.books);
    if Renderable(ps) {
      var plan := MakePlan(env, w.books, ps);
      RenderedDistinct(env, w.books);
      PlanIsWellFormed(env, w.books, ps);
      ConvergeSound(env.wiring, w, plan);
      var s := Converge(env.wiring, w, plan).world;
      ConvergeSound(env.wiring, s, plan);
      SoundTogether(w.repo, s.repo, Converge(env.wiring, s, plan).world.repo);
    }
  }

  lemma GetSound(r: Repo, path: Path)
    ensures Sound(r, GetContents(r, path).repo)
  {
    ArriveFrame(r);
    if HeldCovers(r) { ArriveHeld(r); }
  }

  lemma {:induction false} AdoptDefinitionsSound(env: Env, w: World, ps: seq<Pipeline>, renders: map<PipelineID, DefRender>, yaml: map<Path, Sha>)
    ensures Sound(w.repo, AdoptDefinitions(env, w, ps, renders, yaml).world.repo)
    decreases |ps|
  {
    if ps != [] {
      var row := Lookup(renders, ps[0].id);
      if Pending(row, yaml) { GetSound(w.repo, row.value.path); }
      var s := AdoptDefinition(env, w, ps[0], renders, yaml);
      if s.outcome.Done? {
        AdoptDefinitionsSound(env, s.world, ps[1..], renders, yaml);
        SoundTogether(w.repo, s.world.repo, AdoptDefinitions(env, s.world, ps[1..], renders, yaml).world.repo);
      }
    }
  }

  lemma {:induction false} ImportFilesSound(env: Env, w: World, paths: seq<Path>, tracked: set<Path>, yaml: map<Path, Sha>,
                                            age: map<Path, Sha>, taken: Taken)
    requires forall p :: p in paths ==> p in yaml
    ensures Sound(w.repo, ImportFiles(env, w, paths, tracked, yaml, age, taken).world.repo)
    decreases |paths|
  {
    if paths != [] {
      GetSound(w.repo, paths[0]);
      var s := ImportTurn(env, w, paths[0], tracked, yaml, age, taken);
      if s.outcome.Done? {
        ImportFilesSound(env, s.world, paths[1..], tracked, yaml, age, s.taken);
        SoundTogether(w.repo, s.world.repo, ImportFiles(env, s.world, paths[1..], tracked, yaml, age, s.taken).world.repo);
      }
    }
  }

  lemma AdoptSound(env: Env, w: World)
    ensures Sound(w.repo, AdoptCustomer(env, w).world.repo)
  {
    ListStartsWork(w.repo);
    var listed := ListTree(w.repo);
    if env.wiring.drift && listed.result.Ok? {
      var yaml, age := YamlTree(listed.result.value), AgeTree(listed.result.value);
      var ps, renders, start := List(w.books), w.books.defs, World(listed.repo, w.books);
      SortedEnumerates(yaml.Keys);
      ImportFilesSound(env, start, Sorted(yaml.Keys), TrackedPaths(renders), yaml, age, TakenBy(ps));
      var s := ImportUnrendered(env, start, ps, renders, yaml, age);
      SoundTogether(w.repo, start.repo, s.world.repo);
      if s.outcome.Done? {
        AdoptDefinitionsSound(env, s.world, ps, renders, yaml);
        SoundTogether(w.repo, s.world.repo, AdoptDefinitions(env, s.world, ps, renders, yaml).world.repo);
      }
    }
  }
}
