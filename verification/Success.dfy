/** What a success means while others commit and the box comes and goes: under every
    schedule, a sync or adopt pass that reports none of its calls refused has done its work. */
module Success {
  import opened Basics
  import opened Domain
  import opened GitRepo
  import opened Mirror
  import opened Sync
  import opened Adopt
  import opened Syncing
  import opened Adopting

  // ---- What the calls log ----

  /** The history grew, and e is part of the growth. */
  ghost predicate Occurs(h: seq<Event>, h': seq<Event>, e: Event) {
    h <= h' && exists i :: |h| <= i < |h'| && h'[i] == e
  }

  lemma Longer(h: seq<Event>, h1: seq<Event>, h2: seq<Event>)
    requires h <= h1 && h1 <= h2
    ensures h <= h2
    ensures forall e :: Occurs(h, h1, e) || Occurs(h1, h2, e) ==> Occurs(h, h2, e)
  {
    forall e | Occurs(h, h1, e) || Occurs(h1, h2, e) ensures Occurs(h, h2, e) {
      if Occurs(h, h1, e) {
        var i :| |h| <= i < |h1| && h1[i] == e;
        assert h2[i] == e;
      }
    }
  }

  lemma LoggedLast(h: seq<Event>, now: seq<Event>, e: Event)
    requires h <= now
    ensures Occurs(h, now + [e], e)
  {
    assert (now + [e])[|now|] == e;
  }

  lemma GetLogs(r: Repo, path: Path)
    ensures var got := GetContents(r, path);
            r.history <= got.repo.history && (got.result.Ok? ==> Occurs(r.history, got.repo.history, Got(path, got.result.value)))
  {
    ArriveFrame(r);
    var now := Arrive(r);
    if path in now.files { LoggedLast(r.history, now.history, Got(path, now.files[path])); }
  }

  lemma PutLogs(r: Repo, path: Path, content: Content, guard: Option<Sha>)
    ensures var put := PutContents(r, path, content, guard);
            && r.history <= put.repo.history
            && (put.result.Ok? ==>
                  Occurs(r.history, put.repo.history, Put(path, if guard.Some? then Some(BlobOf(guard.value)) else None, content)))
  {
    ArriveFrame(r);
    var now := Arrive(r);
    LoggedLast(r.history, now.history, Put(path, Lookup(now.files, path), content));
  }

  lemma DeleteLogs(r: Repo, path: Path, guard: Sha)
    ensures var del := DeleteContents(r, path, guard);
            && r.history <= del.repo.history
            && (del.result.Ok? ==> Occurs(r.history, del.repo.history, Deleted(path, BlobOf(guard))))
  {
    ArriveFrame(r);
    var now := Arrive(r);
    if path in now.files { LoggedLast(r.history, now.history, Deleted(path, now.files[path])); }
  }

  // ---- Definitions ----

  /** The mirror read or wrote content at p. */
  ghost predicate Shown(h: seq<Event>, h': seq<Event>, p: Path, content: Content) {
    Occurs(h, h', Got(p, content)) || exists before :: Occurs(h, h', Put(p, before, content))
  }

  lemma ShownLonger(h: seq<Event>, h1: seq<Event>, h2: seq<Event>, p: Path, content: Content)
    requires h <= h1 && h1 <= h2
    requires Shown(h, h1, p, content) || Shown(h1, h2, p, content)
    ensures Shown(h, h2, p, content)
  {
    Longer(h, h1, h2);
  }

  lemma UpsertShows(cfg: Wiring, w: World, path: Path, df: DefinitionFile, existing: map<Path, Sha>, defRows: map<PipelineID, DefRender>)
    ensures var s := UpsertFile(cfg, w, path, df, existing, defRows);
            && w.repo.history <= s.world.repo.history
            && (s.outcome.Done? ==> Shown(w.repo.history, s.world.repo.history, path, df.content))
  {
    if path !in existing {
      PutLogs(w.repo, path, df.content, None);
    } else {
      GetLogs(w.repo, path);
      var got := GetContents(w.repo, path);
      if got.result.Ok? && got.result.value != df.content {
        PutLogs(got.repo, path, df.content, Some(ShaOf(got.result.value)));
        Longer(w.repo.history, got.repo.history, PutContents(got.repo, path, df.content, Some(ShaOf(got.result.value))).repo.history);
      }
    }
  }

  lemma {:induction false} UpsertsShow(cfg: Wiring, w: World, paths: seq<Path>, plan: Plan, existing: map<Path, Sha>)
    requires forall p :: p in paths ==> p in plan.desired
    ensures var s := UpsertFiles(cfg, w, paths, plan, existing);
            && w.repo.history <= s.world.repo.history
            && (s.outcome.Done? ==> forall p :: p in paths ==> Shown(w.repo.history, s.world.repo.history, p, plan.desired[p].content))
    decreases |paths|
  {
    if paths != [] {
      UpsertShows(cfg, w, paths[0], plan.desired[paths[0]], existing, plan.defRows);
      var s := UpsertFile(cfg, w, paths[0], plan.desired[paths[0]], existing, plan.defRows);
      if s.outcome.Done? {
        UpsertsShow(cfg, s.world, paths[1..], plan, existing);
        var end := UpsertFiles(cfg, s.world, paths[1..], plan, existing);
        Longer(w.repo.history, s.world.repo.history, end.world.repo.history);
        if end.outcome.Done? {
          forall p | p in paths ensures Shown(w.repo.history, end.world.repo.history, p, plan.desired[p].content) {
            assert p == paths[0] || p in paths[1..];
            ShownLonger(w.repo.history, s.world.repo.history, end.world.repo.history, p, plan.desired[p].content);
          }
        }
      }
    }
  }

  /** The mirror deleted the blob at p, or read there something without the header. */
  ghost predicate Cleared(h: seq<Event>, h': seq<Event>, p: Path, blob: Content) {
    Occurs(h, h', Deleted(p, blob)) || exists c :: !HasHeader(c) && Occurs(h, h', Got(p, c))
  }

  lemma ClearedLonger(h: seq<Event>, h1: seq<Event>, h2: seq<Event>, p: Path, blob: Content)
    requires h <= h1 && h1 <= h2
    requires Cleared(h, h1, p, blob) || Cleared(h1, h2, p, blob)
    ensures Cleared(h, h2, p, blob)
  {
    Longer(h, h1, h2);
  }

  lemma DeleteClears(w: World, path: Path, treeSha: Sha)
    ensures var s := DeleteRendered(w, path, treeSha);
            && w.repo.history <= s.world.repo.history
            && (s.outcome.Done? ==> Cleared(w.repo.history, s.world.repo.history, path, BlobOf(treeSha)))
  {
    GetLogs(w.repo, path);
    var got := GetContents(w.repo, path);
    if got.result.Ok? && HasHeader(got.result.value) {
      DeleteLogs(got.repo, path, treeSha);
      Longer(w.repo.history, got.repo.history, DeleteContents(got.repo, path, treeSha).repo.history);
    }
  }

  lemma {:induction false} DeletesClear(w: World, paths: seq<Path>, existing: map<Path, Sha>, keep: set<Path>)
    requires forall p :: p in paths ==> p in existing
    ensures var s := DeleteStaleRendered(w, paths, existing, keep);
            && w.repo.history <= s.world.repo.history
            && (s.outcome.Done? ==>
                  forall p :: p in paths && p !in keep ==> Cleared(w.repo.history, s.world.repo.history, p, BlobOf(existing[p])))
    decreases |paths|
  {
    if paths != [] {
      DeleteClears(w, paths[0], existing[paths[0]]);
      var s := if paths[0] in keep then Step(w, Done) else DeleteRendered(w, paths[0], existing[paths[0]]);
      if s.outcome.Done? {
        DeletesClear(s.world, paths[1..], existing, keep);
        var end := DeleteStaleRendered(s.world, paths[1..], existing, keep);
        Longer(w.repo.history, s.world.repo.history, end.world.repo.history);
        if end.outcome.Done? {
          forall p | p in paths && p !in keep ensures Cleared(w.repo.history, end.world.repo.history, p, BlobOf(existing[p])) {
            assert p == paths[0] || p in paths[1..];
            ClearedLonger(w.repo.history, s.world.repo.history, end.world.repo.history, p, BlobOf(existing[p]));
          }
        }
      }
    }
  }

  // ---- Credentials ----

  /** The file at p was left to the box, or was what it should be, or was written. */
  ghost predicate Dealt(cfg: Wiring, plan: Plan, tree: map<Path, Sha>, h: seq<Event>, h': seq<Event>, p: Path, cf: CredentialFile) {
    || cf.external
    || (p in tree && cf.id in plan.credRows && plan.credRows[cf.id].blob == tree[p]
        && plan.credRows[cf.id].fingerprint == Fingerprint(plan.recipient, cf.plaintext))
    || (cfg.ownership && p in tree && cf.id in plan.credRows && plan.credRows[cf.id].blob != tree[p])
    || exists nonce :: Occurs(h, h', Put(p, Lookup(tree, p), Age(nonce, plan.recipient, cf.plaintext)))
  }

  lemma DealtLonger(cfg: Wiring, plan: Plan, tree: map<Path, Sha>, h: seq<Event>, h1: seq<Event>, h2: seq<Event>, p: Path, cf: CredentialFile)
    requires h <= h1 && h1 <= h2
    requires Dealt(cfg, plan, tree, h, h1, p, cf) || Dealt(cfg, plan, tree, h1, h2, p, cf)
    ensures Dealt(cfg, plan, tree, h, h2, p, cf)
  {
    Longer(h, h1, h2);
  }

  lemma CredentialDealt(cfg: Wiring, w: World, path: Path, cf: CredentialFile, plan: Plan, existing: map<Path, Sha>)
    ensures var s := UpsertCredentialFile(cfg, w, path, cf, plan.recipient, plan.credRows, existing);
            && w.repo.history <= s.world.repo.history
            && (s.outcome.Done? ==> Dealt(cfg, plan, existing, w.repo.history, s.world.repo.history, path, cf))
  {
    PutLogs(w.repo, path, Age(w.books.nonce, plan.recipient, cf.plaintext), Lookup(existing, path));
  }

  lemma {:induction false} CredentialsDealt(cfg: Wiring, w: World, paths: seq<Path>, files: map<Path, CredentialFile>, plan: Plan,
                                            existing: map<Path, Sha>)
    requires forall p :: p in paths ==> p in files
    ensures var s := UpsertCredentialFiles(cfg, w, paths, files, plan, existing);
            && w.repo.history <= s.world.repo.history
            && (s.outcome.Done? ==>
                  forall p :: p in paths ==> Dealt(cfg, plan, existing, w.repo.history, s.world.repo.history, p, files[p]))
    decreases |paths|
  {
    if paths != [] {
      CredentialDealt(cfg, w, paths[0], files[paths[0]], plan, existing);
      var s := UpsertCredentialFile(cfg, w, paths[0], files[paths[0]], plan.recipient, plan.credRows, existing);
      if s.outcome.Done? {
        CredentialsDealt(cfg, s.world, paths[1..], files, plan, existing);
        var end := UpsertCredentialFiles(cfg, s.world, paths[1..], files, plan, existing);
        Longer(w.repo.history, s.world.repo.history, end.world.repo.history);
        if end.outcome.Done? {
          forall p | p in paths ensures Dealt(cfg, plan, existing, w.repo.history, end.world.repo.history, p, files[p]) {
            assert p == paths[0] || p in paths[1..];
            DealtLonger(cfg, plan, existing, w.repo.history, s.world.repo.history, end.world.repo.history, p, files[p]);
          }
        }
      }
    }
  }

  lemma {:induction false} StaleDeleted(w: World, paths: seq<Path>, existing: map<Path, Sha>, keep: set<Path>)
    requires forall p :: p in paths ==> p in existing
    ensures var s := DeleteStale(w, paths, existing, keep);
            && w.repo.history <= s.world.repo.history
            && (s.outcome.Done? ==>
                  forall p :: p in paths && p !in keep ==> Occurs(w.repo.history, s.world.repo.history, Deleted(p, BlobOf(existing[p]))))
    decreases |paths|
  {
    if paths != [] {
      DeleteLogs(w.repo, paths[0], existing[paths[0]]);
      var s := if paths[0] in keep then Step(w, Done) else DeleteOne(w, paths[0], existing[paths[0]]);
      if s.outcome.Done? {
        StaleDeleted(s.world, paths[1..], existing, keep);
        var end := DeleteStale(s.world, paths[1..], existing, keep);
        Longer(w.repo.history, s.world.repo.history, end.world.repo.history);
        if end.outcome.Done? {
          forall p | p in paths && p !in keep ensures Occurs(w.repo.history, end.world.repo.history, Deleted(p, BlobOf(existing[p]))) {
            assert p == paths[0] || p in paths[1..];
          }
        }
      }
    }
  }

  // ---- Converge and sync ----

  /** Between h and h' the mirror listed the tree, showed every wanted definition, cleared
      every other one of the listing, and did the same for credentials if the plan has any. */
  ghost predicate Worked(cfg: Wiring, plan: Plan, tree: map<Path, Sha>, h: seq<Event>, h': seq<Event>) {
    && Occurs(h, h', Listed(tree))
    && (forall p :: p in plan.desired ==> Shown(h, h', p, plan.desired[p].content))
    && (forall p :: p in tree && IsDefinitionPath(p) && p !in plan.desired ==> Cleared(h, h', p, BlobOf(tree[p])))
    && (plan.credentials.Some? ==> CredentialsWorked(cfg, plan, plan.credentials.value, AgeTree(tree), h, h'))
  }

  ghost predicate CredentialsWorked(cfg: Wiring, plan: Plan, files: map<Path, CredentialFile>, age: map<Path, Sha>, h: seq<Event>, h': seq<Event>) {
    && (forall p :: p in files ==> Dealt(cfg, plan, age, h, h', p, files[p]))
    && (forall p :: p in age && p !in files ==> Occurs(h, h', Deleted(p, BlobOf(age[p]))))
  }

  lemma CredentialsWork(cfg: Wiring, w: World, files: map<Path, CredentialFile>, plan: Plan, age: map<Path, Sha>)
    ensures var s := ConvergeCredentials(cfg, w, files, plan, age);
            && w.repo.history <= s.world.repo.history
            && (s.outcome.Done? ==> CredentialsWorked(cfg, plan, files, age, w.repo.history, s.world.repo.history))
  {
    SortedEnumerates(files.Keys);
    SortedEnumerates(age.Keys);
    CredentialsDealt(cfg, w, Sorted(files.Keys), files, plan, age);
    var s := UpsertCredentialFiles(cfg, w, Sorted(files.Keys), files, plan, age);
    if s.outcome.Done? {
      StaleDeleted(s.world, Sorted(age.Keys), age, files.Keys);
      var end := DeleteStale(s.world, Sorted(age.Keys), age, files.Keys);
      Longer(w.repo.history, s.world.repo.history, end.world.repo.history);
      if end.outcome.Done? {
        forall p | p in files ensures Dealt(cfg, plan, age, w.repo.history, end.world.repo.history, p, files[p]) {
          DealtLonger(cfg, plan, age, w.repo.history, s.world.repo.history, end.world.repo.history, p, files[p]);
        }
      }
    }
  }

  ghost predicate DefinitionsWorked(plan: Plan, yaml: map<Path, Sha>, h: seq<Event>, h': seq<Event>) {
    && (forall p :: p in plan.desired ==> Shown(h, h', p, plan.desired[p].content))
    && (forall p :: p in yaml && p !in plan.desired ==> Cleared(h, h', p, BlobOf(yaml[p])))
  }

  lemma DefinitionsWork(cfg: Wiring, w: World, plan: Plan, yaml: map<Path, Sha>)
    ensures var s := ConvergeDefinitions(cfg, w, plan, yaml);
            && w.repo.history <= s.world.repo.history
            && (s.outcome.Done? ==> DefinitionsWorked(plan, yaml, w.repo.history, s.world.repo.history))
  {
    SortedEnumerates(plan.desired.Keys);
    SortedEnumerates(yaml.Keys);
    UpsertsShow(cfg, w, Sorted(plan.desired.Keys), plan, yaml);
    var s := UpsertFiles(cfg, w, Sorted(plan.desired.Keys), plan, yaml);
    if s.outcome.Done? {
      DeletesClear(s.world, Sorted(yaml.Keys), yaml, plan.desired.Keys);
      var end := DeleteStaleRendered(s.world, Sorted(yaml.Keys), yaml, plan.desired.Keys);
      Longer(w.repo.history, s.world.repo.history, end.world.repo.history);
      if end.outcome.Done? {
        forall p | p in plan.desired ensures Shown(w.repo.history, end.world.repo.history, p, plan.desired[p].content) {
          ShownLonger(w.repo.history, s.world.repo.history, end.world.repo.history, p, plan.desired[p].content);
        }
        forall p | p in yaml && p !in plan.desired ensures Cleared(w.repo.history, end.world.repo.history, p, BlobOf(yaml[p])) {
          ClearedLonger(w.repo.history, s.world.repo.history, end.world.repo.history, p, BlobOf(yaml[p]));
        }
      }
    }
  }

  lemma WorkedTogether(cfg: Wiring, plan: Plan, tree: map<Path, Sha>, h: seq<Event>, h1: seq<Event>, h2: seq<Event>, h3: seq<Event>)
    requires h <= h1 && h1 <= h2 && h2 <= h3
    requires Occurs(h, h1, Listed(tree)) && DefinitionsWorked(plan, YamlTree(tree), h1, h2)
    requires plan.credentials.Some? ==> CredentialsWorked(cfg, plan, plan.credentials.value, AgeTree(tree), h2, h3)
    ensures Worked(cfg, plan, tree, h, h3)
  {
    Longer(h, h1, h2);
    Longer(h, h2, h3);
    forall p | p in plan.desired ensures Shown(h, h3, p, plan.desired[p].content) {
      ShownLonger(h, h1, h2, p, plan.desired[p].content);
      ShownLonger(h, h2, h3, p, plan.desired[p].content);
    }
    forall p | p in tree && IsDefinitionPath(p) && p !in plan.desired ensures Cleared(h, h3, p, BlobOf(tree[p])) {
      assert YamlTree(tree)[p] == tree[p];
      ClearedLonger(h, h1, h2, p, BlobOf(tree[p]));
      ClearedLonger(h, h2, h3, p, BlobOf(tree[p]));
    }
    if plan.credentials.Some? {
      var files, age := plan.credentials.value, AgeTree(tree);
      forall p | p in files ensures Dealt(cfg, plan, age, h, h3, p, files[p]) {
        DealtLonger(cfg, plan, age, h, h2, h3, p, files[p]);
      }
    }
  }

  /** Under every schedule, a converge that succeeds has worked. */
  lemma ConvergeWorks(cfg: Wiring, w: World, plan: Plan) returns (tree: map<Path, Sha>)
    ensures var s := Converge(cfg, w, plan);
            && w.repo.history <= s.world.repo.history
            && (s.outcome.Done? ==> Worked(cfg, plan, tree, w.repo.history, s.world.repo.history))
  {
    ArriveFrame(w.repo);
    var listed := ListTree(w.repo);
    tree := map[];
    if listed.result.Ok? {
      tree := listed.result.value;
      LoggedLast(w.repo.history, Arrive(w.repo).history, Listed(tree));
      DefinitionsWork(cfg, World(listed.repo, w.books), plan, YamlTree(tree));
      var s := ConvergeDefinitions(cfg, World(listed.repo, w.books), plan, YamlTree(tree));
      Longer(w.repo.history, listed.repo.history, s.world.repo.history);
      if s.outcome.Done? {
        if plan.credentials.Some? {
          CredentialsWork(cfg, s.world, plan.credentials.value, plan, AgeTree(tree));
          var end := ConvergeCredentials(cfg, s.world, plan.credentials.value, plan, AgeTree(tree));
          Longer(w.repo.history, s.world.repo.history, end.world.repo.history);
          if end.outcome.Done? {
            WorkedTogether(cfg, plan, tree, w.repo.history, listed.repo.history, s.world.repo.history, end.world.repo.history);
          }
        } else {
          WorkedTogether(cfg, plan, tree, w.repo.history, listed.repo.history, s.world.repo.history, s.world.repo.history);
        }
      }
    }
  }

  /** So has a sync, in its first or second converge: it never reports success over a call
      that was refused, whoever commits meanwhile. */
  lemma SyncWorks(env: Env, w: World) returns (tree: map<Path, Sha>, start: seq<Event>)
    requires TableOk(w.books) && SyncCustomer(env, w).outcome.Done?
    ensures Renderable(Rendered(env, w.books)) && w.repo.history <= start
    ensures Worked(env.wiring, MakePlan(env, w.books, Rendered(env, w.books)), tree, start, SyncCustomer(env, w).world.repo.history)
  {
    var plan := MakePlan(env, w.books, Rendered(env, w.books));
    start := w.repo.history;
    tree := ConvergeWorks(env.wiring, w, plan);
    var s := Converge(env.wiring, w, plan);
    if s.outcome == Failed(FileChanged) {
      start := s.world.repo.history;
      tree := ConvergeWorks(env.wiring, s.world, plan);
    }
  }

  // ---- Adopt passes ----

  ghost predicate Read(h: seq<Event>, h': seq<Event>, p: Path) {
    exists c :: Occurs(h, h', Got(p, c))
  }

  lemma ReadLonger(h: seq<Event>, h1: seq<Event>, h2: seq<Event>, p: Path)
    requires h <= h1 && h1 <= h2 && (Read(h, h1, p) || Read(h1, h2, p))
    ensures Read(h, h2, p)
  {
    Longer(h, h1, h2);
  }

  lemma ImportReads(env: Env, w: World, path: Path, tracked: set<Path>, yaml: map<Path, Sha>, age: map<Path, Sha>, taken: Taken)
    requires path in yaml
    ensures var s := ImportTurn(env, w, path, tracked, yaml, age, taken);
            && w.repo.history <= s.world.repo.history
            && (s.outcome.Done? && path !in tracked ==> Read(w.repo.history, s.world.repo.history, path))
            && w.books.rows.Keys <= s.world.books.rows.Keys
            && forall id :: id in w.books.rows ==> Lookup(s.world.books.defs, id) == Lookup(w.books.defs, id)
  {
    GetLogs(w.repo, path);
  }

  lemma {:induction false} ImportsRead(env: Env, w: World, paths: seq<Path>, tracked: set<Path>, yaml: map<Path, Sha>, age: map<Path, Sha>,
                                       taken: Taken)
    requires forall p :: p in paths ==> p in yaml
    ensures var s := ImportFiles(env, w, paths, tracked, yaml, age, taken);
            && w.repo.history <= s.world.repo.history
            && (s.outcome.Done? ==> forall p :: p in paths && p !in tracked ==> Read(w.repo.history, s.world.repo.history, p))
            && w.books.rows.Keys <= s.world.books.rows.Keys
            && forall id :: id in w.books.rows ==> Lookup(s.world.books.defs, id) == Lookup(w.books.defs, id)
    decreases |paths|
  {
    if paths != [] {
      ImportReads(env, w, paths[0], tracked, yaml, age, taken);
      var s := ImportTurn(env, w, paths[0], tracked, yaml, age, taken);
      if s.outcome.Done? {
        ImportsRead(env, s.world, paths[1..], tracked, yaml, age, s.taken);
        var end := ImportFiles(env, s.world, paths[1..], tracked, yaml, age, s.taken);
        Longer(w.repo.history, s.world.repo.history, end.world.repo.history);
        if end.outcome.Done? {
          forall p | p in paths && p !in tracked ensures Read(w.repo.history, end.world.repo.history, p) {
            assert p == paths[0] || p in paths[1..];
            ReadLonger(w.repo.history, s.world.repo.history, end.world.repo.history, p);
          }
        }
      }
    }
  }

  /** The file of id was read, and its blob in the listing is recorded or refused. */
  ghost predicate Answered(b: Books, id: PipelineID, path: Path, sha: Sha, h: seq<Event>, h': seq<Event>) {
    && Read(h, h', path)
    && id in b.defs && b.defs[id].path == path && (b.defs[id].blob == sha || b.defs[id].refused == Some(sha))
  }

  lemma AdoptAnswers(env: Env, w: World, p: Pipeline, renders: map<PipelineID, DefRender>, yaml: map<Path, Sha>)
    requires env.wiring.drift && p.id in w.books.rows
    requires Lookup(renders, p.id) == Lookup(w.books.defs, p.id)
    ensures var s := AdoptDefinition(env, w, p, renders, yaml);
            && w.repo.history <= s.world.repo.history && s.world.books.rows.Keys == w.books.rows.Keys
            && (forall id :: id != p.id ==> Lookup(s.world.books.defs, id) == Lookup(w.books.defs, id))
            && (s.outcome.Done? && Pending(Lookup(renders, p.id), yaml) ==>
                  Answered(s.world.books, p.id, renders[p.id].path, yaml[renders[p.id].path], w.repo.history, s.world.repo.history))
  {
    if Pending(Lookup(renders, p.id), yaml) { GetLogs(w.repo, renders[p.id].path); }
  }

  lemma {:induction false} AdoptsElsewhere(env: Env, w: World, ps: seq<Pipeline>, renders: map<PipelineID, DefRender>, yaml: map<Path, Sha>, id: PipelineID)
    requires forall i :: 0 <= i < |ps| ==> ps[i].id != id
    ensures Lookup(AdoptDefinitions(env, w, ps, renders, yaml).world.books.defs, id) == Lookup(w.books.defs, id)
    decreases |ps|
  {
    if ps != [] {
      var s := AdoptDefinition(env, w, ps[0], renders, yaml);
      if s.outcome.Done? { AdoptsElsewhere(env, s.world, ps[1..], renders, yaml, id); }
    }
  }

  lemma {:induction false} AdoptsAnswer(env: Env, w: World, ps: seq<Pipeline>, renders: map<PipelineID, DefRender>, yaml: map<Path, Sha>)
    requires env.wiring.drift && DistinctIds(ps)
    requires forall i :: 0 <= i < |ps| ==> ps[i].id in w.books.rows && Lookup(renders, ps[i].id) == Lookup(w.books.defs, ps[i].id)
    ensures var s := AdoptDefinitions(env, w, ps, renders, yaml);
            && w.repo.history <= s.world.repo.history
            && (s.outcome.Done? ==> forall i :: 0 <= i < |ps| && Pending(Lookup(renders, ps[i].id), yaml) ==>
                  Answered(s.world.books, ps[i].id, renders[ps[i].id].path, yaml[renders[ps[i].id].path], w.repo.history, s.world.repo.history))
    decreases |ps|
  {
    if ps != [] {
      AdoptAnswers(env, w, ps[0], renders, yaml);
      var s := AdoptDefinition(env, w, ps[0], renders, yaml);
      if s.outcome.Done? {
        forall i | 0 <= i < |ps[1..]| ensures ps[1..][i].id in s.world.books.rows && ps[1..][i].id != ps[0].id {
          assert ps[1..][i] == ps[i + 1];
        }
        AdoptsAnswer(env, s.world, ps[1..], renders, yaml);
        var end := AdoptDefinitions(env, s.world, ps[1..], renders, yaml);
        AdoptsElsewhere(env, s.world, ps[1..], renders, yaml, ps[0].id);
        Longer(w.repo.history, s.world.repo.history, end.world.repo.history);
        if end.outcome.Done? {
          forall i | 0 <= i < |ps| && Pending(Lookup(renders, ps[i].id), yaml)
            ensures Answered(end.world.books, ps[i].id, renders[ps[i].id].path, yaml[renders[ps[i].id].path], w.repo.history, end.world.repo.history)
          {
            if i > 0 { assert ps[i] == ps[1..][i - 1]; }
            ReadLonger(w.repo.history, s.world.repo.history, end.world.repo.history, renders[ps[i].id].path);
          }
        }
      }
    }
  }

  /** The world after the listing, after the imports and after the edits of a pass. */
  ghost function Listing(w: World): map<Path, Sha> {
    Arrive(w.repo).files
  }

  ghost function Imported(env: Env, w: World): Step {
    var tree := Listing(w);
    ImportUnrendered(env, World(ListTree(w.repo).repo, w.books), List(w.books), w.books.defs, YamlTree(tree), AgeTree(tree))
  }

  ghost function Adopted(env: Env, w: World): Step {
    AdoptDefinitions(env, Imported(env, w).world, List(w.books), w.books.defs, YamlTree(Listing(w)))
  }

  lemma PassSteps(env: Env, w: World)
    requires env.wiring.drift && AdoptCustomer(env, w).outcome.Done?
    ensures Imported(env, w).outcome.Done? && Adopted(env, w).outcome.Done?
    ensures var s, t := AdoptCustomer(env, w).world, Adopted(env, w).world; s.repo == t.repo && s.books.defs == t.books.defs
    ensures Occurs(w.repo.history, ListTree(w.repo).repo.history, Listed(Listing(w)))
  {
    ArriveFrame(w.repo);
    LoggedLast(w.repo.history, Arrive(w.repo).history, Listed(Listing(w)));
    var t, ps := Adopted(env, w).world, List(w.books);
    FlagForeignKeepsRows(t.books, ps, ps, t.books.creds, AgeTree(Listing(w)));
  }

  lemma PassImported(env: Env, w: World)
    requires TableOk(w.books) && Imported(env, w).outcome.Done?
    ensures var h, s := ListTree(w.repo).repo.history, Imported(env, w).world;
            && h <= s.repo.history && w.books.rows.Keys <= s.books.rows.Keys
            && (env.importer ==>
                  forall p :: p in Listing(w) && IsDefinitionPath(p) && p !in TrackedPaths(w.books.defs) ==> Read(h, s.repo.history, p))
            && (forall id :: id in w.books.rows ==> Lookup(s.books.defs, id) == Lookup(w.books.defs, id))
  {
    var yaml := YamlTree(Listing(w));
    SortedEnumerates(yaml.Keys);
    ImportsRead(env, World(ListTree(w.repo).repo, w.books), Sorted(yaml.Keys), TrackedPaths(w.books.defs), yaml, AgeTree(Listing(w)),
                TakenBy(List(w.books)));
  }

  lemma PassAdopted(env: Env, w: World)
    requires TableOk(w.books) && env.wiring.drift && Imported(env, w).outcome.Done? && Adopted(env, w).outcome.Done?
    ensures var h, t := Imported(env, w).world.repo.history, Adopted(env, w).world;
            && h <= t.repo.history
            && (forall id :: id in w.books.defs && Pending(Some(w.books.defs[id]), YamlTree(Listing(w))) ==>
                  Answered(t.books, id, w.books.defs[id].path, Listing(w)[w.books.defs[id].path], h, t.repo.history))
  {
    var ps, s := List(w.books), Imported(env, w).world;
    PassImported(env, w);
    ListDistinct(w.books);
    forall i | 0 <= i < |ps| ensures ps[i].id in w.books.rows { ListedRow(w.books, ps[i]); }
    AdoptsAnswer(env, s, ps, w.books.defs, YamlTree(Listing(w)));
    forall id | id in w.books.defs && Pending(Some(w.books.defs[id]), YamlTree(Listing(w)))
      ensures exists i :: 0 <= i < |ps| && ps[i].id == id
    {
      var i :| 0 <= i < |w.books.order| && w.books.order[i] == id;
      assert ps[i].id == id;
    }
  }

  lemma PassTogether(h: seq<Event>, h1: seq<Event>, h2: seq<Event>, h3: seq<Event>)
    requires h <= h1 && h1 <= h2 && h2 <= h3
    ensures forall p :: Read(h1, h2, p) || Read(h2, h3, p) ==> Read(h, h3, p)
    ensures forall e :: Occurs(h, h1, e) ==> Occurs(h, h3, e)
  {
    Longer(h, h1, h2);
    Longer(h, h2, h3);
  }

  /** Under every schedule, an adopt pass that succeeds has listed the tree, read every
      untracked definition of the listing, and recorded or refused every pending edit in it. */
  lemma PassWorks(env: Env, w: World) returns (tree: map<Path, Sha>)
    requires TableOk(w.books) && env.wiring.drift && AdoptCustomer(env, w).outcome.Done?
    ensures var h, s := w.repo.history, AdoptCustomer(env, w).world;
            && Occurs(h, s.repo.history, Listed(tree))
            && (env.importer ==>
                  forall p :: p in tree && IsDefinitionPath(p) && p !in TrackedPaths(w.books.defs) ==> Read(h, s.repo.history, p))
            && (forall id :: id in w.books.defs && Pending(Some(w.books.defs[id]), YamlTree(tree)) ==>
                  Answered(s.books, id, w.books.defs[id].path, tree[w.books.defs[id].path], h, s.repo.history))
  {
    tree := Listing(w);
    PassSteps(env, w);
    PassImported(env, w);
    PassAdopted(env, w);
    PassTogether(w.repo.history, ListTree(w.repo).repo.history, Imported(env, w).world.repo.history, Adopted(env, w).world.repo.history);
  }
}
