/** Who owns a pipeline's credential file: a foreign commit hands it to the box, the
    mirror then leaves it alone through every run, and a Console credential save takes it
    back. */
module Ownership {
  import opened Basics
  import opened Domain
  import opened GitRepo
  import opened Mirror
  import opened Slugs
  import opened Sync
  import opened Adopt
  import opened Convergence
  import opened Syncing
  import opened Adopting
  import opened Rebuild
  import opened Runs

  // ---- What one converge may do to credential files, under any schedule ----

  /** A write that respects ownership: it never touches an external file, overwrites a
      tracked file only while it is the blob the mirror recorded, and deletes only files
      no pipeline renders. */
  ghost predicate Respects(plan: Plan, e: Event) {
    match e
    case Put(p, before, _) =>
      IsCredentialPath(p) ==>
        && plan.credentials.Some? && p in plan.credentials.value && !plan.credentials.value[p].external
        && (var row := Lookup(plan.credRows, plan.credentials.value[p].id);
            before.Some? && row.Some? ==> row.value.blob == ShaOf(before.value))
    case Deleted(p, _) => IsCredentialPath(p) ==> plan.credentials.Some? && p !in plan.credentials.value
    case _ => true
  }

  ghost predicate AllRespect(plan: Plan, h: seq<Event>, h': seq<Event>) {
    h <= h' && forall i :: |h| <= i < |h'| ==> Respects(plan, h'[i])
  }

  lemma RespectTransitive(plan: Plan, a: seq<Event>, b: seq<Event>, c: seq<Event>)
    requires AllRespect(plan, a, b) && AllRespect(plan, b, c)
    ensures AllRespect(plan, a, c)
  {
    forall i | |a| <= i < |c| ensures Respects(plan, c[i]) {
      if i < |b| { assert c[i] == b[i]; }
    }
  }

  /** What a successful put under this guard replaces. */
  function Replaced(guard: Option<Sha>): Option<Content> {
    match guard
    case None => None
    case Some(sha) => Some(BlobOf(sha))
  }

  lemma ArriveRespects(plan: Plan, r: Repo)
    ensures AllRespect(plan, r.history, Arrive(r).history)
  {
    ArriveFrame(r);
  }

  lemma LogRespects(plan: Plan, h: seq<Event>, now: seq<Event>, e: Event)
    requires AllRespect(plan, h, now) && Respects(plan, e)
    ensures AllRespect(plan, h, now + [e])
  {
  }

  lemma CallsRespect(plan: Plan, r: Repo, q: Path, content: Content, guard: Option<Sha>, sha: Sha)
    ensures AllRespect(plan, r.history, ListTree(r).repo.history) && AllRespect(plan, r.history, GetContents(r, q).repo.history)
    ensures Respects(plan, Put(q, Replaced(guard), content)) ==> AllRespect(plan, r.history, PutContents(r, q, content, guard).repo.history)
    ensures Respects(plan, Deleted(q, BlobOf(sha))) ==> AllRespect(plan, r.history, DeleteContents(r, q, sha).repo.history)
  {
    var now := Arrive(r);
    ArriveRespects(plan, r);
    LogRespects(plan, r.history, now.history, Listed(Tree(now.files)));
    if q in now.files { LogRespects(plan, r.history, now.history, Got(q, now.files[q])); }
    if Respects(plan, Put(q, Replaced(guard), content)) {
      LogRespects(plan, r.history, now.history, Put(q, Replaced(guard), content));
    }
    if Respects(plan, Deleted(q, BlobOf(sha))) { LogRespects(plan, r.history, now.history, Deleted(q, BlobOf(sha))); }
  }

  lemma {:induction false} UpsertFilesRespect(cfg: Wiring, w: World, paths: seq<Path>, plan: Plan, existing: map<Path, Sha>)
    requires forall q :: q in paths ==> q in plan.desired && !IsCredentialPath(q)
    ensures AllRespect(plan, w.repo.history, UpsertFiles(cfg, w, paths, plan, existing).world.repo.history)
    decreases |paths|
  {
    if paths != [] {
      var path := paths[0];
      assert !IsCredentialPath(path);
      var df := plan.desired[path];
      CallsRespect(plan, w.repo, path, df.content, None, ShaOf(df.content));
      var got := GetContents(w.repo, path);
      if got.result.Ok? {
        var guard := Some(ShaOf(got.result.value));
        CallsRespect(plan, got.repo, path, df.content, guard, ShaOf(df.content));
        RespectTransitive(plan, w.repo.history, got.repo.history, PutContents(got.repo, path, df.content, guard).repo.history);
      }
      var s := UpsertFile(cfg, w, path, df, existing, plan.defRows);
      if s.outcome.Done? {
        UpsertFilesRespect(cfg, s.world, paths[1..], plan, existing);
        RespectTransitive(plan, w.repo.history, s.world.repo.history, UpsertFiles(cfg, s.world, paths[1..], plan, existing).world.repo.history);
      }
    }
  }

  lemma {:induction false} DeleteStaleRenderedRespects(w: World, paths: seq<Path>, existing: map<Path, Sha>, keep: set<Path>, plan: Plan)
    requires forall q :: q in paths ==> q in existing && !IsCredentialPath(q)
    ensures AllRespect(plan, w.repo.history, DeleteStaleRendered(w, paths, existing, keep).world.repo.history)
    decreases |paths|
  {
    if paths != [] {
      var path := paths[0];
      assert path in existing && !IsCredentialPath(path);
      var sha := existing[path];
      CallsRespect(plan, w.repo, path, BlobOf(sha), None, sha);
      var got := GetContents(w.repo, path);
      CallsRespect(plan, got.repo, path, BlobOf(sha), None, sha);
      RespectTransitive(plan, w.repo.history, got.repo.history, DeleteContents(got.repo, path, sha).repo.history);
      var s := if path in keep then Step(w, Done) else DeleteRendered(w, path, sha);
      if s.outcome.Done? {
        DeleteStaleRenderedRespects(s.world, paths[1..], existing, keep, plan);
        RespectTransitive(plan, w.repo.history, s.world.repo.history,
                          DeleteStaleRendered(s.world, paths[1..], existing, keep).world.repo.history);
      }
    }
  }

  lemma {:induction false} UpsertCredentialFilesRespect(cfg: Wiring, w: World, paths: seq<Path>, plan: Plan, existing: map<Path, Sha>)
    requires cfg.ownership && plan.credentials.Some? && forall q :: q in paths ==> q in plan.credentials.value
    ensures AllRespect(plan, w.repo.history, UpsertCredentialFiles(cfg, w, paths, plan.credentials.value, plan, existing).world.repo.history)
    decreases |paths|
  {
    if paths != [] {
      var files, path := plan.credentials.value, paths[0];
      assert path in files;
      var cf := files[path];
      var cipher := Age(w.books.nonce, plan.recipient, cf.plaintext);
      CallsRespect(plan, w.repo, path, cipher, Lookup(existing, path), ShaOf(cipher));
      var s := UpsertCredentialFile(cfg, w, path, cf, plan.recipient, plan.credRows, existing);
      assert AllRespect(plan, w.repo.history, s.world.repo.history);
      if s.outcome.Done? {
        UpsertCredentialFilesRespect(cfg, s.world, paths[1..], plan, existing);
        RespectTransitive(plan, w.repo.history, s.world.repo.history,
                          UpsertCredentialFiles(cfg, s.world, paths[1..], files, plan, existing).world.repo.history);
      }
    }
  }

  lemma {:induction false} DeleteStaleRespects(w: World, paths: seq<Path>, existing: map<Path, Sha>, plan: Plan)
    requires plan.credentials.Some? && forall q :: q in paths ==> q in existing
    ensures AllRespect(plan, w.repo.history, DeleteStale(w, paths, existing, plan.credentials.value.Keys).world.repo.history)
    decreases |paths|
  {
    if paths != [] {
      var keep, sha := plan.credentials.value.Keys, existing[paths[0]];
      CallsRespect(plan, w.repo, paths[0], BlobOf(sha), None, sha);
      var s := if paths[0] in keep then Step(w, Done) else DeleteOne(w, paths[0], sha);
      if s.outcome.Done? {
        DeleteStaleRespects(s.world, paths[1..], existing, plan);
        RespectTransitive(plan, w.repo.history, s.world.repo.history, DeleteStale(s.world, paths[1..], existing, keep).world.repo.history);
      }
    }
  }

  lemma DefinitionsRespect(cfg: Wiring, w: World, plan: Plan, yaml: map<Path, Sha>)
    requires WellPlanned(plan) && forall q :: q in yaml ==> IsDefinitionPath(q)
    ensures AllRespect(plan, w.repo.history, ConvergeDefinitions(cfg, w, plan, yaml).world.repo.history)
  {
    SortedEnumerates(plan.desired.Keys);
    SortedEnumerates(yaml.Keys);
    UpsertFilesRespect(cfg, w, Sorted(plan.desired.Keys), plan, yaml);
    var s := UpsertFiles(cfg, w, Sorted(plan.desired.Keys), plan, yaml);
    if s.outcome.Done? {
      DeleteStaleRenderedRespects(s.world, Sorted(yaml.Keys), yaml, plan.desired.Keys, plan);
      RespectTransitive(plan, w.repo.history, s.world.repo.history,
                        DeleteStaleRendered(s.world, Sorted(yaml.Keys), yaml, plan.desired.Keys).world.repo.history);
    }
  }

  lemma CredentialsRespect(cfg: Wiring, w: World, plan: Plan, age: map<Path, Sha>)
    requires cfg.ownership && plan.credentials.Some?
    ensures AllRespect(plan, w.repo.history, ConvergeCredentials(cfg, w, plan.credentials.value, plan, age).world.repo.history)
  {
    var files := plan.credentials.value;
    SortedEnumerates(files.Keys);
    SortedEnumerates(age.Keys);
    UpsertCredentialFilesRespect(cfg, w, Sorted(files.Keys), plan, age);
    var s := UpsertCredentialFiles(cfg, w, Sorted(files.Keys), files, plan, age);
    if s.outcome.Done? {
      DeleteStaleRespects(s.world, Sorted(age.Keys), age, plan);
      RespectTransitive(plan, w.repo.history, s.world.repo.history, DeleteStale(s.world, Sorted(age.Keys), age, files.Keys).world.repo.history);
    }
  }

  /** Whatever lands between its calls, a converge respects ownership in every write. */
  lemma ConvergeRespects(cfg: Wiring, w: World, plan: Plan)
    requires cfg.ownership && WellPlanned(plan)
    ensures AllRespect(plan, w.repo.history, Converge(cfg, w, plan).world.repo.history)
  {
    ArriveFrame(w.repo);
    var listed := ListTree(w.repo);
    if listed.result.Ok? {
      var tree, start := listed.result.value, World(listed.repo, w.books);
      DefinitionsRespect(cfg, start, plan, YamlTree(tree));
      var s := ConvergeDefinitions(cfg, start, plan, YamlTree(tree));
      RespectTransitive(plan, w.repo.history, start.repo.history, s.world.repo.history);
      if s.outcome.Done? && plan.credentials.Some? {
        CredentialsRespect(cfg, s.world, plan, AgeTree(tree));
        RespectTransitive(plan, w.repo.history, s.world.repo.history,
                          ConvergeCredentials(cfg, s.world, plan.credentials.value, plan, AgeTree(tree)).world.repo.history);
      }
    }
  }

  // ---- An external file is left alone through whole runs ----

  ghost predicate Unwritten(h: seq<Event>, h': seq<Event>, x: Path) {
    h <= h' && forall i :: |h| <= i < |h'| && IsWrite(h'[i]) ==> h'[i].path != x
  }

  lemma UnwrittenTransitive(a: seq<Event>, b: seq<Event>, c: seq<Event>, x: Path)
    requires Unwritten(a, b, x) && Unwritten(b, c, x)
    ensures Unwritten(a, c, x)
  {
    forall i | |a| <= i < |c| && IsWrite(c[i]) ensures c[i].path != x {
      if i < |b| { assert c[i] == b[i]; }
    }
  }

  ghost predicate IsExternal(b: Books, id: PipelineID) {
    id in b.rows && b.rows[id].credentialsExternal
  }

  /** Pipeline id renders its credential at x, and nobody else does. */
  ghost predicate OwnedAt(env: Env, b: Books, id: PipelineID, x: Path) {
    var ps := Rendered(env, b);
    SlugsDistinct(ps) && exists r :: r in ps && r.id == id && x == AgePath(ps, r)
  }

  ghost predicate AgeReady(env: Env) {
    env.wiring.ownership && env.ageWired && env.ageKey.Some?
  }

  lemma OwnerPlanned(env: Env, b: Books, id: PipelineID, x: Path) returns (r: Pipeline)
    requires TableOk(b) && AgeReady(env) && Renderable(Rendered(env, b)) && OwnedAt(env, b, id, x)
    ensures r in Rendered(env, b) && r.id == id && id in b.rows && r.credentialsExternal == b.rows[id].credentialsExternal
    ensures IsCredentialPath(x) && WellPlanned(MakePlan(env, b, Rendered(env, b)))
    ensures var plan := MakePlan(env, b, Rendered(env, b));
            && plan.credentials.Some? && plan.credRows == b.creds && plan.recipient == env.ageKey.value
            && Lookup(plan.credentials.value, x) == CredentialFileOf(env, b, r)
  {
    var ps := Rendered(env, b);
    RenderedDistinct(env, b);
    PlanIsWellFormed(env, b, ps);
    r :| r in ps && r.id == id && x == AgePath(ps, r);
    PathShapes(FileSlug(ps, r));
    CredentialsAt(env, b, ps, ps, r);
    RenderedRow(env, b, r);
  }

  lemma RespectLeavesExternal(plan: Plan, h: seq<Event>, h': seq<Event>, x: Path)
    requires AllRespect(plan, h, h') && IsCredentialPath(x)
    requires plan.credentials.Some? && x in plan.credentials.value && plan.credentials.value[x].external
    ensures Unwritten(h, h', x)
  {
  }

  lemma SyncLeavesExternal(env: Env, w: World, id: PipelineID, x: Path)
    requires TableOk(w.books) && AgeReady(env) && IsExternal(w.books, id) && OwnedAt(env, w.books, id, x)
    ensures Unwritten(w.repo.history, SyncCustomer(env, w).world.repo.history, x)
    ensures IsExternal(SyncCustomer(env, w).world.books, id)
  {
    SyncEvolves(env, w);
    var ps := Rendered(env, w.books);
    if Renderable(ps) {
      var r := OwnerPlanned(env, w.books, id, x);
      var plan := MakePlan(env, w.books, ps);
      ConvergeRespects(env.wiring, w, plan);
      var s := Converge(env.wiring, w, plan).world;
      ConvergeRespects(env.wiring, s, plan);
      RespectLeavesExternal(plan, w.repo.history, s.repo.history, x);
      RespectLeavesExternal(plan, s.repo.history, Converge(env.wiring, s, plan).world.repo.history, x);
      UnwrittenTransitive(w.repo.history, s.repo.history, Converge(env.wiring, s, plan).world.repo.history, x);
    }
  }

  lemma {:induction false} ImportFilesKeepFlag(env: Env, w: World, paths: seq<Path>, tracked: set<Path>, yaml: map<Path, Sha>,
                                               age: map<Path, Sha>, taken: Taken, id: PipelineID)
    requires IsExternal(w.books, id) && forall p :: p in paths ==> p in yaml
    ensures IsExternal(ImportFiles(env, w, paths, tracked, yaml, age, taken).world.books, id)
    decreases |paths|
  {
    if paths != [] {
      var s := ImportTurn(env, w, paths[0], tracked, yaml, age, taken);
      assert IsExternal(s.world.books, id);
      if s.outcome.Done? { ImportFilesKeepFlag(env, s.world, paths[1..], tracked, yaml, age, s.taken, id); }
    }
  }

  lemma AdoptKeepsFlag(env: Env, w: World, id: PipelineID)
    requires IsExternal(w.books, id)
    ensures IsExternal(AdoptCustomer(env, w).world.books, id)
  {
    var listed := ListTree(w.repo);
    if env.wiring.drift && listed.result.Ok? {
      var yaml, age := YamlTree(listed.result.value), AgeTree(listed.result.value);
      var ps, renders, start := List(w.books), w.books.defs, World(listed.repo, w.books);
      SortedEnumerates(yaml.Keys);
      ImportFilesKeepFlag(env, start, Sorted(yaml.Keys), TrackedPaths(renders), yaml, age, TakenBy(ps), id);
      var s := ImportUnrendered(env, start, ps, renders, yaml, age);
      if s.outcome.Done? {
        AdoptionKeepsFlag(env, s.world, ps, renders, yaml, id);
        var t := AdoptDefinitions(env, s.world, ps, renders, yaml).world;
        FlagForeignKeepsRows(t.books, ps, ps, t.books.creds, age);
      }
    }
  }

  lemma AdoptUnwritten(env: Env, w: World, x: Path)
    ensures Unwritten(w.repo.history, AdoptCustomer(env, w).world.repo.history, x)
  {
    AdoptOnlyReads(env, w);
  }

  /** Through the run id keeps its path and no Console step reclaims its file. */
  ghost predicate NeverReclaimed(env: Env, w: World, ops: seq<Op>, id: PipelineID, x: Path)
    decreases |ops|
  {
    ops != [] ==>
      && (ops[0].SyncOp? ==> OwnedAt(env, w.books, id, x))
      && (ops[0].Console? ==> IsExternal(ops[0].books, id))
      && NeverReclaimed(env, Perform(env, w, ops[0]), ops[1..], id, x)
  }

  /** An external pipeline stays external and its credential file unwritten, whatever the
      run does and whatever others commit. */
  lemma {:induction false} ExternalStaysUnwritten(env: Env, w: World, ops: seq<Op>, id: PipelineID, x: Path)
    requires TablesOk(w, ops) && AgeReady(env) && IsExternal(w.books, id) && NeverReclaimed(env, w, ops, id, x)
    ensures Unwritten(w.repo.history, Run(env, w, ops).repo.history, x) && IsExternal(Run(env, w, ops).books, id)
    decreases |ops|
  {
    if ops != [] {
      var next := Perform(env, w, ops[0]);
      TablesStayOk(env, w, ops);
      match ops[0] {
        case SyncOp => SyncLeavesExternal(env, w, id, x);
        case AdoptOp =>
          AdoptKeepsFlag(env, w, id);
          AdoptUnwritten(env, w, x);
        case Console(_) =>
      }
      ExternalStaysUnwritten(env, next, ops[1..], id, x);
      UnwrittenTransitive(w.repo.history, next.repo.history, Run(env, next, ops[1..]).repo.history, x);
    }
  }

  // ---- Handing over and taking back ----

  /** The tree holds a commit over a tracked credential file that the mirror did not make. */
  ghost predicate HeldByBox(w: World, id: PipelineID, x: Path) {
    id in w.books.creds && x in w.repo.files && ShaOf(w.repo.files[x]) != w.books.creds[id].blob
  }

  /** The credential pipeline id would be served; None when it has none. */
  ghost predicate HasCredential(env: Env, b: Books, id: PipelineID) {
    exists r :: r in Rendered(env, b) && r.id == id && !IsEmptyJson(CredentialOf(b, r))
  }

  lemma ConvergeHandsOver(cfg: Wiring, w: World, plan: Plan, x: Path)
    requires Quiet(w.repo) && WellPlanned(plan) && cfg.ownership && x in w.repo.files && IsCredentialPath(x)
    requires plan.credentials.Some? && x in plan.credentials.value
    requires var cf := plan.credentials.value[x];
             && cf.id in w.books.rows && cf.external == w.books.rows[cf.id].credentialsExternal
             && cf.id in plan.credRows && plan.credRows[cf.id].blob != ShaOf(w.repo.files[x])
    ensures var s := Converge(cfg, w, plan);
            && s.outcome.Done? && Lookup(s.world.repo.files, x) == Lookup(w.repo.files, x)
            && IsExternal(s.world.books, plan.credentials.value[x].id)
  {
    ConvergeReachesPlan(cfg, w, plan);
    ConvergeKeepsBooks(cfg, w, plan);
    assert Lookup(Tree(w.repo.files), x) == Some(ShaOf(w.repo.files[x]));
  }

  /** A foreign commit over a tracked credential file is kept, and the pipeline turns
      external, in one pass over fresh rows. */
  lemma SyncHandsOver(env: Env, w: World, id: PipelineID, x: Path)
    requires Quiet(w.repo) && TableOk(w.books) && AgeReady(env) && Renderable(Rendered(env, w.books))
    requires OwnedAt(env, w.books, id, x) && HasCredential(env, w.books, id) && HeldByBox(w, id, x)
    ensures var s := SyncCustomer(env, w);
            s.outcome.Done? && Lookup(s.world.repo.files, x) == Lookup(w.repo.files, x) && IsExternal(s.world.books, id)
  {
    var ps := Rendered(env, w.books);
    var r := OwnerPlanned(env, w.books, id, x);
    RenderedDistinct(env, w.books);
    var q :| q in ps && q.id == id && !IsEmptyJson(CredentialOf(w.books, q));
    SameIdSamePipeline(ps, q, r);
    SyncIsOneConverge(env, w);
    ConvergeHandsOver(env.wiring, w, MakePlan(env, w.books, ps), x);
  }

  /** reclaimCredentials: the flag cleared and the render row dropped. */
  function Reclaim(env: Env, b: Books, id: PipelineID): Books {
    if !env.wiring.ownership || id !in b.rows then b
    else b.(rows := b.rows[id := b.rows[id].(credentialsExternal := false)], creds := b.creds - {id})
  }

  lemma ConvergeTakesBack(cfg: Wiring, w: World, plan: Plan, x: Path)
    requires Quiet(w.repo) && WellPlanned(plan) && IsCredentialPath(x) && plan.credentials.Some?
    requires x in plan.credentials.value ==>
               var cf := plan.credentials.value[x];
               !cf.external && cf.id in w.books.rows && cf.id !in plan.credRows
    ensures var s := Converge(cfg, w, plan);
            && s.outcome.Done?
            && (if x !in plan.credentials.value then x !in s.world.repo.files
                else
                  var cf, file := plan.credentials.value[x], Lookup(s.world.repo.files, x);
                  Encrypts(file, plan, cf) && cf.id in s.world.books.creds && s.world.books.creds[cf.id].blob == ShaOf(file.value))
  {
    ConvergeReachesPlan(cfg, w, plan);
    ConvergeKeepsBooks(cfg, w, plan);
  }

  /** After a reclaim one undisturbed sync overwrites the file with the stored credential,
      or deletes it when there is none. */
  lemma ReclaimTakesBack(env: Env, w: World, id: PipelineID, x: Path) returns (r: Pipeline)
    requires Quiet(w.repo) && TableOk(w.books) && AgeReady(env) && Renderable(Rendered(env, w.books))
    requires OwnedAt(env, w.books, id, x) && !IsExternal(w.books, id) && id !in w.books.creds
    ensures r in Rendered(env, w.books) && r.id == id
    ensures var s, c := SyncCustomer(env, w), CredentialOf(w.books, r);
            && s.outcome.Done?
            && (if IsEmptyJson(c) then x !in s.world.repo.files
                else
                  var file := Lookup(s.world.repo.files, x);
                  && file.Some? && file.value.Age? && file.value.recipient == env.ageKey.value
                  && file.value.plaintext == env.serve(r.sourceType, c.value)
                  && id in s.world.books.creds && s.world.books.creds[id].blob == ShaOf(file.value))
  {
    r := OwnerPlanned(env, w.books, id, x);
    SyncIsOneConverge(env, w);
    ConvergeTakesBack(env.wiring, w, MakePlan(env, w.books, Rendered(env, w.books)), x);
  }
}
