/** Whole runs: syncs, adopt passes and Console changes in any order, under any schedule
    of foreign commits and outages. */
module Runs {
  import opened Basics
  import opened Domain
  import opened GitRepo
  import opened Mirror
  import opened Sync
  import opened Adopt
  import opened Convergence
  import opened Syncing
  import opened Adopting
  import opened Interleaving

  /** One step of a run; a Console step puts the database in any state the user's saves
      and the table's constraints allow. */
  datatype Op = SyncOp | AdoptOp | Console(books: Books)

  ghost function Perform(env: Env, w: World, op: Op): World {
    match op
    case SyncOp => SyncCustomer(env, w).world
    case AdoptOp => AdoptCustomer(env, w).world
    case Console(b) => World(w.repo, b)
  }

  ghost function Run(env: Env, w: World, ops: seq<Op>): World
    decreases |ops|
  {
    if ops == [] then w else Run(env, Perform(env, w, ops[0]), ops[1..])
  }

  ghost predicate TablesOk(w: World, ops: seq<Op>) {
    TableOk(w.books) && forall i :: 0 <= i < |ops| && ops[i].Console? ==> TableOk(ops[i].books)
  }

  lemma TablesStayOk(env: Env, w: World, ops: seq<Op>)
    requires TablesOk(w, ops) && ops != []
    ensures TablesOk(Perform(env, w, ops[0]), ops[1..])
  {
    if ops[0].SyncOp? {
      SyncEvolves(env, w);
      EvolvesKeepsTable(w.books, SyncCustomer(env, w).world.books);
    } else if ops[0].AdoptOp? {
      AdoptKeepsTable(env, w);
    }
  }

  // ---- Every write of a run is justified ----

  lemma {:induction false} RunSound(env: Env, w: World, ops: seq<Op>)
    requires TablesOk(w, ops)
    ensures Sound(w.repo, Run(env, w, ops).repo)
    decreases |ops|
  {
    if ops != [] {
      var next := Perform(env, w, ops[0]);
      TablesStayOk(env, w, ops);
      if ops[0].SyncOp? { SyncSound(env, w); }
      if ops[0].AdoptOp? { AdoptSound(env, w); }
      RunSound(env, next, ops[1..]);
      SoundTogether(w.repo, next.repo, Run(env, next, ops[1..]).repo);
    }
  }

  // ---- A headerless definition nobody asked for survives ----

  /** The file at p is as it was, and the rest of the schedule leaves it alone too. */
  ghost predicate Stays(r: Repo, r': Repo, p: Path) {
    Lookup(r'.files, p) == Lookup(r.files, p) && Untouched(r'.schedule, p)
  }

  lemma CallsElsewhere(r: Repo, p: Path, q: Path, content: Content, guard: Option<Sha>, sha: Sha)
    requires Untouched(r.schedule, p)
    ensures Stays(r, ListTree(r).repo, p) && Stays(r, GetContents(r, q).repo, p)
    ensures q != p ==> Stays(r, PutContents(r, q, content, guard).repo, p) && Stays(r, DeleteContents(r, q, sha).repo, p)
  {
    ArriveElsewhere(r, p);
  }

  lemma UpsertFileStays(cfg: Wiring, w: World, path: Path, df: DefinitionFile, existing: map<Path, Sha>, defRows: map<PipelineID, DefRender>, p: Path)
    requires Untouched(w.repo.schedule, p) && p != path
    ensures Stays(w.repo, UpsertFile(cfg, w, path, df, existing, defRows).world.repo, p)
  {
    CallsElsewhere(w.repo, p, path, df.content, None, ShaOf(df.content));
    var got := GetContents(w.repo, path);
    if got.result.Ok? {
      CallsElsewhere(got.repo, p, path, df.content, Some(ShaOf(got.result.value)), ShaOf(df.content));
    }
  }

  lemma {:induction false} UpsertFilesStay(cfg: Wiring, w: World, paths: seq<Path>, plan: Plan, existing: map<Path, Sha>, p: Path)
    requires Untouched(w.repo.schedule, p) && p !in paths && forall q :: q in paths ==> q in plan.desired
    ensures Stays(w.repo, UpsertFiles(cfg, w, paths, plan, existing).world.repo, p)
    decreases |paths|
  {
    if paths != [] {
      UpsertFileStays(cfg, w, paths[0], plan.desired[paths[0]], existing, plan.defRows, p);
      var s := UpsertFile(cfg, w, paths[0], plan.desired[paths[0]], existing, plan.defRows);
      if s.outcome.Done? { UpsertFilesStay(cfg, s.world, paths[1..], plan, existing, p); }
    }
  }

  lemma {:induction false} DeleteStaleRenderedStays(w: World, paths: seq<Path>, existing: map<Path, Sha>, keep: set<Path>, p: Path)
    requires Untouched(w.repo.schedule, p) && forall q :: q in paths ==> q in existing
    requires p in paths ==> p in w.repo.files && !HasHeader(w.repo.files[p])
    ensures Stays(w.repo, DeleteStaleRendered(w, paths, existing, keep).world.repo, p)
    decreases |paths|
  {
    if paths != [] {
      var path := paths[0];
      var sha := existing[path];
      CallsElsewhere(w.repo, p, path, BlobOf(sha), None, sha);
      var got := GetContents(w.repo, path);
      CallsElsewhere(got.repo, p, path, BlobOf(sha), None, sha);
      var s := if path in keep then Step(w, Done) else DeleteRendered(w, path, sha);
      assert Stays(w.repo, s.world.repo, p);
      if s.outcome.Done? { DeleteStaleRenderedStays(s.world, paths[1..], existing, keep, p); }
    }
  }

  lemma {:induction false} UpsertCredentialFilesStay(cfg: Wiring, w: World, paths: seq<Path>, files: map<Path, CredentialFile>, plan: Plan,
                                                     existing: map<Path, Sha>, p: Path)
    requires Untouched(w.repo.schedule, p) && p !in paths && forall q :: q in paths ==> q in files
    ensures Stays(w.repo, UpsertCredentialFiles(cfg, w, paths, files, plan, existing).world.repo, p)
    decreases |paths|
  {
    if paths != [] {
      var path, cf := paths[0], files[paths[0]];
      var cipher := Age(w.books.nonce, plan.recipient, cf.plaintext);
      CallsElsewhere(w.repo, p, path, cipher, Lookup(existing, path), ShaOf(cipher));
      var s := UpsertCredentialFile(cfg, w, path, cf, plan.recipient, plan.credRows, existing);
      if s.outcome.Done? { UpsertCredentialFilesStay(cfg, s.world, paths[1..], files, plan, existing, p); }
    }
  }

  lemma {:induction false} DeleteStaleStays(w: World, paths: seq<Path>, existing: map<Path, Sha>, keep: set<Path>, p: Path)
    requires Untouched(w.repo.schedule, p) && p !in paths && forall q :: q in paths ==> q in existing
    ensures Stays(w.repo, DeleteStale(w, paths, existing, keep).world.repo, p)
    decreases |paths|
  {
    if paths != [] {
      var sha := existing[paths[0]];
      CallsElsewhere(w.repo, p, paths[0], BlobOf(sha), None, sha);
      var s := if paths[0] in keep then Step(w, Done) else DeleteOne(w, paths[0], sha);
      if s.outcome.Done? { DeleteStaleStays(s.world, paths[1..], existing, keep, p); }
    }
  }

  /** A definition file somebody wrote by hand, where the mirror wants nothing. */
  ghost predicate HandWritten(files: map<Path, Content>, p: Path) {
    IsDefinitionPath(p) && p in files && !HasHeader(files[p])
  }

  /** Not a .yaml or .credentials.age file under pipelines/. */
  ghost predicate Elsewhere(p: Path) {
    "pipelines/" <= p ==> !HasSuffix(p, ".yaml") && !HasSuffix(p, ".credentials.age")
  }

  lemma ConvergeSpares(cfg: Wiring, w: World, plan: Plan, p: Path)
    requires WellPlanned(plan) && Untouched(w.repo.schedule, p)
    requires Elsewhere(p) || (HandWritten(w.repo.files, p) && p !in plan.desired)
    ensures Stays(w.repo, Converge(cfg, w, plan).world.repo, p)
  {
    CallsElsewhere(w.repo, p, p, Junk(false, ""), None, ShaOf(Junk(false, "")));
    var listed := ListTree(w.repo);
    if listed.result.Ok? {
      var tree, start := listed.result.value, World(listed.repo, w.books);
      var yaml, age := YamlTree(tree), AgeTree(tree);
      SortedEnumerates(plan.desired.Keys);
      SortedEnumerates(yaml.Keys);
      UpsertFilesStay(cfg, start, Sorted(plan.desired.Keys), plan, yaml, p);
      var s := UpsertFiles(cfg, start, Sorted(plan.desired.Keys), plan, yaml);
      if s.outcome.Done? {
        DeleteStaleRenderedStays(s.world, Sorted(yaml.Keys), yaml, plan.desired.Keys, p);
        var t := DeleteStaleRendered(s.world, Sorted(yaml.Keys), yaml, plan.desired.Keys);
        if t.outcome.Done? && plan.credentials.Some? { CredentialsSpare(cfg, t.world, plan, age, p); }
      }
    }
  }

  lemma CredentialsSpare(cfg: Wiring, w: World, plan: Plan, age: map<Path, Sha>, p: Path)
    requires WellPlanned(plan) && plan.credentials.Some? && Untouched(w.repo.schedule, p)
    requires !IsCredentialPath(p) && forall q :: q in age ==> IsCredentialPath(q)
    ensures Stays(w.repo, ConvergeCredentials(cfg, w, plan.credentials.value, plan, age).world.repo, p)
  {
    var files := plan.credentials.value;
    SortedEnumerates(files.Keys);
    SortedEnumerates(age.Keys);
    UpsertCredentialFilesStay(cfg, w, Sorted(files.Keys), files, plan, age, p);
    var s := UpsertCredentialFiles(cfg, w, Sorted(files.Keys), files, plan, age);
    if s.outcome.Done? { DeleteStaleStays(s.world, Sorted(age.Keys), age, files.Keys, p); }
  }

  ghost predicate Desires(env: Env, b: Books, p: Path) {
    Renderable(Rendered(env, b)) && p in Definitions(Rendered(env, b), Rendered(env, b))
  }

  lemma SyncSpares(env: Env, w: World, p: Path)
    requires TableOk(w.books) && Untouched(w.repo.schedule, p)
    requires Elsewhere(p) || (HandWritten(w.repo.files, p) && !Desires(env, w.books, p))
    ensures Stays(w.repo, SyncCustomer(env, w).world.repo, p)
  {
    var ps := Rendered(env, w.books);
    if Renderable(ps) {
      var plan := MakePlan(env, w.books, ps);
      RenderedDistinct(env, w.books);
      PlanIsWellFormed(env, w.books, ps);
      ConvergeSpares(env.wiring, w, plan, p);
      var s := Converge(env.wiring, w, plan);
      if s.outcome == Failed(FileChanged) { ConvergeSpares(env.wiring, s.world, plan, p); }
    }
  }

  lemma {:induction false} AdoptDefinitionsStay(env: Env, w: World, ps: seq<Pipeline>, renders: map<PipelineID, DefRender>, yaml: map<Path, Sha>, p: Path)
    requires Untouched(w.repo.schedule, p)
    ensures Stays(w.repo, AdoptDefinitions(env, w, ps, renders, yaml).world.repo, p)
    decreases |ps|
  {
    if ps != [] {
      var row := Lookup(renders, ps[0].id);
      if row.Some? { CallsElsewhere(w.repo, p, row.value.path, Junk(false, ""), None, row.value.blob); }
      var s := AdoptDefinition(env, w, ps[0], renders, yaml);
      if s.outcome.Done? { AdoptDefinitionsStay(env, s.world, ps[1..], renders, yaml, p); }
    }
  }

  lemma {:induction false} ImportFilesStay(env: Env, w: World, paths: seq<Path>, tracked: set<Path>, yaml: map<Path, Sha>,
                                           age: map<Path, Sha>, taken: Taken, p: Path)
    requires Untouched(w.repo.schedule, p) && forall q :: q in paths ==> q in yaml
    ensures Stays(w.repo, ImportFiles(env, w, paths, tracked, yaml, age, taken).world.repo, p)
    decreases |paths|
  {
    if paths != [] {
      CallsElsewhere(w.repo, p, paths[0], Junk(false, ""), None, yaml[paths[0]]);
      var s := ImportTurn(env, w, paths[0], tracked, yaml, age, taken);
      if s.outcome.Done? { ImportFilesStay(env, s.world, paths[1..], tracked, yaml, age, s.taken, p); }
    }
  }

  lemma AdoptSpares(env: Env, w: World, p: Path)
    requires Untouched(w.repo.schedule, p)
    ensures Stays(w.repo, AdoptCustomer(env, w).world.repo, p)
  {
    CallsElsewhere(w.repo, p, p, Junk(false, ""), None, ShaOf(Junk(false, "")));
    var listed := ListTree(w.repo);
    if env.wiring.drift && listed.result.Ok? {
      var yaml, age := YamlTree(listed.result.value), AgeTree(listed.result.value);
      var ps, renders, start := List(w.books), w.books.defs, World(listed.repo, w.books);
      SortedEnumerates(yaml.Keys);
      ImportFilesStay(env, start, Sorted(yaml.Keys), TrackedPaths(renders), yaml, age, TakenBy(ps), p);
      var s := ImportUnrendered(env, start, ps, renders, yaml, age);
      if s.outcome.Done? { AdoptDefinitionsStay(env, s.world, ps, renders, yaml, p); }
    }
  }

  /** No sync of the run wants a file at p. */
  ghost predicate NeverDesired(env: Env, w: World, ops: seq<Op>, p: Path)
    decreases |ops|
  {
    ops != [] ==>
      && (ops[0].SyncOp? ==> !Desires(env, w.books, p))
      && NeverDesired(env, Perform(env, w, ops[0]), ops[1..], p)
  }

  /** A headerless definition file where no sync wants one survives every run. */
  lemma {:induction false} HeaderlessSurvives(env: Env, w: World, ops: seq<Op>, p: Path)
    requires TablesOk(w, ops) && NeverDesired(env, w, ops, p)
    requires HandWritten(w.repo.files, p) && Untouched(w.repo.schedule, p)
    ensures Lookup(Run(env, w, ops).repo.files, p) == Lookup(w.repo.files, p)
    decreases |ops|
  {
    if ops != [] {
      TablesStayOk(env, w, ops);
      match ops[0] {
        case SyncOp => SyncSpares(env, w, p);
        case AdoptOp => AdoptSpares(env, w, p);
        case Console(_) =>
      }
      HeaderlessSurvives(env, Perform(env, w, ops[0]), ops[1..], p);
    }
  }

  /** So does, over every run, whatever lies outside the two kinds of files the mirror keeps. */
  lemma {:induction false} ElsewhereSurvives(env: Env, w: World, ops: seq<Op>, p: Path)
    requires TablesOk(w, ops) && Elsewhere(p) && Untouched(w.repo.schedule, p)
    ensures Lookup(Run(env, w, ops).repo.files, p) == Lookup(w.repo.files, p)
    decreases |ops|
  {
    if ops != [] {
      TablesStayOk(env, w, ops);
      match ops[0] {
        case SyncOp => SyncSpares(env, w, p);
        case AdoptOp => AdoptSpares(env, w, p);
        case Console(_) =>
      }
      ElsewhereSurvives(env, Perform(env, w, ops[0]), ops[1..], p);
    }
  }
}
