/** A create that failed and comes back: its definition file may be left in the repository,
    and an adopt pass before the next converge imports it. */
module Resurrection {
  import opened Basics
  import opened Domain
  import opened GitRepo
  import opened Mirror
  import opened Slugs
  import opened Sync
  import opened Adopt
  import opened Syncing
  import opened Adopting
  import opened Passes
  import opened Rebuild
  import opened Saves

  // ---- Which ids a pass imports ----

  /** Read in path order against what the files before it leave free, some file is a
      pipeline with this id, and no earlier one stops the batch. */
  ghost predicate Reaches(env: Env, files: map<Path, Content>, paths: seq<Path>, tracked: set<Path>, taken: Taken, id: PipelineID)
    decreases |paths|
  {
    paths != [] && !Refuses(env, files, paths[0], tracked, taken) &&
      var p := ReadAs(env, files, paths[0], tracked, taken);
      (p.Some? && p.value.id == id) || Reaches(env, files, paths[1..], tracked, TakenWith(taken, p), id)
  }

  /** A row a batch has is a row it keeps. */
  lemma ImportFilesKeepId(env: Env, w: World, paths: seq<Path>, tracked: set<Path>, yaml: map<Path, Sha>,
                          age: map<Path, Sha>, taken: Taken, id: PipelineID)
    requires Quiet(w.repo) && env.wiring.drift && TableOk(w.books) && Covers(taken, w.books)
    requires yaml == YamlTree(Tree(w.repo.files)) && (forall p :: p in paths ==> p in yaml) && id in w.books.rows
    ensures id in ImportFiles(env, w, paths, tracked, yaml, age, taken).world.books.rows
  {
    ImportFilesQuiet(env, w, paths, tracked, yaml, age, taken);
  }

  lemma TurnImportsId(env: Env, w: World, path: Path, tracked: set<Path>, yaml: map<Path, Sha>, age: map<Path, Sha>, taken: Taken, id: PipelineID)
    requires Quiet(w.repo) && env.wiring.drift && TableOk(w.books) && Covers(taken, w.books)
    requires path in yaml && yaml == YamlTree(Tree(w.repo.files)) && id !in w.books.rows
    ensures var s, p := ImportTurn(env, w, path, tracked, yaml, age, taken), ReadAs(env, w.repo.files, path, tracked, taken);
            && (s.outcome.Failed? <==> Refuses(env, w.repo.files, path, tracked, taken))
            && (s.outcome.Failed? ==> id !in s.world.books.rows)
            && (s.outcome.Done? ==> s.taken == TakenWith(taken, p) && (id in s.world.books.rows <==> p.Some? && p.value.id == id))
            && Quiet(s.world.repo) && s.world.repo.files == w.repo.files && TableOk(s.world.books) && Covers(s.taken, s.world.books)
  {
    ImportTurnReads(env, w, path, tracked, yaml, age, taken);
    ImportTurnQuiet(env, w, path, tracked, yaml, age, taken);
  }

  lemma {:induction false} ImportFilesIdIff(env: Env, w: World, paths: seq<Path>, tracked: set<Path>, yaml: map<Path, Sha>,
                                            age: map<Path, Sha>, taken: Taken, id: PipelineID)
    requires Quiet(w.repo) && env.wiring.drift && TableOk(w.books) && Covers(taken, w.books)
    requires yaml == YamlTree(Tree(w.repo.files)) && (forall p :: p in paths ==> p in yaml) && id !in w.books.rows
    ensures id in ImportFiles(env, w, paths, tracked, yaml, age, taken).world.books.rows <==>
            Reaches(env, w.repo.files, paths, tracked, taken, id)
    decreases |paths|
  {
    if paths != [] {
      assert paths[0] in yaml;
      TurnImportsId(env, w, paths[0], tracked, yaml, age, taken, id);
      var s := ImportTurn(env, w, paths[0], tracked, yaml, age, taken);
      if s.outcome.Done? {
        if id in s.world.books.rows {
          ImportFilesKeepId(env, s.world, paths[1..], tracked, yaml, age, s.taken, id);
        } else {
          ImportFilesIdIff(env, s.world, paths[1..], tracked, yaml, age, s.taken, id);
        }
      }
    }
  }

  /** The pass imports id: a matter of the rows and the files before it. */
  ghost predicate Offers(env: Env, w: World, id: PipelineID) {
    env.importer && Reaches(env, w.repo.files, Sorted(YamlFiles(w).Keys), TrackedPaths(w.books.defs), AllTaken(w.books), id)
  }

  lemma PassImportsIff(env: Env, w: World, id: PipelineID)
    requires Ready(env, w) && id !in w.books.rows
    ensures id in AdoptCustomer(env, w).world.books.rows <==> Offers(env, w, id)
  {
    PassKeepsKeys(env, w);
    if env.importer {
      ImportPhaseRuns(env, w);
      TakenCovers(w.books);
      ImportFilesIdIff(env, AfterList(w), Sorted(YamlFiles(w).Keys), TrackedPaths(w.books.defs), YamlFiles(w), AgeFiles(w), AllTaken(w.books), id);
    }
  }

  // ---- A failed create ----

  lemma FailedCreateReady(env: Env, w: World, p: Pipeline, r: Repo)
    requires TableOk(w.books) && p.id !in w.books.rows && CreatePipeline(env, w, p).outcome.Failed? && Quiet(r) && env.wiring.drift
    ensures var s := World(r, CreatePipeline(env, w, p).world.books);
            Ready(env, s) && p.id !in s.books.rows && RowsRestored(w.books, s.books)
  {
    FailedCreateRestoresRows(env, w, p);
    FailedSaveKeepsTable(env, w, Create(p));
  }

  /** A failed create is back after an undisturbed adopt pass, over whatever the repository
      holds by then, if and only if a file with its id is reached. */
  lemma ResurrectedIff(env: Env, w: World, p: Pipeline, r: Repo)
    requires TableOk(w.books) && p.id !in w.books.rows && CreatePipeline(env, w, p).outcome.Failed? && Quiet(r) && env.wiring.drift
    ensures var s := World(r, CreatePipeline(env, w, p).world.books);
            p.id in AdoptCustomer(env, s).world.books.rows <==> Offers(env, s, p.id)
  {
    FailedCreateReady(env, w, p, r);
    PassImportsIff(env, World(r, CreatePipeline(env, w, p).world.books), p.id);
  }

  /** x holds the render of q, and every other definition file is tracked. */
  ghost predicate OnlyLeftover(w: World, x: Path, q: Pipeline)
    requires ConfigFields(q.sourceConfig).Some?
  {
    && x in YamlFiles(w) && w.repo.files[x] == Render(q) && x !in TrackedPaths(w.books.defs)
    && forall y :: y in YamlFiles(w) && y != x ==> y in TrackedPaths(w.books.defs)
  }

  /** What the importer and the table ask of the pipeline itself. */
  ghost predicate Acceptable(env: Env, q: Pipeline)
    requires ConfigFields(q.sourceConfig).Some?
  {
    ValidUuid(q.id) && q.name != "" && env.valid(ReadBack(q).sourceType, ReadBack(q).sourceConfig) && Storable(ReadBack(q))
  }

  lemma LeftoverOffered(env: Env, w: World, x: Path, q: Pipeline)
    requires ConfigFields(q.sourceConfig).Some? && OnlyLeftover(w, x, q) && q.id !in w.books.rows && q.name !in Names(w.books)
    ensures var o := Offered(env, w, x);
            && (o.Some? ==> o.value == ReadBack(q) && FirstOffered(env, w, x))
            && (Acceptable(env, q) <==> o.Some? && Storable(o.value))
            && (o.None? ==> NothingImportable(env, w))
  {
    LexTotal(x, x);
    assert forall y :: y in YamlFiles(w) && y != x ==> Offered(env, w, y).None?;
  }

  /** One untracked file is imported if and only if it is acceptable. */
  lemma LeftoverImportedIff(env: Env, w: World, x: Path, q: Pipeline)
    requires Ready(env, w) && env.importer && ConfigFields(q.sourceConfig).Some? && OnlyLeftover(w, x, q)
    requires q.id !in w.books.rows && q.name !in Names(w.books)
    ensures q.id in AdoptCustomer(env, w).world.books.rows <==> Acceptable(env, q)
  {
    LeftoverOffered(env, w, x, q);
    if Offered(env, w, x).Some? {
      PassImports(env, w, x);
    } else {
      ImportPhase(env, w);
      PassKeepsKeys(env, w);
    }
  }

  lemma CreatedNameFree(env: Env, w: World, p: Pipeline, b': Books)
    requires TableOk(w.books) && CreateRow(w.books, p).Ok? && RowsRestored(w.books, b')
    ensures p.name !in Names(b')
  {
    forall id | id in b'.rows ensures b'.rows[id].name != p.name { assert SameExceptFlag(w.books, b', id); }
  }

  /** If all the failed create left untracked is its own definition, it comes back if and
      only if that definition is acceptable by itself. */
  lemma LeftoverResurrectedIff(env: Env, w: World, p: Pipeline, r: Repo, x: Path, q: Pipeline)
    requires TableOk(w.books) && CreateRow(w.books, p).Ok? && CreatePipeline(env, w, p).outcome.Failed?
    requires Quiet(r) && env.wiring.drift && env.importer && q.id == p.id && q.name == p.name && ConfigFields(q.sourceConfig).Some?
    requires OnlyLeftover(World(r, CreatePipeline(env, w, p).world.books), x, q)
    ensures p.id in AdoptCustomer(env, World(r, CreatePipeline(env, w, p).world.books)).world.books.rows <==> Acceptable(env, q)
  {
    var s := World(r, CreatePipeline(env, w, p).world.books);
    FailedCreateReady(env, w, p, r);
    CreatedNameFree(env, w, p, s.books);
    LeftoverImportedIff(env, s, x, q);
  }

  // ---- Such a create ----

  /** An empty workspace whose box answers two calls and then is down for one. */
  function TwoCalls(): World {
    World(Repo(map[], [], [Turn([], false), Turn([], false), Turn([], true)], {}, true), NO_BOOKS)
  }

  /** A pipeline as the Console sends it, with a config and credentials. */
  ghost predicate Sendable(env: Env, p: Pipeline) {
    && env.wiring.drift && env.importer && env.ageWired && env.ageKey.Some? && env.valid(p.sourceType, p.sourceConfig)
    && StandardUuid(p.id) && p.name != "" && p.sourceType != FILE_UPLOAD && p.sourceType != FILESYSTEM
    && p.sourceConfig.Some? && p.sourceConfig.value.Obj? && p.sourceConfig.value.fields != map[]
    && !IsEmptyJson(p.credentials) && p.enabled && !p.credentialsExternal && p.writeDisposition != ""
  }

  lemma ArriveIdle(r: Repo)
    requires r.schedule != [] && r.schedule[0].edits == []
    ensures Arrive(r) == r.(schedule := r.schedule[1..])
  {
    assert ApplyEdits(r.(schedule := r.schedule[1..]), []) == r.(schedule := r.schedule[1..]);
  }

  lemma SingletonSorted(x: string)
    ensures Sorted({x}) == [x]
  {
    assert First({x}) == x && {x} - {x} == {};
  }

  ghost function DefinitionOf(p: Pipeline): Path {
    var r := p.(credentials := None);
    DefinitionPath(FileSlug([r], r))
  }

  lemma SoleFiles(env: Env, b: Books, r: Pipeline)
    requires ConfigFields(r.sourceConfig).Some? && CredentialFileOf(env, b, r).Some?
    ensures Definitions([r], [r]) == map[DefinitionPath(FileSlug([r], r)) := DefinitionFile(r.id, Render(r))]
    ensures CredentialFiles(env, b, [r], [r]) == map[AgePath([r], r) := CredentialFileOf(env, b, r).value]
  {
    assert [r][..0] == [];
    assert Definitions([r], [r][..0]) == map[];
    assert CredentialFiles(env, b, [r], [r][..0]) == map[];
  }

  lemma SoleCredential(env: Env, p: Pipeline)
    requires !IsEmptyJson(p.credentials) && !p.credentialsExternal
    ensures CredentialFileOf(env, Sole(p).books, p.(credentials := None)) ==
            Some(CredentialFile(p.id, env.serve(p.sourceType, p.credentials.value), false))
  {
  }

  /** The plan of a workspace with p alone: one definition and one credential file. */
  lemma SolePlan(env: Env, p: Pipeline)
    requires Sendable(env, p)
    ensures Renderable(Rendered(env, Sole(p).books))
    ensures var r := p.(credentials := None);
            var plan := MakePlan(env, Sole(p).books, Rendered(env, Sole(p).books));
            && plan.desired == map[DefinitionOf(p) := DefinitionFile(p.id, Render(r))] && plan.credRows == map[]
            && plan.credentials == Some(map[AgePath([r], r) := CredentialFile(p.id, env.serve(p.sourceType, p.credentials.value), false)])
  {
    SoleRendered(env, p);
    SoleCredential(env, p);
    SoleFiles(env, Sole(p).books, p.(credentials := None));
  }

  lemma DefinitionPut(cfg: Wiring, w: World, plan: Plan, x: Path)
    requires w.repo.schedule != [] && w.repo.schedule[0] == Turn([], false) && w.repo.files == map[] && plan.desired.Keys == {x}
    ensures forall p :: p in [x] ==> p in plan.desired
    ensures var s := UpsertFiles(cfg, w, [x], plan, map[]);
            && s.outcome.Done? && s.world.repo.files == map[x := plan.desired[x].content] && s.world.repo.schedule == w.repo.schedule[1..]
            && s.world.books == RecordDefinition(cfg, w.books, plan.desired[x].id, x, ShaOf(plan.desired[x].content))
  {
    ArriveIdle(w.repo);
    var s := UpsertFile(cfg, w, x, plan.desired[x], map[], plan.defRows);
    assert [x][1..] == [];
    assert UpsertFiles(cfg, s.world, [], plan, map[]) == Step(s.world, Done);
  }

  lemma CredentialOutage(cfg: Wiring, w: World, plan: Plan, y: Path, cf: CredentialFile)
    requires w.repo.schedule == [Turn([], true)] && plan.credRows == map[] && !cf.external
    ensures var s := ConvergeCredentials(cfg, w, map[y := cf], plan, map[]);
            && s.outcome == Failed(Unavailable) && Quiet(s.world.repo) && s.world.repo.files == w.repo.files
            && s.world.books == w.books.(nonce := w.books.nonce + 1)
  {
    ArriveIdle(w.repo);
    SingletonSorted(y);
    var files := map[y := cf];
    assert files.Keys == {y};
    var s := UpsertCredentialFile(cfg, w, y, cf, plan.recipient, plan.credRows, map[]);
    assert UpsertCredentialFiles(cfg, w, [y], files, plan, map[]) == s;
  }

  /** The converge writes the definition, and the outage meets the credential file. */
  lemma CutShort(cfg: Wiring, b: Books, plan: Plan, x: Path, y: Path)
    requires plan.desired.Keys == {x} && plan.credRows == map[]
    requires plan.credentials.Some? && plan.credentials.value.Keys == {y} && !plan.credentials.value[y].external
    ensures var s, d := Converge(cfg, World(TwoCalls().repo, b), plan), plan.desired[x];
            && s.outcome == Failed(Unavailable) && Quiet(s.world.repo) && s.world.repo.files == map[x := d.content]
            && s.world.books == RecordDefinition(cfg, b, d.id, x, ShaOf(d.content)).(nonce := b.nonce + 1)
  {
    var w := World(TwoCalls().repo, b);
    ArriveIdle(w.repo);
    var start := World(ListTree(w.repo).repo, b);
    var yaml := YamlTree(Tree(w.repo.files));
    assert yaml == map[] && AgeTree(Tree(w.repo.files)) == map[];
    assert start.repo.schedule == [Turn([], false), Turn([], true)];
    SingletonSorted(x);
    DefinitionPut(cfg, start, plan, x);
    var s := UpsertFiles(cfg, start, [x], plan, map[]);
    assert yaml.Keys == {} && Sorted({}) == [];
    assert ConvergeDefinitions(cfg, start, plan, map[]) == s;
    assert s.world.repo.schedule == [Turn([], true)];
    var files := plan.credentials.value;
    assert files == map[y := files[y]];
    CredentialOutage(cfg, s.world, plan, y, files[y]);
  }

  /** The create fails, the row and its bookkeeping are gone, and the definition stays. */
  lemma CreateCutShort(env: Env, p: Pipeline)
    requires Sendable(env, p)
    ensures var s := CreatePipeline(env, TwoCalls(), p);
            && CreateRow(NO_BOOKS, p).Ok? && s.outcome == Failed(Unavailable) && Quiet(s.world.repo)
            && s.world.repo.files == map[DefinitionOf(p) := Render(p.(credentials := None))]
            && s.world.books.rows == map[] && s.world.books.defs == map[]
  {
    var r, b := p.(credentials := None), Sole(p).books;
    SolePlan(env, p);
    var plan := MakePlan(env, b, Rendered(env, b));
    assert [] + [p.id] == [p.id];
    assert CreateRow(NO_BOOKS, p) == Ok(b);
    CutShort(env.wiring, b, plan, DefinitionOf(p), AgePath([r], r));
    var s := Converge(env.wiring, World(TwoCalls().repo, b), plan);
    assert SyncCustomer(env, World(TwoCalls().repo, b)) == s;
  }

  lemma SendableAcceptable(env: Env, p: Pipeline)
    requires Sendable(env, p)
    ensures Acceptable(env, p.(credentials := None))
  {
    var r := p.(credentials := None);
    assert ReadBack(r) == r;
  }

  /** An adopt pass then brings the failed create back. */
  lemma CutShortComesBack(env: Env, p: Pipeline)
    requires Sendable(env, p)
    ensures var s := CreatePipeline(env, TwoCalls(), p);
            s.outcome.Failed? && p.id !in s.world.books.rows && p.id in AdoptCustomer(env, s.world).world.books.rows
  {
    var s, r, x := CreatePipeline(env, TwoCalls(), p).world, p.(credentials := None), DefinitionOf(p);
    CreateCutShort(env, p);
    PathShapes(FileSlug([r], r));
    assert TrackedPaths(s.books.defs) == {};
    assert OnlyLeftover(s, x, r);
    SendableAcceptable(env, p);
    LeftoverResurrectedIff(env, TwoCalls(), p, s.repo, x, r);
  }
}
