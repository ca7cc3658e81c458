/** Rebuilding the database from the repository: what a converge into an empty
    repository leaves there, what hydration into an empty database makes of it, and what
    the next converge then still has to write. */
module Rebuild {
  import opened Basics
  import opened Domain
  import opened FileDrop
  import opened GitRepo
  import opened Mirror
  import opened Slugs
  import opened Sync
  import opened Adopt
  import opened FixedPoint
  import opened Convergence
  import opened Syncing
  import opened Adopting
  import opened Passes
  import opened Stalling

  // ---- Paths ----

  function DefPath(ps: seq<Pipeline>, r: Pipeline): Path {
    DefinitionPath(FileSlug(ps, r))
  }

  lemma PathsInjective(a: string, b: string)
    ensures DefinitionPath(a) == DefinitionPath(b) ==> a == b
    ensures CredentialPath(a) == CredentialPath(b) ==> a == b
  {
    assert a == DefinitionPath(a)[10..|DefinitionPath(a)| - 5] && b == DefinitionPath(b)[10..|DefinitionPath(b)| - 5];
    assert a == CredentialPath(a)[10..|CredentialPath(a)| - 16] && b == CredentialPath(b)[10..|CredentialPath(b)| - 16];
  }

  lemma CredentialBesideDefinition(slug: string)
    ensures CredentialPathFor(DefinitionPath(slug)) == CredentialPath(slug)
  {
    SuffixOfConcat("pipelines/" + slug, ".yaml");
    assert DefinitionPath(slug)[..|DefinitionPath(slug)| - 5] == "pipelines/" + slug;
  }

  /** A list whose files do not collide. */
  ghost predicate Separate(ps: seq<Pipeline>) {
    DistinctIds(ps) && SlugsDistinct(ps)
  }

  lemma SamePathSamePipeline(ps: seq<Pipeline>, p: Pipeline, q: Pipeline)
    requires Separate(ps) && p in ps && q in ps && (DefPath(ps, p) == DefPath(ps, q) || AgePath(ps, p) == AgePath(ps, q))
    ensures p == q
  {
    PathsInjective(FileSlug(ps, p), FileSlug(ps, q));
    SameIdSamePipeline(ps, p, q);
  }

  lemma {:induction false} DefinitionsAt(all: seq<Pipeline>, ps: seq<Pipeline>, r: Pipeline)
    requires Separate(all) && Renderable(ps) && r in ps && forall p :: p in ps ==> p in all
    ensures Lookup(Definitions(all, ps), DefPath(all, r)) == Some(DefinitionFile(r.id, Render(r)))
  {
    var last := ps[|ps| - 1];
    assert last in ps;
    if DefPath(all, last) == DefPath(all, r) {
      SamePathSamePipeline(all, last, r);
    } else {
      DefinitionsAt(all, ps[..|ps| - 1], r);
    }
  }

  lemma {:induction false} CredentialsAt(env: Env, b: Books, all: seq<Pipeline>, ps: seq<Pipeline>, r: Pipeline)
    requires Separate(all) && r in all && forall p :: p in ps ==> p in all
    ensures Lookup(CredentialFiles(env, b, all, ps), AgePath(all, r)) == if r in ps then CredentialFileOf(env, b, r) else None
  {
    if ps != [] {
      var front, last := ps[..|ps| - 1], ps[|ps| - 1];
      assert ps == front + [last];
      CredentialsAt(env, b, all, front, r);
      if AgePath(all, last) == AgePath(all, r) { SamePathSamePipeline(all, last, r); }
    }
  }

  // ---- A converge into an empty repository ----

  ghost predicate WritesAge(env: Env, b: Books, r: Pipeline) {
    env.ageWired && env.ageKey.Some? && !r.credentialsExternal && !IsEmptyJson(CredentialOf(b, r))
  }

  ghost predicate HasOwner(ps: seq<Pipeline>, p: Path) {
    exists r :: r in ps && p == DefPath(ps, r)
  }

  ghost predicate HasCredentialOwner(ps: seq<Pipeline>, p: Path) {
    exists r :: r in ps && p == AgePath(ps, r)
  }

  /** The repository holds exactly the renders of ps. */
  ghost predicate DefinitionsMirrored(ps: seq<Pipeline>, files: map<Path, Content>)
    requires Renderable(ps)
  {
    && (forall r :: r in ps ==> Lookup(files, DefPath(ps, r)) == Some(Render(r)))
    && (forall p :: p in files && IsDefinitionPath(p) ==> HasOwner(ps, p))
  }

  ghost predicate CredentialsMirrored(env: Env, b: Books, ps: seq<Pipeline>, files: map<Path, Content>) {
    && (forall r :: r in ps ==> (AgePath(ps, r) in files <==> WritesAge(env, b, r)))
    && (forall p :: p in files && IsCredentialPath(p) ==> HasCredentialOwner(ps, p))
  }

  /** What rebuilding starts from. */
  ghost predicate Mirrorable(env: Env, w: World) {
    && Quiet(w.repo) && w.repo.files == map[] && TableOk(w.books)
    && Renderable(Rendered(env, w.books)) && SlugsDistinct(Rendered(env, w.books))
  }

  lemma SyncIntoEmpty(env: Env, w: World)
    requires Mirrorable(env, w)
    ensures var s := SyncCustomer(env, w);
            && s.outcome.Done? && Quiet(s.world.repo)
            && DefinitionsMirrored(Rendered(env, w.books), s.world.repo.files)
            && CredentialsMirrored(env, w.books, Rendered(env, w.books), s.world.repo.files)
  {
    var b, ps := w.books, Rendered(env, w.books);
    var plan, files := MakePlan(env, b, ps), SyncCustomer(env, w).world.repo.files;
    RenderedDistinct(env, b);
    PlanIsWellFormed(env, b, ps);
    SyncIsOneConverge(env, w);
    ConvergeReachesPlan(env.wiring, w, plan);
    forall r | r in ps ensures Lookup(files, DefPath(ps, r)) == Some(Render(r)) {
      PathShapes(FileSlug(ps, r));
      DefinitionsAt(ps, ps, r);
      assert Lookup(files, DefPath(ps, r)) == DefinitionGoal(plan, w.repo.files, DefPath(ps, r));
    }
    forall p | p in files && IsDefinitionPath(p) ensures HasOwner(ps, p) {
      assert Lookup(files, p) == DefinitionGoal(plan, w.repo.files, p);
      var r := DefinitionOwner(ps, ps, p);
    }
    CredentialsIntoEmpty(env, w);
  }

  lemma CredentialsIntoEmpty(env: Env, w: World)
    requires Mirrorable(env, w)
    ensures CredentialsMirrored(env, w.books, Rendered(env, w.books), SyncCustomer(env, w).world.repo.files)
  {
    var b, ps := w.books, Rendered(env, w.books);
    var plan, files := MakePlan(env, b, ps), SyncCustomer(env, w).world.repo.files;
    RenderedDistinct(env, b);
    PlanIsWellFormed(env, b, ps);
    SyncIsOneConverge(env, w);
    ConvergeReachesPlan(env.wiring, w, plan);
    forall r | r in ps ensures AgePath(ps, r) in files <==> WritesAge(env, b, r) {
      PathShapes(FileSlug(ps, r));
      CredentialsAt(env, b, ps, ps, r);
    }
    if env.ageWired && env.ageKey.Some? {
      forall p | p in files && IsCredentialPath(p) ensures HasCredentialOwner(ps, p) {
        var r := CredentialOwner(env, b, ps, ps, p);
      }
    } else {
      assert forall p :: IsCredentialPath(p) ==> Lookup(files, p) == None;
    }
  }

  // ---- Hydrating an empty database ----

  /** The pipeline a rendered file parses back to. */
  function ReadBack(r: Pipeline): Pipeline
    requires ConfigFields(r.sourceConfig).Some?
  {
    Restore(FromFile(r.id, Render(r).file))
  }

  /** The row hydration makes of it; `external` when a credential file lies beside it. */
  function HydratedRow(r: Pipeline, external: bool): Pipeline
    requires ConfigFields(r.sourceConfig).Some?
  {
    ReadBack(r).(credentials := Some(EMPTY_OBJECT), credentialsExternal := external)
  }

  ghost predicate Importable(env: Env, r: Pipeline)
    requires ConfigFields(r.sourceConfig).Some?
  {
    StandardUuid(r.id) && r.name != "" && env.valid(ReadBack(r).sourceType, ReadBack(r).sourceConfig)
  }

  /** A pipeline that renders a source_config can be stored again; one that renders none
      reads back without a config, which the table refuses. */
  lemma StorableIff(env: Env, r: Pipeline)
    requires ConfigFields(r.sourceConfig).Some? && Importable(env, r)
    ensures Storable(ReadBack(r)) <==> !IsEmptyJson(r.sourceConfig)
  {
  }

  /** Everything hydration needs of the rendered list. */
  ghost predicate Restorable(env: Env, ps: seq<Pipeline>) {
    && Separate(ps) && Renderable(ps)
    && (forall p :: p in ps ==> Importable(env, p))
    && (forall p, q :: p in ps && q in ps && p.id != q.id ==> p.name != q.name)
  }

  /** No pending file's id or name is taken. */
  ghost predicate StillFree(ps: seq<Pipeline>, paths: seq<Path>, taken: Taken) {
    forall r :: r in ps && DefPath(ps, r) in paths ==> r.id !in taken.ids && r.name !in taken.names
  }

  ghost predicate Hydrating(env: Env, w: World, ps: seq<Pipeline>, paths: seq<Path>, yaml: map<Path, Sha>, taken: Taken) {
    && Quiet(w.repo) && env.wiring.drift && TableOk(w.books) && Covers(taken, w.books)
    && yaml == YamlTree(Tree(w.repo.files)) && NoDuplicates(paths) && (forall p :: p in paths ==> p in yaml)
    && Restorable(env, ps) && DefinitionsMirrored(ps, w.repo.files) && StillFree(ps, paths, taken)
  }

  lemma OwnerOf(ps: seq<Pipeline>, files: map<Path, Content>, p: Path) returns (r: Pipeline)
    requires Renderable(ps) && DefinitionsMirrored(ps, files) && p in YamlTree(Tree(files))
    ensures r in ps && p == DefPath(ps, r) && files[p] == Render(r)
  {
    assert HasOwner(ps, p);
    r :| r in ps && p == DefPath(ps, r);
    assert Lookup(files, p) == Some(Render(r));
  }

  lemma RenderReadsBack(env: Env, r: Pipeline, taken: Taken)
    requires ConfigFields(r.sourceConfig).Some? && Importable(env, r) && r.id !in taken.ids && r.name !in taken.names
    ensures ParseImportable(env, Render(r), taken.ids, taken.names) == Some(ReadBack(r))
    ensures ReadBack(r).id == r.id && ReadBack(r).name == r.name
  {
  }

  lemma FreeTail(env: Env, ps: seq<Pipeline>, paths: seq<Path>, taken: Taken, r: Pipeline)
    requires Restorable(env, ps) && NoDuplicates(paths) && StillFree(ps, paths, taken)
    requires paths != [] && r in ps && paths[0] == DefPath(ps, r)
    ensures StillFree(ps, paths[1..], Taken(taken.ids + {r.id}, taken.names + {r.name}))
    ensures NoDuplicates(paths[1..])
  {
    forall q | q in ps && DefPath(ps, q) in paths[1..]
      ensures q.id !in taken.ids + {r.id} && q.name !in taken.names + {r.name}
    {
      assert DefPath(ps, q) != paths[0];
      if q.id == r.id { SameIdSamePipeline(ps, q, r); }
    }
  }

  /** One file's turn: hydrated, or refused with nothing changed. */
  lemma HydrateOne(env: Env, w: World, ps: seq<Pipeline>, paths: seq<Path>, yaml: map<Path, Sha>, age: map<Path, Sha>, taken: Taken)
    returns (r: Pipeline)
    requires Hydrating(env, w, ps, paths, yaml, taken) && paths != []
    ensures r in ps && paths[0] == DefPath(ps, r)
    ensures var s := ImportTurn(env, w, paths[0], {}, yaml, age, taken);
            if IsEmptyJson(r.sourceConfig) then s.outcome == Failed(NotStorable) && s.world.books == w.books
            else
              && s.outcome.Done? && s.world.repo.files == w.repo.files
              && Hydrating(env, s.world, ps, paths[1..], yaml, s.taken)
              && Hydrates(env, w.books, s.world.books, ReadBack(r), paths[0], yaml[paths[0]], AgePath(ps, r) in age)
  {
    var path := paths[0];
    assert path in yaml;
    r := OwnerOf(ps, w.repo.files, path);
    RenderReadsBack(env, r, taken);
    StorableIff(env, r);
    CredentialBesideDefinition(FileSlug(ps, r));
    FreeTail(env, ps, paths, taken, r);
    ImportFileQuiet(env, w, path, age, taken);
    TailListed(paths, yaml);
  }

  lemma TailListed(paths: seq<Path>, yaml: map<Path, Sha>)
    requires paths != [] && forall p :: p in paths ==> p in yaml
    ensures forall p :: p in paths[1..] ==> p in yaml
  {
  }

  ghost predicate Hydratee(ps: seq<Pipeline>, paths: seq<Path>, id: PipelineID) {
    exists r :: r in ps && DefPath(ps, r) in paths && r.id == id
  }

  lemma HydratesElsewhere(env: Env, b: Books, b': Books, p: Pipeline, path: Path, sha: Sha, external: bool, id: PipelineID)
    requires Hydrates(env, b, b', p, path, sha, external) && id != p.id
    ensures SameRowAt(b, b', id)
  {
  }

  lemma SkippedTail(ps: seq<Pipeline>, paths: seq<Path>, r: Pipeline, id: PipelineID)
    requires paths != [] && r in ps && paths[0] == DefPath(ps, r) && !Hydratee(ps, paths, id)
    ensures r.id != id && !Hydratee(ps, paths[1..], id)
  {
    assert DefPath(ps, r) in paths;
    assert forall p :: p in paths[1..] ==> p in paths;
  }

  /** Rows other than those of the files read stay as they are, and no others appear. */
  lemma {:induction false} HydrateFrame(env: Env, w: World, ps: seq<Pipeline>, paths: seq<Path>, yaml: map<Path, Sha>, age: map<Path, Sha>,
                                        taken: Taken, id: PipelineID)
    requires Hydrating(env, w, ps, paths, yaml, taken) && !Hydratee(ps, paths, id)
    ensures SameRowAt(w.books, ImportFiles(env, w, paths, {}, yaml, age, taken).world.books, id)
    decreases |paths|
  {
    if paths != [] {
      var r := HydrateOne(env, w, ps, paths, yaml, age, taken);
      var s := ImportTurn(env, w, paths[0], {}, yaml, age, taken);
      SkippedTail(ps, paths, r, id);
      if s.outcome.Done? {
        HydratesElsewhere(env, w.books, s.world.books, ReadBack(r), paths[0], yaml[paths[0]], AgePath(ps, r) in age, id);
        HydrateFrame(env, s.world, ps, paths[1..], yaml, age, s.taken, id);
      }
    }
  }

  /** No later file of the batch belongs to the pipeline of the first. */
  lemma ReadOnce(ps: seq<Pipeline>, paths: seq<Path>, r: Pipeline)
    requires DistinctIds(ps) && NoDuplicates(paths) && paths != [] && r in ps && paths[0] == DefPath(ps, r)
    ensures !Hydratee(ps, paths[1..], r.id)
  {
    forall q | q in ps && DefPath(ps, q) in paths[1..] ensures q.id != r.id {
      if q.id == r.id { SameIdSamePipeline(ps, q, r); }
    }
  }

  /** A file the batch reads becomes its row, if the batch gets that far. */
  lemma {:induction false} HydrateAt(env: Env, w: World, ps: seq<Pipeline>, paths: seq<Path>, yaml: map<Path, Sha>, age: map<Path, Sha>,
                                     taken: Taken, r: Pipeline)
    requires Hydrating(env, w, ps, paths, yaml, taken) && r in ps && DefPath(ps, r) in paths
    ensures var s := ImportFiles(env, w, paths, {}, yaml, age, taken);
            var b' := s.world.books;
            && (s.outcome.Done? ==> r.id in b'.rows)
            && (r.id in b'.rows ==>
                  && Lookup(b'.rows, r.id) == Some(HydratedRow(r, AgePath(ps, r) in age))
                  && Lookup(b'.defs, r.id) == Some(DefRender(DefPath(ps, r), yaml[DefPath(ps, r)], None)))
    decreases |paths|
  {
    var r0 := HydrateOne(env, w, ps, paths, yaml, age, taken);
    var s := ImportTurn(env, w, paths[0], {}, yaml, age, taken);
    assert r.id !in w.books.rows;
    if s.outcome.Done? {
      if DefPath(ps, r) == paths[0] {
        SamePathSamePipeline(ps, r, r0);
        ReadOnce(ps, paths, r);
        HydrateFrame(env, s.world, ps, paths[1..], yaml, age, s.taken, r.id);
      } else {
        HydrateAt(env, s.world, ps, paths[1..], yaml, age, s.taken, r);
      }
    }
  }

  ghost predicate ConfiguredAt(ps: seq<Pipeline>, paths: seq<Path>) {
    forall r :: r in ps && DefPath(ps, r) in paths ==> !IsEmptyJson(r.sourceConfig)
  }

  lemma ConfiguredCons(ps: seq<Pipeline>, paths: seq<Path>, r: Pipeline)
    requires Separate(ps) && paths != [] && r in ps && paths[0] == DefPath(ps, r)
    ensures ConfiguredAt(ps, paths) <==> !IsEmptyJson(r.sourceConfig) && ConfiguredAt(ps, paths[1..])
  {
    assert DefPath(ps, r) in paths;
    assert forall p :: p in paths <==> p == paths[0] || p in paths[1..];
    forall q | q in ps && DefPath(ps, q) == paths[0] ensures q == r { SamePathSamePipeline(ps, q, r); }
  }

  /** Of files that are all free to import, exactly those without a config stop the batch. */
  lemma {:induction false} StopsUnlessConfigured(env: Env, files: map<Path, Content>, ps: seq<Pipeline>, paths: seq<Path>, taken: Taken)
    requires Restorable(env, ps) && DefinitionsMirrored(ps, files) && NoDuplicates(paths) && StillFree(ps, paths, taken)
    requires forall p :: p in paths ==> p in YamlTree(Tree(files))
    ensures Stops(env, files, paths, {}, taken) <==> !ConfiguredAt(ps, paths)
    decreases |paths|
  {
    if paths != [] {
      assert paths[0] in YamlTree(Tree(files));
      var r := OwnerOf(ps, files, paths[0]);
      RenderReadsBack(env, r, taken);
      StorableIff(env, r);
      StopsTail(env, files, paths, {}, taken);
      ConfiguredCons(ps, paths, r);
      FreeTail(env, ps, paths, taken, r);
      TailListed(paths, YamlTree(Tree(files)));
      StopsUnlessConfigured(env, files, ps, paths[1..], TakenWith(taken, Some(ReadBack(r))));
    }
  }

  /** The batch completes exactly when every file it reads has a config. */
  lemma HydrateEndsIff(env: Env, w: World, ps: seq<Pipeline>, paths: seq<Path>, yaml: map<Path, Sha>, age: map<Path, Sha>, taken: Taken)
    requires Hydrating(env, w, ps, paths, yaml, taken)
    ensures ImportFiles(env, w, paths, {}, yaml, age, taken).outcome.Done? <==> ConfiguredAt(ps, paths)
  {
    ImportFilesStopIff(env, w, paths, {}, yaml, age, taken);
    StopsUnlessConfigured(env, w.repo.files, ps, paths, taken);
  }

  const NO_BOOKS := Books(map[], [], map[], map[], [], 0)

  ghost function Ids(ps: seq<Pipeline>): set<PipelineID> {
    set r | r in ps :: r.id
  }

  /** The row and render row of r are those its files give. */
  ghost predicate RebuiltAt(ps: seq<Pipeline>, files: map<Path, Content>, b: Books, r: Pipeline)
    requires ConfigFields(r.sourceConfig).Some?
  {
    && Lookup(b.rows, r.id) == Some(HydratedRow(r, AgePath(ps, r) in files))
    && Lookup(b.defs, r.id) == Some(DefRender(DefPath(ps, r), ShaOf(Render(r)), None))
  }

  /** Rows of rendered pipelines only, each in step with its file. */
  ghost predicate PartlyRebuilt(ps: seq<Pipeline>, files: map<Path, Content>, b: Books)
    requires Renderable(ps)
  {
    && TableOk(b) && b.rows.Keys <= Ids(ps) && b.creds == map[]
    && forall r :: r in ps && r.id in b.rows ==> RebuiltAt(ps, files, b, r)
  }

  /** ... and one for every rendered pipeline. */
  ghost predicate Rebuilt(ps: seq<Pipeline>, files: map<Path, Content>, b: Books)
    requires Renderable(ps)
  {
    PartlyRebuilt(ps, files, b) && Ids(ps) <= b.rows.Keys
  }

  lemma HydrateEach(env: Env, w: World, ps: seq<Pipeline>, paths: seq<Path>, yaml: map<Path, Sha>, age: map<Path, Sha>, taken: Taken, r: Pipeline)
    requires Hydrating(env, w, ps, paths, yaml, taken) && age == AgeTree(Tree(w.repo.files))
    requires (forall p :: p in yaml ==> p in paths) && r in ps
    ensures var s := ImportFiles(env, w, paths, {}, yaml, age, taken);
            && DefPath(ps, r) in paths && (s.outcome.Done? ==> r.id in s.world.books.rows)
            && (r.id in s.world.books.rows ==> RebuiltAt(ps, w.repo.files, s.world.books, r))
  {
    PathShapes(FileSlug(ps, r));
    assert Lookup(w.repo.files, DefPath(ps, r)) == Some(Render(r));
    assert DefPath(ps, r) in yaml;
    HydrateAt(env, w, ps, paths, yaml, age, taken, r);
  }

  lemma HydrateOnly(env: Env, w: World, ps: seq<Pipeline>, paths: seq<Path>, yaml: map<Path, Sha>, age: map<Path, Sha>, taken: Taken, id: PipelineID)
    requires Hydrating(env, w, ps, paths, yaml, taken) && w.books == NO_BOOKS
    ensures id in ImportFiles(env, w, paths, {}, yaml, age, taken).world.books.rows ==> id in Ids(ps)
  {
    if !Hydratee(ps, paths, id) { HydrateFrame(env, w, ps, paths, yaml, age, taken, id); }
  }

  lemma HydrateAll(env: Env, w: World, ps: seq<Pipeline>, paths: seq<Path>, yaml: map<Path, Sha>, age: map<Path, Sha>, taken: Taken)
    requires Hydrating(env, w, ps, paths, yaml, taken) && w.books == NO_BOOKS && age == AgeTree(Tree(w.repo.files))
    requires forall p :: p in yaml ==> p in paths
    ensures var s := ImportFiles(env, w, paths, {}, yaml, age, taken);
            && PartlyRebuilt(ps, w.repo.files, s.world.books) && (s.outcome.Done? ==> Rebuilt(ps, w.repo.files, s.world.books))
            && (s.outcome.Done? <==> forall r :: r in ps ==> !IsEmptyJson(r.sourceConfig))
  {
    var s := ImportFiles(env, w, paths, {}, yaml, age, taken);
    var b := s.world.books;
    ImportFilesQuiet(env, w, paths, {}, yaml, age, taken);
    HydrateEndsIff(env, w, ps, paths, yaml, age, taken);
    forall r | r in ps
      ensures DefPath(ps, r) in paths && (s.outcome.Done? ==> r.id in b.rows)
      ensures r.id in b.rows ==> RebuiltAt(ps, w.repo.files, b, r)
    {
      HydrateEach(env, w, ps, paths, yaml, age, taken, r);
    }
    forall id | id in b.rows ensures id in Ids(ps) { HydrateOnly(env, w, ps, paths, yaml, age, taken, id); }
  }

  /** Hydrating an empty database completes exactly when every rendered pipeline has a
      config; until it stops it makes one row per file, in step with it. */
  lemma HydrateEmpty(env: Env, w: World, ps: seq<Pipeline>)
    requires Quiet(w.repo) && env.wiring.drift && env.importer && w.books == NO_BOOKS
    requires Restorable(env, ps) && DefinitionsMirrored(ps, w.repo.files)
    ensures var s := AfterImport(env, w);
            && PartlyRebuilt(ps, w.repo.files, s.world.books) && (s.outcome.Done? ==> Rebuilt(ps, w.repo.files, s.world.books))
            && (s.outcome.Done? <==> forall r :: r in ps ==> !IsEmptyJson(r.sourceConfig))
  {
    var yaml, taken := YamlFiles(w), TakenBy(List(w.books));
    assert List(w.books) == [];
    assert taken == Taken({}, {});
    assert TrackedPaths(w.books.defs) == {};
    SortedEnumerates(yaml.Keys);
    TakenCovers(w.books);
    HydrateAll(env, AfterList(w), ps, Sorted(yaml.Keys), yaml, AgeFiles(w), taken);
  }

  /** With no rows listed, hydration is all an adopt pass does. */
  lemma EmptyPassOnlyHydrates(env: Env, w: World)
    requires Quiet(w.repo) && env.wiring.drift && w.books == NO_BOOKS
    ensures Ready(env, w) && AdoptCustomer(env, w).outcome == AfterImport(env, w).outcome
    ensures AdoptCustomer(env, w).world == AfterImport(env, w).world
    ensures AfterImport(env, w).world.repo.files == w.repo.files && Quiet(AfterImport(env, w).world.repo)
    ensures AfterImport(env, w).outcome.Failed? ==> AfterImport(env, w).outcome.error == NotStorable
  {
    ImportPhase(env, w);
    assert List(w.books) == [];
  }

  // ---- What comes back of each row ----

  lemma UuidIsPlain(id: PipelineID)
    requires StandardUuid(id)
    ensures PlainSegment(id)
  {
  }

  /** A row up to what its file keeps: an absent config, and of an upload only the
      ordered (table, file) entries. */
  function Normal(p: Pipeline): Pipeline {
    if p.sourceType == FILE_UPLOAD && ParseUploadConfig(p.sourceConfig).Some? then
      p.(sourceConfig := Some(UploadConfig(Entries(ParseUploadConfig(p.sourceConfig).value))))
    else if IsEmptyJson(p.sourceConfig) then p.(sourceConfig := None)
    else p
  }

  lemma ReadBackIsNormal(env: Env, p: Pipeline, r: Pipeline)
    requires ResolveOne(env, p) == Some(r) && ConfigFields(r.sourceConfig).Some? && PlainSegment(p.id)
    requires p.sourceType == FILE_UPLOAD || !PointsAtOwnUploads(Normal(p))
    ensures ReadBack(r) == Normal(p).(credentials := None, credentialsExternal := false)
  {
    if p.sourceType == FILE_UPLOAD {
      RestoreUndoesResolve(p, env.storage);
      var back := FromFile(r.id, Render(r).file);
      assert back == r.(credentials := None, credentialsExternal := false);
      RestoreIgnoresOwnership(r);
    } else {
      var back := FromFile(r.id, Render(r).file);
      assert back == Normal(p).(credentials := None, credentialsExternal := false);
      RestoreIgnoresOwnership(Normal(p));
    }
  }

  lemma RestoreIgnoresOwnership(p: Pipeline)
    ensures Restore(p.(credentials := None, credentialsExternal := false)) ==
            Restore(p).(credentials := None, credentialsExternal := false)
  {
  }

  // ---- The rebuild theorem ----

  /** What a workspace's rows must be for its repository to be read: ids are spelled as the
      uuid column spells them, names non-empty, what is read back validates, and no plain filesystem source
      claims its own upload prefix. */
  ghost predicate Hydratable(env: Env, b: Books)
    requires Renderable(Rendered(env, b))
  {
    && (forall r :: r in Rendered(env, b) ==> Importable(env, r))
    && (forall id :: id in b.rows ==> b.rows[id].sourceType == FILE_UPLOAD || !PointsAtOwnUploads(Normal(b.rows[id])))
  }

  ghost predicate Rebuildable(env: Env, w: World) {
    env.wiring.drift && env.importer && Mirrorable(env, w) && Hydratable(env, w.books)
  }

  /** Every rendered pipeline has a config; a sql_database source may have none. */
  ghost predicate Configured(env: Env, b: Books) {
    forall r :: r in Rendered(env, b) ==> !IsEmptyJson(r.sourceConfig)
  }

  /** Converge into the empty repository, then adopt into an empty database. */
  ghost function RebuiltFrom(env: Env, w: World): Step {
    AdoptCustomer(env, World(SyncCustomer(env, w).world.repo, NO_BOOKS))
  }

  lemma RenderedName(env: Env, b: Books, r: Pipeline)
    requires TableOk(b) && r in Rendered(env, b)
    ensures r.id in b.rows && r.name == b.rows[r.id].name
  {
    RenderedRow(env, b, r);
  }

  lemma RenderedNamesDiffer(env: Env, b: Books, p: Pipeline, q: Pipeline)
    requires TableOk(b) && p in Rendered(env, b) && q in Rendered(env, b) && p.id != q.id
    ensures p.name != q.name
  {
    RenderedName(env, b, p);
    RenderedName(env, b, q);
  }

  lemma RenderedRestorable(env: Env, b: Books)
    requires TableOk(b) && Renderable(Rendered(env, b)) && SlugsDistinct(Rendered(env, b)) && Hydratable(env, b)
    ensures Restorable(env, Rendered(env, b))
  {
    var ps := Rendered(env, b);
    RenderedDistinct(env, b);
    forall p, q | p in ps && q in ps && p.id != q.id ensures p.name != q.name {
      RenderedNamesDiffer(env, b, p, q);
    }
  }

  lemma RebuildReachesBooks(env: Env, w: World)
    requires Rebuildable(env, w)
    ensures var ps, s := Rendered(env, w.books), RebuiltFrom(env, w);
            && (s.outcome.Done? <==> Configured(env, w.books)) && (s.outcome.Failed? ==> s.outcome.error == NotStorable)
            && Quiet(s.world.repo) && s.world.repo.files == SyncCustomer(env, w).world.repo.files
            && PartlyRebuilt(ps, s.world.repo.files, s.world.books)
            && (s.outcome.Done? ==> Rebuilt(ps, s.world.repo.files, s.world.books))
            && DefinitionsMirrored(ps, s.world.repo.files) && CredentialsMirrored(env, w.books, ps, s.world.repo.files)
  {
    SyncIntoEmpty(env, w);
    RenderedRestorable(env, w.books);
    var start := World(SyncCustomer(env, w).world.repo, NO_BOOKS);
    EmptyPassOnlyHydrates(env, start);
    HydrateEmpty(env, start, Rendered(env, w.books));
  }

  ghost predicate RowRestored(env: Env, b: Books, b': Books, r: Pipeline) {
    && r.id in b.rows && r.id in b'.rows
    && b'.rows[r.id] == Normal(b.rows[r.id]).(credentials := Some(EMPTY_OBJECT), credentialsExternal := WritesAge(env, b, r))
  }

  lemma RebuiltRowRestored(env: Env, b: Books, b': Books, files: map<Path, Content>, r: Pipeline)
    requires TableOk(b) && Renderable(Rendered(env, b)) && Hydratable(env, b) && r in Rendered(env, b) && r.id in b'.rows
    requires PartlyRebuilt(Rendered(env, b), files, b') && CredentialsMirrored(env, b, Rendered(env, b), files)
    ensures RowRestored(env, b, b', r)
  {
    assert RebuiltAt(Rendered(env, b), files, b', r);
    RenderedRow(env, b, r);
    UuidIsPlain(r.id);
    ReadBackIsNormal(env, b.rows[r.id].(credentials := None), r);
  }

  /** Rebuilding from git completes if and only if every rendered pipeline has a config.
      It then brings back exactly the rendered pipelines, each under its own id with every
      definition field (uploads up to Normal); and however far it gets, the rows there are
      restored. Credentials come back empty, and a pipeline is external exactly when its
      credential file was written. */
  lemma RebuildRestoresRows(env: Env, w: World)
    requires Rebuildable(env, w)
    ensures var s, ps := RebuiltFrom(env, w), Rendered(env, w.books);
            var b' := s.world.books;
            && (s.outcome.Done? <==> Configured(env, w.books)) && (s.outcome.Failed? ==> s.outcome.error == NotStorable)
            && TableOk(b') && (if Configured(env, w.books) then b'.rows.Keys == Ids(ps) else b'.rows.Keys <= Ids(ps))
            && (forall r :: r in ps && r.id in b'.rows ==> RowRestored(env, w.books, b', r))
  {
    RebuildReachesBooks(env, w);
    var s, ps := RebuiltFrom(env, w).world, Rendered(env, w.books);
    forall r | r in ps && r.id in s.books.rows ensures RowRestored(env, w.books, s.books, r) {
      RebuiltRowRestored(env, w.books, s.books, s.repo.files, r);
    }
  }

  // ---- The converge after a rebuild ----

  /** The same pipeline rendered from the rebuilt row. */
  ghost predicate Again(r: Pipeline, q: Pipeline, external: bool)
    requires ConfigFields(r.sourceConfig).Some?
  {
    && SameIdAndName(r, q) && ConfigFields(q.sourceConfig).Some? && Render(q) == Render(r)
    && q.credentials == r.credentials && q.credentialsExternal == external
  }

  lemma ResolveIgnoresOwnership(env: Env, p: Pipeline, external: bool)
    ensures var q := p.(credentials := None, credentialsExternal := external);
            ResolveOne(env, q) == match ResolveOne(env, p)
                                  case None => None
                                  case Some(r) => Some(r.(credentials := if p.sourceType == FILE_UPLOAD then r.credentials else None,
                                                          credentialsExternal := external))
  {
  }

  lemma RendersAgain(env: Env, p: Pipeline, r: Pipeline, external: bool)
    requires p.credentials.None? && PlainSegment(p.id)
    requires ResolveOne(env, p) == Some(r) && ConfigFields(r.sourceConfig).Some?
    requires p.sourceType == FILE_UPLOAD || !PointsAtOwnUploads(Normal(p))
    ensures var q := ResolveOne(env, HydratedRow(r, external).(credentials := None));
            q.Some? && Again(r, q.value, external)
  {
    ReadBackIsNormal(env, p, r);
    if p.sourceType == FILE_UPLOAD {
      RestoreUndoesResolve(p, env.storage);
      ResolveAfterRestore(p, env.storage);
      assert Restore(r) == Normal(p).(credentials := r.credentials);
      ResolveIgnoresOwnership(env, Restore(r), external);
    }
  }

  lemma RebuiltRenders(env: Env, b: Books, b': Books, files: map<Path, Content>, r: Pipeline) returns (q: Pipeline)
    requires TableOk(b) && Renderable(Rendered(env, b)) && Hydratable(env, b) && PartlyRebuilt(Rendered(env, b), files, b')
    requires r in Rendered(env, b) && r.id in b'.rows
    ensures q in Rendered(env, b') && Again(r, q, AgePath(Rendered(env, b), r) in files)
  {
    var ps := Rendered(env, b);
    var external := AgePath(ps, r) in files;
    assert RebuiltAt(ps, files, b', r);
    RenderedRow(env, b, r);
    UuidIsPlain(r.id);
    RendersAgain(env, b.rows[r.id].(credentials := None), r, external);
    q := ResolveOne(env, HydratedRow(r, external).(credentials := None)).value;
    ListHas(b', r.id);
    var k :| 0 <= k < |List(b')| && List(b')[k].id == r.id;
    ListedRow(b', List(b')[k]);
    ResolvedInto(env, List(b'), List(b')[k]);
  }

  lemma RebuiltRenderedFrom(env: Env, b: Books, b': Books, files: map<Path, Content>, q: Pipeline) returns (r: Pipeline)
    requires TableOk(b) && Renderable(Rendered(env, b)) && Hydratable(env, b) && PartlyRebuilt(Rendered(env, b), files, b')
    requires q in Rendered(env, b')
    ensures r in Rendered(env, b) && Again(r, q, AgePath(Rendered(env, b), r) in files)
  {
    RenderedRow(env, b', q);
    r :| r in Rendered(env, b) && r.id == q.id;
    var q' := RebuiltRenders(env, b, b', files, r);
    RenderedDistinct(env, b');
    SameIdSamePipeline(Rendered(env, b'), q, q');
  }

  ghost function NameSet(ps: seq<Pipeline>): set<(PipelineID, string)> {
    set p | p in ps :: (p.id, p.name)
  }

  lemma SharedByNameSet(ps: seq<Pipeline>, qs: seq<Pipeline>, p: Pipeline, q: Pipeline)
    requires NameSet(ps) <= NameSet(qs) && SameIdAndName(p, q) && Shared(ps, p)
    ensures Shared(qs, q)
  {
    var x :| x in ps && x.id != p.id && BaseSlug(x) == BaseSlug(p);
    assert (x.id, x.name) in NameSet(ps);
    var y :| y in qs && (y.id, y.name) == (x.id, x.name);
    assert BaseSlug(y) == BaseSlug(q);
  }

  /** Slugs depend on the list only through its set of ids and names. */
  lemma SlugByNameSet(ps: seq<Pipeline>, qs: seq<Pipeline>, p: Pipeline, q: Pipeline)
    requires NameSet(ps) == NameSet(qs) && SameIdAndName(p, q)
    ensures FileSlug(ps, p) == FileSlug(qs, q)
  {
    if Shared(ps, p) { SharedByNameSet(ps, qs, p, q); }
    if Shared(qs, q) { SharedByNameSet(qs, ps, q, p); }
  }

  /** The state after a rebuild, as the lemmas below use it. */
  ghost predicate Restored(env: Env, b: Books, w: World) {
    && TableOk(b) && Renderable(Rendered(env, b)) && SlugsDistinct(Rendered(env, b)) && Hydratable(env, b)
    && Quiet(w.repo) && Rebuilt(Rendered(env, b), w.repo.files, w.books)
    && DefinitionsMirrored(Rendered(env, b), w.repo.files) && CredentialsMirrored(env, b, Rendered(env, b), w.repo.files)
  }

  lemma RestoredNames(env: Env, b: Books, w: World)
    requires Restored(env, b, w)
    ensures NameSet(Rendered(env, b)) == NameSet(Rendered(env, w.books))
  {
    var ps, qs := Rendered(env, b), Rendered(env, w.books);
    forall x | x in NameSet(ps) ensures x in NameSet(qs) {
      var r :| r in ps && (r.id, r.name) == x;
      var q := RebuiltRenders(env, b, w.books, w.repo.files, r);
      assert (q.id, q.name) in NameSet(qs);
    }
    forall x | x in NameSet(qs) ensures x in NameSet(ps) {
      var q :| q in qs && (q.id, q.name) == x;
      var r := RebuiltRenderedFrom(env, b, w.books, w.repo.files, q);
      assert (r.id, r.name) in NameSet(ps);
    }
  }

  lemma RestoredRenderable(env: Env, b: Books, w: World)
    requires Restored(env, b, w)
    ensures Renderable(Rendered(env, w.books))
  {
    forall q | q in Rendered(env, w.books) ensures ConfigFields(q.sourceConfig).Some? {
      var r := RebuiltRenderedFrom(env, b, w.books, w.repo.files, q);
    }
  }

  /** A rebuilt pipeline's slug is that of the pipeline it was rebuilt from. */
  lemma RestoredSlug(env: Env, b: Books, w: World, q: Pipeline) returns (r: Pipeline)
    requires Restored(env, b, w) && q in Rendered(env, w.books)
    ensures r in Rendered(env, b) && r.id == q.id && FileSlug(Rendered(env, w.books), q) == FileSlug(Rendered(env, b), r)
  {
    r := RebuiltRenderedFrom(env, b, w.books, w.repo.files, q);
    RestoredNames(env, b, w);
    SlugByNameSet(Rendered(env, b), Rendered(env, w.books), r, q);
  }

  lemma RestoredList(env: Env, b: Books, w: World)
    requires Restored(env, b, w)
    ensures NameSet(Rendered(env, b)) == NameSet(Rendered(env, w.books))
    ensures Renderable(Rendered(env, w.books)) && Separate(Rendered(env, w.books))
  {
    var qs := Rendered(env, w.books);
    RestoredNames(env, b, w);
    RestoredRenderable(env, b, w);
    RenderedDistinct(env, w.books);
    forall p, q | p in qs && q in qs && p.id != q.id ensures FileSlug(qs, p) != FileSlug(qs, q) {
      var p' := RestoredSlug(env, b, w, p);
      var q' := RestoredSlug(env, b, w, q);
    }
  }

  lemma DefinitionsInPlace(env: Env, b: Books, w: World, x: Path)
    requires Restored(env, b, w) && Renderable(Rendered(env, w.books)) && env.wiring.drift
    ensures var plan := MakePlan(env, w.books, Rendered(env, w.books));
            && (x in plan.desired ==> DefinitionSettled(env.wiring, w, plan, x))
            && (x in w.repo.files && IsDefinitionPath(x) ==> x in plan.desired)
  {
    var ps, qs := Rendered(env, b), Rendered(env, w.books);
    var plan := MakePlan(env, w.books, qs);
    RestoredList(env, b, w);
    if x in plan.desired {
      var q := DefinitionOwner(qs, qs, x);
      var r := RebuiltRenderedFrom(env, b, w.books, w.repo.files, q);
      SlugByNameSet(ps, qs, r, q);
      assert Lookup(w.repo.files, DefPath(ps, r)) == Some(Render(r));
      assert RebuiltAt(ps, w.repo.files, w.books, r);
    }
    if x in w.repo.files && IsDefinitionPath(x) {
      assert HasOwner(ps, x);
      var r :| r in ps && x == DefPath(ps, r);
      var q := RebuiltRenders(env, b, w.books, w.repo.files, r);
      SlugByNameSet(ps, qs, r, q);
      DefinitionsAt(qs, qs, q);
    }
  }

  lemma InjectedIffUpload(env: Env, b: Books, r: Pipeline)
    requires TableOk(b) && r in Rendered(env, b)
    ensures r.id in b.rows && (r.credentials.Some? <==> b.rows[r.id].sourceType == FILE_UPLOAD)
    ensures r.credentials.Some? ==> !IsEmptyJson(r.credentials)
  {
    RenderedRow(env, b, r);
    assert "region" in StorageCredentials(env.storage).fields;
  }

  lemma CredentialCase(env: Env, b: Books, b': Books, r: Pipeline, q: Pipeline)
    requires q.credentials == r.credentials && Row(b', q.id).credentials == Some(EMPTY_OBJECT)
    requires (r.credentials.Some? ==> !IsEmptyJson(r.credentials)) && q.credentialsExternal == WritesAge(env, b, r)
    requires env.ageWired && env.ageKey.Some?
    ensures var cf := CredentialFileOf(env, b', q);
            if WritesAge(env, b, r) then cf.Some? && cf.value.external
            else if r.credentialsExternal && r.credentials.Some? then cf.Some? && !cf.value.external
            else cf.None?
  {
  }

  /** Of the rebuilt pipelines, which would get a credential file written: uploads whose
      file the box owned, so that no converge ever wrote it. */
  lemma CredentialAgain(env: Env, b: Books, w: World, r: Pipeline, q: Pipeline)
    requires Restored(env, b, w) && r in Rendered(env, b) && q in Rendered(env, w.books)
    requires Again(r, q, AgePath(Rendered(env, b), r) in w.repo.files)
    requires env.ageWired && env.ageKey.Some?
    ensures var cf := CredentialFileOf(env, w.books, q);
            if WritesAge(env, b, r) then cf.Some? && cf.value.external
            else if r.credentialsExternal && r.credentials.Some? then cf.Some? && !cf.value.external
            else cf.None?
  {
    assert RebuiltAt(Rendered(env, b), w.repo.files, w.books, r);
    InjectedIffUpload(env, b, r);
    CredentialCase(env, b, w.books, r, q);
  }

  lemma SameAgePath(env: Env, b: Books, w: World, r: Pipeline, q: Pipeline)
    requires Restored(env, b, w) && SameIdAndName(r, q)
    ensures AgePath(Rendered(env, w.books), q) == AgePath(Rendered(env, b), r)
  {
    RestoredList(env, b, w);
    SlugByNameSet(Rendered(env, b), Rendered(env, w.books), r, q);
  }

  /** Some rendered upload's credential file belonged to the box before the rebuild. */
  ghost predicate LostUploadOwner(env: Env, b: Books) {
    env.ageWired && env.ageKey.Some? && exists r :: r in Rendered(env, b) && r.credentials.Some? && r.credentialsExternal
  }

  lemma CredentialsInPlace(env: Env, b: Books, w: World, x: Path)
    requires Restored(env, b, w) && Renderable(Rendered(env, w.books)) && !LostUploadOwner(env, b)
    ensures var plan := MakePlan(env, w.books, Rendered(env, w.books));
            plan.credentials.Some? ==>
              && (x in plan.credentials.value ==> CredentialSettled(w, plan, plan.credentials.value[x], x))
              && (x in w.repo.files && IsCredentialPath(x) ==> x in plan.credentials.value)
  {
    var ps, qs := Rendered(env, b), Rendered(env, w.books);
    RestoredList(env, b, w);
    if env.ageWired && env.ageKey.Some? {
      if x in CredentialFiles(env, w.books, qs, qs) {
        var q := CredentialOwner(env, w.books, qs, qs, x);
        var r := RebuiltRenderedFrom(env, b, w.books, w.repo.files, q);
        CredentialAgain(env, b, w, r, q);
      }
      if x in w.repo.files && IsCredentialPath(x) {
        assert HasCredentialOwner(ps, x);
        var r :| r in ps && x == AgePath(ps, r);
        var q := RebuiltRenders(env, b, w.books, w.repo.files, r);
        CredentialAgain(env, b, w, r, q);
        SameAgePath(env, b, w, r, q);
        CredentialsAt(env, w.books, qs, qs, q);
      }
    }
  }

  lemma OwnedUploadUnwritten(env: Env, b: Books, files: map<Path, Content>, r: Pipeline)
    requires CredentialsMirrored(env, b, Rendered(env, b), files) && r in Rendered(env, b) && r.credentialsExternal
    ensures AgePath(Rendered(env, b), r) !in files
  {
  }

  lemma LostOwnerGainsFile(env: Env, b: Books, w: World) returns (x: Path)
    requires Restored(env, b, w) && LostUploadOwner(env, b)
    ensures var files := CredentialFiles(env, w.books, Rendered(env, w.books), Rendered(env, w.books));
            x in files && !files[x].external && IsCredentialPath(x) && x !in w.repo.files
  {
    var r :| r in Rendered(env, b) && r.credentials.Some? && r.credentialsExternal;
    var q := RebuiltRenders(env, b, w.books, w.repo.files, r);
    x := AgePath(Rendered(env, b), r);
    PathShapes(FileSlug(Rendered(env, b), r));
    OwnedUploadUnwritten(env, b, w.repo.files, r);
    LostOwnerPlanned(env, b, w, r, q);
  }

  lemma LostOwnerPlanned(env: Env, b: Books, w: World, r: Pipeline, q: Pipeline)
    requires Restored(env, b, w) && r in Rendered(env, b) && q in Rendered(env, w.books)
    requires Again(r, q, AgePath(Rendered(env, b), r) in w.repo.files)
    requires env.ageWired && env.ageKey.Some? && r.credentials.Some? && r.credentialsExternal
    ensures Lookup(CredentialFiles(env, w.books, Rendered(env, w.books), Rendered(env, w.books)), AgePath(Rendered(env, b), r)) ==
            CredentialFileOf(env, w.books, q)
    ensures CredentialFileOf(env, w.books, q).Some? && !CredentialFileOf(env, w.books, q).value.external
  {
    CredentialAgain(env, b, w, r, q);
    SameAgePath(env, b, w, r, q);
    RestoredList(env, b, w);
    CredentialsAt(env, w.books, Rendered(env, w.books), Rendered(env, w.books), q);
  }

  /** The converge after a rebuild commits nothing, unless some upload's credential file
      belonged to the box: that ownership is not in the repository, and the converge
      renders the file. */
  lemma SyncAfterRebuildIdleIff(env: Env, w: World)
    requires Rebuildable(env, w) && Configured(env, w.books)
    ensures var s := RebuiltFrom(env, w).world;
            var t := SyncCustomer(env, s);
            t.outcome.Done? && (Idle(s, t.world) <==> !LostUploadOwner(env, w.books))
  {
    RebuildReachesBooks(env, w);
    var s := RebuiltFrom(env, w).world;
    RestoredList(env, w.books, s);
    SyncAfterRestored(env, w.books, s);
  }

  lemma RestoredIsSettled(env: Env, b: Books, w: World)
    requires Restored(env, b, w) && Renderable(Rendered(env, w.books)) && env.wiring.drift && !LostUploadOwner(env, b)
    ensures Settled(env.wiring, w, MakePlan(env, w.books, Rendered(env, w.books)))
  {
    var plan := MakePlan(env, w.books, Rendered(env, w.books));
    forall x
      ensures x in plan.desired ==> DefinitionSettled(env.wiring, w, plan, x)
      ensures x in w.repo.files && IsDefinitionPath(x) ==> x in plan.desired
    {
      DefinitionsInPlace(env, b, w, x);
    }
    forall x
      ensures plan.credentials.Some? ==>
                && (x in plan.credentials.value ==> CredentialSettled(w, plan, plan.credentials.value[x], x))
                && (x in w.repo.files && IsCredentialPath(x) ==> x in plan.credentials.value)
    {
      CredentialsInPlace(env, b, w, x);
    }
  }

  /** A planned credential file that is not there yet is written. */
  lemma NewCredentialWritten(cfg: Wiring, w: World, plan: Plan, x: Path)
    requires Quiet(w.repo) && WellPlanned(plan) && plan.credentials.Some? && x in plan.credentials.value
    requires !plan.credentials.value[x].external && IsCredentialPath(x) && x !in w.repo.files
    ensures x in Converge(cfg, w, plan).world.repo.files
  {
    ConvergeReachesPlan(cfg, w, plan);
  }

  lemma LostOwnerWritten(env: Env, b: Books, w: World)
    requires Restored(env, b, w) && Renderable(Rendered(env, w.books)) && LostUploadOwner(env, b)
    requires WellPlanned(MakePlan(env, w.books, Rendered(env, w.books)))
    ensures Converge(env.wiring, w, MakePlan(env, w.books, Rendered(env, w.books))).world.repo.files != w.repo.files
  {
    var x := LostOwnerGainsFile(env, b, w);
    NewCredentialWritten(env.wiring, w, MakePlan(env, w.books, Rendered(env, w.books)), x);
  }

  lemma SyncAfterRestored(env: Env, b: Books, w: World)
    requires Restored(env, b, w) && Renderable(Rendered(env, w.books)) && env.wiring.drift
    ensures var t := SyncCustomer(env, w);
            t.outcome.Done? && (Idle(w, t.world) <==> !LostUploadOwner(env, b))
  {
    var qs := Rendered(env, w.books);
    SyncIsOneConverge(env, w);
    RenderedDistinct(env, w.books);
    PlanIsWellFormed(env, w.books, qs);
    if LostUploadOwner(env, b) {
      LostOwnerWritten(env, b, w);
    } else {
      RestoredIsSettled(env, b, w);
      SettledIsFixedPoint(env.wiring, w, MakePlan(env, w.books, qs));
    }
  }

  // ---- A rebuild that stalls ----

  lemma UnconfiguredAbsent(env: Env, ps: seq<Pipeline>, files: map<Path, Content>, b: Books, r: Pipeline)
    requires Renderable(ps) && PartlyRebuilt(ps, files, b) && r in ps && Importable(env, r) && IsEmptyJson(r.sourceConfig)
    ensures r.id !in b.rows
  {
    StorableIff(env, r);
    assert r.id in b.rows ==> RebuiltAt(ps, files, b, r);
  }

  lemma PartlyRenderable(env: Env, b: Books, files: map<Path, Content>, b': Books)
    requires TableOk(b) && Renderable(Rendered(env, b)) && Hydratable(env, b) && PartlyRebuilt(Rendered(env, b), files, b')
    ensures Renderable(Rendered(env, b'))
  {
    forall q | q in Rendered(env, b') ensures ConfigFields(q.sourceConfig).Some? {
      var r := RebuiltRenderedFrom(env, b, b', files, q);
    }
  }

  /** No definition file of the pipeline is left. */
  ghost predicate FileGone(files: map<Path, Content>, id: PipelineID) {
    forall p :: p in files && IsDefinitionPath(p) && files[p].Doc? ==> files[p].file.id != id
  }

  lemma UnrestoredFileGoes(env: Env, w: World, id: PipelineID)
    requires Quiet(w.repo) && TableOk(w.books) && Renderable(Rendered(env, w.books)) && id !in w.books.rows
    requires forall p :: p in w.repo.files && IsDefinitionPath(p) ==> HasHeader(w.repo.files[p])
    ensures SyncCustomer(env, w).outcome.Done? && FileGone(SyncCustomer(env, w).world.repo.files, id)
  {
    var qs := Rendered(env, w.books);
    var plan, after := MakePlan(env, w.books, qs), SyncCustomer(env, w).world.repo.files;
    SyncIsOneConverge(env, w);
    RenderedDistinct(env, w.books);
    PlanIsWellFormed(env, w.books, qs);
    ConvergeReachesPlan(env.wiring, w, plan);
    forall p | p in after && IsDefinitionPath(p) && after[p].Doc? ensures after[p].file.id != id {
      assert Lookup(after, p) == DefinitionGoal(plan, w.repo.files, p);
      assert p in plan.desired;
      var q := DefinitionOwner(qs, qs, p);
      RenderedRow(env, w.books, q);
    }
  }

  lemma MirroredHaveHeaders(ps: seq<Pipeline>, files: map<Path, Content>)
    requires Renderable(ps) && DefinitionsMirrored(ps, files)
    ensures forall p :: p in files && IsDefinitionPath(p) ==> HasHeader(files[p])
  {
    forall p | p in files && IsDefinitionPath(p) ensures HasHeader(files[p]) {
      var r := OwnerOf(ps, files, p);
    }
  }

  /** With a rendered pipeline that has no config the rebuild never completes, however often
      it is tried; and the next sync from the rows it got deletes that pipeline's definition
      file, so that neither place has it any more. */
  lemma StalledRebuildLoses(env: Env, w: World, r: Pipeline, n: nat)
    requires Rebuildable(env, w) && r in Rendered(env, w.books) && IsEmptyJson(r.sourceConfig)
    ensures IsRefusal(NthPass(env, World(SyncCustomer(env, w).world.repo, NO_BOOKS), n).outcome)
    ensures var s := RebuiltFrom(env, w).world;
            r.id !in s.books.rows && SyncCustomer(env, s).outcome.Done? && FileGone(SyncCustomer(env, s).world.repo.files, r.id)
  {
    var start, s, ps := World(SyncCustomer(env, w).world.repo, NO_BOOKS), RebuiltFrom(env, w).world, Rendered(env, w.books);
    SyncIntoEmpty(env, w);
    RebuildReachesBooks(env, w);
    EmptyPassOnlyHydrates(env, start);
    FailsForever(env, start, n);
    UnconfiguredAbsent(env, ps, s.repo.files, s.books, r);
    PartlyRenderable(env, w.books, s.repo.files, s.books);
    MirroredHaveHeaders(ps, s.repo.files);
    UnrestoredFileGoes(env, s, r.id);
  }

  // ---- Such a workspace ----

  const SQL_DATABASE := "sql_database"

  /** A workspace with one pipeline and an empty repository. */
  function Sole(p: Pipeline): World {
    World(Repo(map[], [], [], {}, true), Books(map[p.id := p], [p.id], map[], map[], [], 0))
  }

  lemma SoleRendered(env: Env, p: Pipeline)
    requires p.sourceType != FILE_UPLOAD && p.sourceConfig.Some?
    ensures TableOk(Sole(p).books) && Rendered(env, Sole(p).books) == [p.(credentials := None)]
  {
    var b, r := Sole(p).books, p.(credentials := None);
    assert |List(b)| == 1 && List(b)[0] == r;
    assert List(b) == [r];
    assert [r][..0] == [];
    assert ResolveAll(env, [r][..0]) == [];
  }

  /** A sql_database pipeline as the Console stores it, with config {}, is rebuildable but
      for that, and is lost. */
  lemma SoleDatabaseIsLost(env: Env, p: Pipeline, n: nat)
    requires env.wiring.drift && env.importer && env.valid(SQL_DATABASE, None)
    requires p.sourceType == SQL_DATABASE && p.sourceConfig == Some(EMPTY_OBJECT) && StandardUuid(p.id) && p.name != ""
    ensures var w := Sole(p);
            var s := RebuiltFrom(env, w).world;
            && Rebuildable(env, w) && IsRefusal(NthPass(env, World(SyncCustomer(env, w).world.repo, NO_BOOKS), n).outcome)
            && p.id !in s.books.rows && FileGone(SyncCustomer(env, s).world.repo.files, p.id)
  {
    var r := p.(credentials := None);
    SoleRendered(env, p);
    assert Importable(env, r);
    assert Rebuildable(env, Sole(p));
    StalledRebuildLoses(env, Sole(p), r, n);
  }
}
