/** The adopt pass: repository edits into rows (workspace/pipelinemirror_adopt.go) and
    hydration of untracked files (workspace/pipelinemirror_import.go). */
module Adopt {
  import opened Basics
  import opened Domain
  import opened FileDrop
  import opened GitRepo
  import opened Mirror
  import opened Slugs
  import opened Sync

  // ---- Reading a definition file back ----

  /** pipelineFromFile: credentials and ownership are never part of the file. */
  function FromFile(id: PipelineID, f: PipelineFile): Pipeline {
    Pipeline(id, f.name, f.sourceType,
             if f.sourceConfig == map[] then None else Some(Obj(f.sourceConfig)),
             None, f.datasetName, f.schedule, f.writeDisposition, f.mergeStrategy, f.enabled, false)
  }

  /** parseAdoptablePipeline: the row to store, or None when the edit is refused. */
  function ParseAdoptable(env: Env, content: Content, current: Pipeline): Option<Pipeline> {
    if !content.Doc? then None
    else if content.file.id != current.id then None
    else if content.file.sourceType != current.sourceType then None
    else
      var p := FromFile(current.id, content.file);
      if !env.valid(p.sourceType, p.sourceConfig) then None
      else Some(p.(credentials := current.credentials, credentialsExternal := current.credentialsExternal))
  }

  // ---- Row writes ----

  predicate NameFree(b: Books, p: Pipeline) {
    forall id :: id in b.rows && id != p.id ==> b.rows[id].name != p.name
  }

  /** What the pipelines table takes in: a nil config is bound as NULL, which the
      NOT NULL column refuses, and the uuid column does not read the urn spelling. */
  predicate Storable(p: Pipeline) {
    p.sourceConfig.Some? && !IsUrn(p.id)
  }

  /** PipelineRepository.UpdatePipeline: every column but the ownership flag. */
  function UpdateRow(b: Books, p: Pipeline): Result<Books> {
    if p.id !in b.rows then Err(NotFound)
    else if p.sourceConfig.None? then Err(NotStorable)
    else if !NameFree(b, p) then Err(NameTaken)
    else Ok(b.(rows := b.rows[p.id := p.(credentialsExternal := b.rows[p.id].credentialsExternal)]))
  }

  function MarkRefused(b: Books, id: PipelineID, blob: Sha): Books {
    if id in b.defs then b.(defs := b.defs[id := b.defs[id].(refused := Some(blob))]) else b
  }

  // ---- Adopting tracked definitions ----

  /** The tree holds a blob at the tracked path that was neither rendered, adopted nor
      already refused. */
  predicate Pending(row: Option<DefRender>, yaml: map<Path, Sha>) {
    && row.Some? && row.value.path in yaml
    && yaml[row.value.path] != row.value.blob
    && Some(yaml[row.value.path]) != row.value.refused
  }

  /** adoptDefinition, for a listed pipeline p. */
  function AdoptDefinition(env: Env, w: World, p: Pipeline, renders: map<PipelineID, DefRender>, yaml: map<Path, Sha>): Step {
    var row := Lookup(renders, p.id);
    if !Pending(row, yaml) then Step(w, Done)
    else
      var path, treeSha := row.value.path, yaml[row.value.path];
      var got := GetContents(w.repo, path);
      if got.result.Err? then Step(World(got.repo, w.books), Failed(got.result.error))
      else
        var adopted := ParseAdoptable(env, got.result.value, p);
        if adopted.None? then
          Step(World(got.repo, Notify(MarkRefused(w.books, p.id, treeSha), RefusedNote(path, p.id))), Done)
        else
          var updated := UpdateRow(w.books, adopted.value);
          if updated.Err? then Step(World(got.repo, w.books), Failed(updated.error))
          else
            var recorded := RecordDefinition(env.wiring, updated.value, p.id, path, treeSha);
            Step(World(got.repo, Notify(recorded, AdoptedNote(path, p.id))), Done)
  }

  function AdoptDefinitions(env: Env, w: World, ps: seq<Pipeline>, renders: map<PipelineID, DefRender>, yaml: map<Path, Sha>): Step
    decreases |ps|
  {
    if ps == [] then Step(w, Done)
    else
      var s := AdoptDefinition(env, w, ps[0], renders, yaml);
      if s.outcome.Failed? then s else AdoptDefinitions(env, s.world, ps[1..], renders, yaml)
  }

  // ---- Importing untracked definitions ----

  /** parseImportablePipeline: None when the file is skipped. */
  function ParseImportable(env: Env, content: Content, ids: set<PipelineID>, names: set<string>): Option<Pipeline> {
    if !content.Doc? then None
    else if !ValidUuid(content.file.id) then None
    else if content.file.id in ids then None
    else if content.file.name == "" then None
    else if content.file.name in names then None
    else
      var p := Restore(FromFile(content.file.id, content.file));
      if env.valid(p.sourceType, p.sourceConfig) then Some(p) else None
  }

  function CredentialPathFor(path: Path): Path {
    (if HasSuffix(path, ".yaml") then path[..|path| - 5] else path) + ".credentials.age"
  }

  /** ImportPipeline: insert under the file's own id. Values are checked before keys. */
  function InsertRow(b: Books, p: Pipeline): Result<Books> {
    if !Storable(p) then Err(NotStorable)
    else if p.id in b.rows || !NameFree(b, p) then Err(NameTaken)
    else Ok(b.(rows := b.rows[p.id := p.(credentials := Some(EMPTY_OBJECT))], order := b.order + [p.id]))
  }

  /** The ids and names an import batch must not reuse. */
  datatype Taken = Taken(ids: set<PipelineID>, names: set<string>)

  datatype ImportStep = ImportStep(world: World, taken: Taken, outcome: Outcome)

  /** importFile: a clash skips the file, any other refused write ends the batch. */
  function ImportFile(env: Env, w: World, path: Path, yaml: map<Path, Sha>, age: map<Path, Sha>, taken: Taken): ImportStep
    requires path in yaml
  {
    var got := GetContents(w.repo, path);
    if got.result.Err? then ImportStep(World(got.repo, w.books), taken, Failed(got.result.error))
    else
      var p := ParseImportable(env, got.result.value, taken.ids, taken.names);
      if p.None? then ImportStep(World(got.repo, w.books), taken, Done)
      else
        var external := CredentialPathFor(path) in age;
        var inserted := InsertRow(w.books, p.value.(credentialsExternal := external));
        if inserted.Err? then
          ImportStep(World(got.repo, w.books), taken, if inserted.error == NameTaken then Done else Failed(inserted.error))
        else
          ImportStep(World(got.repo, RecordDefinition(env.wiring, inserted.value, p.value.id, path, yaml[path])),
                     Taken(taken.ids + {p.value.id}, taken.names + {p.value.name}), Done)
  }

  /** A tracked path is the adopt loop's business. */
  function ImportTurn(env: Env, w: World, path: Path, tracked: set<Path>, yaml: map<Path, Sha>, age: map<Path, Sha>,
                      taken: Taken): ImportStep
    requires path in yaml
  {
    if path in tracked then ImportStep(w, taken, Done) else ImportFile(env, w, path, yaml, age, taken)
  }

  function ImportFiles(env: Env, w: World, paths: seq<Path>, tracked: set<Path>, yaml: map<Path, Sha>, age: map<Path, Sha>,
                       taken: Taken): ImportStep
    requires forall p :: p in paths ==> p in yaml
    decreases |paths|
  {
    if paths == [] then ImportStep(w, taken, Done)
    else
      var s := ImportTurn(env, w, paths[0], tracked, yaml, age, taken);
      if s.outcome.Failed? then s else ImportFiles(env, s.world, paths[1..], tracked, yaml, age, s.taken)
  }

  function TrackedPaths(renders: map<PipelineID, DefRender>): set<Path> {
    set id | id in renders :: renders[id].path
  }

  function TakenBy(ps: seq<Pipeline>): Taken {
    Taken(set p | p in ps :: p.id, set p | p in ps :: p.name)
  }

  /** importUnrendered. */
  ghost function ImportUnrendered(env: Env, w: World, ps: seq<Pipeline>, renders: map<PipelineID, DefRender>,
                                  yaml: map<Path, Sha>, age: map<Path, Sha>): Step
  {
    if !env.importer then Step(w, Done)
    else
      SortedEnumerates(yaml.Keys);
      var s := ImportFiles(env, w, Sorted(yaml.Keys), TrackedPaths(renders), yaml, age, TakenBy(ps));
      Step(s.world, s.outcome)
  }

  // ---- Foreign credential files ----

  /** The pipeline's credential file carries a commit the mirror did not make. */
  predicate ForeignCredential(p: Pipeline, path: Path, creds: map<PipelineID, CredRender>, age: map<Path, Sha>) {
    !p.credentialsExternal && p.id in creds && path in age && age[path] != creds[p.id].blob
  }

  /** flagForeignCredentialFiles over the pipelines `ps` of the list `all`. */
  function FlagForeign(b: Books, all: seq<Pipeline>, ps: seq<Pipeline>, creds: map<PipelineID, CredRender>, age: map<Path, Sha>): Books
    decreases |ps|
  {
    if ps == [] then b
    else
      var path := CredentialPath(FileSlug(all, ps[0]));
      FlagForeign(if ForeignCredential(ps[0], path, creds, age) then MarkExternal(b, path, ps[0].id) else b,
                  all, ps[1..], creds, age)
  }

  /** AdoptCustomer: hydrate, adopt or refuse, flag; all from one tree listing. */
  ghost function AdoptCustomer(env: Env, w: World): Step {
    if !env.wiring.drift then Step(w, Done)
    else
      var listed := ListTree(w.repo);
      if listed.result.Err? then Step(World(listed.repo, w.books), Failed(listed.result.error))
      else
        var yaml, age := YamlTree(listed.result.value), AgeTree(listed.result.value);
        var ps, renders := List(w.books), w.books.defs;
        var s := ImportUnrendered(env, World(listed.repo, w.books), ps, renders, yaml, age);
        if s.outcome.Failed? then s
        else
          var t := AdoptDefinitions(env, s.world, ps, renders, yaml);
          if t.outcome.Failed? || !env.ageWired || !env.wiring.ownership then t
          else Step(World(t.world.repo, FlagForeign(t.world.books, ps, ps, t.world.books.creds, age)), Done)
  }
}
