/** SyncCustomer: from the pipeline rows to a plan, and the converge with its single
    conflict retry (workspace/pipelinemirror.go). */
module Sync {
  import opened Basics
  import opened Domain
  import opened FileDrop
  import opened GitRepo
  import opened Mirror
  import opened Slugs

  /** The deployment around the mirror. `valid` is ValidateSourceConfig and `serve`
      the serve-time credential shape (OAuth client injection); both are fixed
      functions of their arguments. */
  datatype Env = Env(
    wiring: Wiring,
    ageWired: bool,
    ageKey: Option<string>,
    storage: S3Config,
    importer: bool,
    valid: (string, RawJson) -> bool,
    serve: (string, Json) -> Json)

  // ---- Reading the table ----

  const NO_ROW := Pipeline("", "", "", None, None, "", "", "", "", false, false)

  function Row(b: Books, id: PipelineID): Pipeline {
    if id in b.rows then b.rows[id] else NO_ROW
  }

  /** ListPipelinesByCustomer: created_at order, never any credentials. */
  function List(b: Books): (ps: seq<Pipeline>)
    ensures |ps| == |b.order|
    ensures forall i :: 0 <= i < |ps| ==> ps[i] == Row(b, b.order[i]).(credentials := None)
  {
    seq(|b.order|, i requires 0 <= i < |b.order| => Row(b, b.order[i]).(credentials := None))
  }

  /** What the table's constraints guarantee: the primary key, a config in every row
      (source_config is NOT NULL), and names unique. */
  ghost predicate TableOk(b: Books) {
    && NoDuplicates(b.order)
    && (forall id :: id in b.order <==> id in b.rows)
    && (forall id :: id in b.rows ==> b.rows[id].id == id && b.rows[id].sourceConfig.Some?)
    && (forall id, id' :: id in b.rows && id' in b.rows && id != id' ==> b.rows[id].name != b.rows[id'].name)
    && b.defs.Keys <= b.rows.Keys && b.creds.Keys <= b.rows.Keys
  }

  // ---- file_upload rewriting ----

  function ResolveOne(env: Env, p: Pipeline): Option<Pipeline> {
    if p.sourceType != FILE_UPLOAD then Some(p)
    else if !Provisioned(env.storage) then None
    else Resolve(p, env.storage)
  }

  /** resolveFileUploads: a pipeline with nothing to load is dropped; one that was
      rewritten carries its injected storage credentials. */
  function ResolveAll(env: Env, ps: seq<Pipeline>): seq<Pipeline> {
    if ps == [] then []
    else
      var front, last := ResolveAll(env, ps[..|ps| - 1]), ResolveOne(env, ps[|ps| - 1]);
      if last.None? then front else front + [last.value]
  }

  // ---- Rendering ----

  function DefinitionPath(slug: string): Path {
    "pipelines/" + slug + ".yaml"
  }

  function CredentialPath(slug: string): Path {
    "pipelines/" + slug + ".credentials.age"
  }

  /** The YAML source_config; None when the stored JSON is not an object. */
  function ConfigFields(raw: RawJson): Option<map<string, Json>> {
    if IsEmptyJson(raw) then Some(map[])
    else if raw.value.Obj? then Some(raw.value.fields)
    else None
  }

  predicate Renderable(ps: seq<Pipeline>) {
    forall p :: p in ps ==> ConfigFields(p.sourceConfig).Some?
  }

  /** renderPipelineFile. */
  function Render(p: Pipeline): Content
    requires ConfigFields(p.sourceConfig).Some?
  {
    Doc(true, 0, PipelineFile(p.id, p.name, p.sourceType, ConfigFields(p.sourceConfig).value,
                              p.datasetName, p.schedule, p.writeDisposition, p.mergeStrategy, p.enabled))
  }

  /** renderPipelineFiles over the pipelines `ps` of the list `all`. */
  function Definitions(all: seq<Pipeline>, ps: seq<Pipeline>): map<Path, DefinitionFile>
    requires Renderable(ps)
  {
    if ps == [] then map[]
    else
      var last := ps[|ps| - 1];
      Definitions(all, ps[..|ps| - 1])[DefinitionPath(FileSlug(all, last)) := DefinitionFile(last.id, Render(last))]
  }

  /** The credential a pipeline renders: injected storage credentials win over the row's. */
  function CredentialOf(b: Books, p: Pipeline): RawJson {
    if p.credentials.Some? then p.credentials else Row(b, p.id).credentials
  }

  function CredentialFileOf(env: Env, b: Books, p: Pipeline): Option<CredentialFile> {
    if p.credentialsExternal then Some(CredentialFile(p.id, Null, true))
    else if IsEmptyJson(CredentialOf(b, p)) then None
    else Some(CredentialFile(p.id, env.serve(p.sourceType, CredentialOf(b, p).value), false))
  }

  /** buildCredentialFiles. */
  function CredentialFiles(env: Env, b: Books, all: seq<Pipeline>, ps: seq<Pipeline>): map<Path, CredentialFile> {
    if ps == [] then map[]
    else
      var files, last := CredentialFiles(env, b, all, ps[..|ps| - 1]), ps[|ps| - 1];
      var cf := CredentialFileOf(env, b, last);
      if cf.None? then files else files[CredentialPath(FileSlug(all, last)) := cf.value]
  }

  /** desiredCredentialFiles: nothing at all without age wiring, no files without a
      deposited key. */
  function DesiredCredentials(env: Env, b: Books, ps: seq<Pipeline>): Option<map<Path, CredentialFile>> {
    if !env.ageWired then None
    else if env.ageKey.None? then Some(map[])
    else Some(CredentialFiles(env, b, ps, ps))
  }

  function MakePlan(env: Env, b: Books, ps: seq<Pipeline>): Plan
    requires Renderable(ps)
  {
    Plan(Definitions(ps, ps), DesiredCredentials(env, b, ps),
         if env.ageKey.Some? then env.ageKey.value else "",
         if env.wiring.drift then b.defs else map[],
         if env.ageKey.Some? then b.creds else map[])
  }

  function Rendered(env: Env, b: Books): seq<Pipeline> {
    ResolveAll(env, List(b))
  }

  /** SyncCustomer. The retry after a conflict works from the rows already read. */
  ghost function SyncCustomer(env: Env, w: World): Step {
    var ps := Rendered(env, w.books);
    if !Renderable(ps) then Step(w, Failed(Unrenderable))
    else
      var plan := MakePlan(env, w.books, ps);
      var s := Converge(env.wiring, w, plan);
      if s.outcome == Failed(FileChanged) then Converge(env.wiring, s.world, plan) else s
  }
}
