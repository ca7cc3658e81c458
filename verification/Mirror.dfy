/** The converge of the pipelines repository to a desired set of files
    (workspace/pipelinemirror.go), as functions of the whole state. */
module Mirror {
  import opened Basics
  import opened Domain
  import opened GitRepo

  // ---- Bookkeeping state ----

  /** pipeline_definition_renders: path and blob of the last render, and the last
      blob the adopt pass refused. */
  datatype DefRender = DefRender(path: Path, blob: Sha, refused: Option<Sha>)

  /** A collision-free fingerprint of (recipient, plaintext). */
  datatype Fingerprint = Fingerprint(recipient: string, plaintext: Json)

  /** pipeline_credential_renders. */
  datatype CredRender = CredRender(fingerprint: Fingerprint, blob: Sha)

  datatype Note =
    | DriftNote(path: Path, id: PipelineID)
    | ExternalNote(path: Path, id: PipelineID)
    | AdoptedNote(path: Path, id: PipelineID)
    | RefusedNote(path: Path, id: PipelineID)

  /** The workspace database: pipeline rows (`order` is the created_at order a list
      query returns), render bookkeeping and notifications. `nonce` is the next age
      encryption nonce. */
  datatype Books = Books(
    rows: map<PipelineID, Pipeline>,
    order: seq<PipelineID>,
    defs: map<PipelineID, DefRender>,
    creds: map<PipelineID, CredRender>,
    notes: seq<Note>,
    nonce: nat)

  datatype World = World(repo: Repo, books: Books)

  /** Which optional stores the mirror was given. */
  datatype Wiring = Wiring(drift: bool, ownership: bool)

  datatype Outcome = Done | Failed(error: MirrorError)
  datatype Step = Step(world: World, outcome: Outcome)

  // ---- Paths ----

  predicate IsCredentialPath(p: Path) {
    HasPrefix(p, "pipelines/") && HasSuffix(p, ".credentials.age")
  }

  predicate IsDefinitionPath(p: Path) {
    HasPrefix(p, "pipelines/") && !HasSuffix(p, ".credentials.age") && HasSuffix(p, ".yaml")
  }

  function YamlTree(tree: map<Path, Sha>): map<Path, Sha> {
    tree - (set p | p in tree && !IsDefinitionPath(p))
  }

  function AgeTree(tree: map<Path, Sha>): map<Path, Sha> {
    tree - (set p | p in tree && !IsCredentialPath(p))
  }

  // ---- Desired state ----

  datatype DefinitionFile = DefinitionFile(id: PipelineID, content: Content)

  /** `external` marks a file the box owns: the path is kept, never written. */
  datatype CredentialFile = CredentialFile(id: PipelineID, plaintext: Json, external: bool)

  /** Everything one converge works from. `credentials` is None when age rendering is
      not wired; the two row snapshots were read before the tree. */
  datatype Plan = Plan(
    desired: map<Path, DefinitionFile>,
    credentials: Option<map<Path, CredentialFile>>,
    recipient: string,
    defRows: map<PipelineID, DefRender>,
    credRows: map<PipelineID, CredRender>)

  // ---- Bookkeeping writes (foreign keys make them no-ops without a row) ----

  function RecordDefinition(cfg: Wiring, b: Books, id: PipelineID, path: Path, blob: Sha): Books {
    if cfg.drift && id in b.rows then b.(defs := b.defs[id := DefRender(path, blob, None)]) else b
  }

  function RecordCredential(b: Books, id: PipelineID, fp: Fingerprint, blob: Sha): Books {
    if id in b.rows then b.(creds := b.creds[id := CredRender(fp, blob)]) else b
  }

  function Notify(b: Books, n: Note): Books {
    b.(notes := b.notes + [n])
  }

  /** markCredentialsExternal: flip the flag and tell the user. */
  function MarkExternal(b: Books, path: Path, id: PipelineID): Books {
    if id in b.rows then
      Notify(b.(rows := b.rows[id := b.rows[id].(credentialsExternal := true)]), ExternalNote(path, id))
    else b
  }

  // ---- Definition files ----

  /** A recorded render of this very path whose blob is not the one in the tree. */
  predicate Drifted(row: Option<DefRender>, path: Path, treeSha: Sha) {
    row.Some? && row.value.path == path && row.value.blob != treeSha
  }

  function AdoptInSync(cfg: Wiring, b: Books, id: PipelineID, path: Path, treeSha: Sha, row: Option<DefRender>): Books {
    if row.None? || row.value.blob != treeSha || row.value.path != path
    then RecordDefinition(cfg, b, id, path, treeSha)
    else b
  }

  /** upsertFile. */
  function UpsertFile(cfg: Wiring, w: World, path: Path, df: DefinitionFile,
                      existing: map<Path, Sha>, defRows: map<PipelineID, DefRender>): Step
  {
    if path !in existing then
      var put := PutContents(w.repo, path, df.content, None);
      if put.result.Err? then Step(World(put.repo, w.books), Failed(put.result.error))
      else Step(World(put.repo, RecordDefinition(cfg, w.books, df.id, path, put.result.value)), Done)
    else
      var got := GetContents(w.repo, path);
      if got.result.Err? then Step(World(got.repo, w.books), Failed(got.result.error))
      else
        var current, row := got.result.value, Lookup(defRows, df.id);
        if current == df.content then
          Step(World(got.repo, AdoptInSync(cfg, w.books, df.id, path, existing[path], row)), Done)
        else
          var put := PutContents(got.repo, path, df.content, Some(ShaOf(current)));
          if put.result.Err? then Step(World(put.repo, w.books), Failed(put.result.error))
          else
            var recorded := RecordDefinition(cfg, w.books, df.id, path, put.result.value);
            Step(World(put.repo, if Drifted(row, path, existing[path])
                                 then Notify(recorded, DriftNote(path, df.id)) else recorded), Done)
  }

  function UpsertFiles(cfg: Wiring, w: World, paths: seq<Path>, plan: Plan, existing: map<Path, Sha>): Step
    requires forall p :: p in paths ==> p in plan.desired
    decreases |paths|
  {
    if paths == [] then Step(w, Done)
    else
      var s := UpsertFile(cfg, w, paths[0], plan.desired[paths[0]], existing, plan.defRows);
      if s.outcome.Failed? then s else UpsertFiles(cfg, s.world, paths[1..], plan, existing)
  }

  /** One turn of deleteStaleRendered: a stale definition goes only if it still opens
      with the rendered header. */
  function DeleteRendered(w: World, path: Path, treeSha: Sha): Step {
    var got := GetContents(w.repo, path);
    if got.result.Err? then Step(World(got.repo, w.books), Failed(got.result.error))
    else if !HasHeader(got.result.value) then Step(World(got.repo, w.books), Done)
    else
      var del := DeleteContents(got.repo, path, treeSha);
      Step(World(del.repo, w.books), if del.result.Err? then Failed(del.result.error) else Done)
  }

  function DeleteStaleRendered(w: World, paths: seq<Path>, existing: map<Path, Sha>, keep: set<Path>): Step
    requires forall p :: p in paths ==> p in existing
    decreases |paths|
  {
    if paths == [] then Step(w, Done)
    else
      var s := if paths[0] in keep then Step(w, Done) else DeleteRendered(w, paths[0], existing[paths[0]]);
      if s.outcome.Failed? then s else DeleteStaleRendered(s.world, paths[1..], existing, keep)
  }

  // ---- Credential files ----

  /** The recorded render is the file in the tree and still says what it should. */
  predicate Current(row: Option<CredRender>, fp: Fingerprint, treeSha: Sha) {
    row.Some? && row.value.fingerprint == fp && row.value.blob == treeSha
  }

  /** A commit the mirror did not make, on a file only the box can decrypt. */
  predicate Foreign(cfg: Wiring, row: Option<CredRender>, treeSha: Sha) {
    row.Some? && row.value.blob != treeSha && cfg.ownership
  }

  function RenderCredential(w: World, path: Path, cf: CredentialFile, recipient: string, guard: Option<Sha>): Step {
    var cipher := Age(w.books.nonce, recipient, cf.plaintext);
    var b := w.books.(nonce := w.books.nonce + 1);
    var put := PutContents(w.repo, path, cipher, guard);
    if put.result.Err? then Step(World(put.repo, b), Failed(put.result.error))
    else Step(World(put.repo, RecordCredential(b, cf.id, Fingerprint(recipient, cf.plaintext), put.result.value)), Done)
  }

  /** upsertCredentialFile, with skipTrackedCredentialFile's two ways to skip. */
  function UpsertCredentialFile(cfg: Wiring, w: World, path: Path, cf: CredentialFile, recipient: string,
                                credRows: map<PipelineID, CredRender>, existing: map<Path, Sha>): Step
  {
    var fp, row := Fingerprint(recipient, cf.plaintext), Lookup(credRows, cf.id);
    if cf.external then Step(w, Done)
    else if path in existing && Current(row, fp, existing[path]) then Step(w, Done)
    else if path in existing && Foreign(cfg, row, existing[path]) then
      Step(World(w.repo, MarkExternal(w.books, path, cf.id)), Done)
    else RenderCredential(w, path, cf, recipient, Lookup(existing, path))
  }

  function UpsertCredentialFiles(cfg: Wiring, w: World, paths: seq<Path>, files: map<Path, CredentialFile>,
                                 plan: Plan, existing: map<Path, Sha>): Step
    requires forall p :: p in paths ==> p in files
    decreases |paths|
  {
    if paths == [] then Step(w, Done)
    else
      var s := UpsertCredentialFile(cfg, w, paths[0], files[paths[0]], plan.recipient, plan.credRows, existing);
      if s.outcome.Failed? then s else UpsertCredentialFiles(cfg, s.world, paths[1..], files, plan, existing)
  }

  function DeleteOne(w: World, path: Path, treeSha: Sha): Step {
    var del := DeleteContents(w.repo, path, treeSha);
    Step(World(del.repo, w.books), if del.result.Err? then Failed(del.result.error) else Done)
  }

  /** deleteStale. */
  function DeleteStale(w: World, paths: seq<Path>, existing: map<Path, Sha>, keep: set<Path>): Step
    requires forall p :: p in paths ==> p in existing
    decreases |paths|
  {
    if paths == [] then Step(w, Done)
    else
      var s := if paths[0] in keep then Step(w, Done) else DeleteOne(w, paths[0], existing[paths[0]]);
      if s.outcome.Failed? then s else DeleteStale(s.world, paths[1..], existing, keep)
  }

  // ---- converge ----

  ghost function ConvergeDefinitions(cfg: Wiring, w: World, plan: Plan, yaml: map<Path, Sha>): Step {
    SortedEnumerates(plan.desired.Keys);
    SortedEnumerates(yaml.Keys);
    var s := UpsertFiles(cfg, w, Sorted(plan.desired.Keys), plan, yaml);
    if s.outcome.Failed? then s
    else DeleteStaleRendered(s.world, Sorted(yaml.Keys), yaml, plan.desired.Keys)
  }

  ghost function ConvergeCredentials(cfg: Wiring, w: World, files: map<Path, CredentialFile>, plan: Plan,
                                     age: map<Path, Sha>): Step
  {
    SortedEnumerates(files.Keys);
    SortedEnumerates(age.Keys);
    var s := UpsertCredentialFiles(cfg, w, Sorted(files.Keys), files, plan, age);
    if s.outcome.Failed? then s
    else DeleteStale(s.world, Sorted(age.Keys), age, files.Keys)
  }

  ghost function Converge(cfg: Wiring, w: World, plan: Plan): Step {
    var listed := ListTree(w.repo);
    if listed.result.Err? then Step(World(listed.repo, w.books), Failed(listed.result.error))
    else
      var tree := listed.result.value;
      var s := ConvergeDefinitions(cfg, World(listed.repo, w.books), plan, YamlTree(tree));
      if s.outcome.Failed? || plan.credentials.None? then s
      else ConvergeCredentials(cfg, s.world, plan.credentials.value, plan, AgeTree(tree))
  }
}
