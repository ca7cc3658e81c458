/** The box's `pipelines` repository as the mirror sees it through RepoFileClient
    (workspace/boxrepo.go): sha-guarded writes, with other people's commits and
    outages arriving between any two calls. */
module GitRepo {
  import opened Basics
  import opened Domain

  type Path = string

  /** pipelineFile: the YAML shape of one rendered definition. */
  datatype PipelineFile = PipelineFile(
    id: string,
    name: string,
    sourceType: string,
    sourceConfig: map<string, Json>,
    datasetName: string,
    schedule: string,
    writeDisposition: string,
    mergeStrategy: string,
    enabled: bool)

  /** File contents. A Doc decodes as a definition file; `style` stands for the
      formatting a decoder ignores. Age is one armored ciphertext, told apart from
      every other encryption of the same plaintext by its nonce. */
  datatype Content =
    | Doc(header: bool, style: nat, file: PipelineFile)
    | Junk(marked: bool, raw: string)
    | Age(nonce: nat, recipient: string, plaintext: Json)

  /** The content opens with the rendered-by-the-Console header. */
  predicate HasHeader(c: Content) {
    (c.Doc? && c.header) || (c.Junk? && c.marked)
  }

  /** A git blob sha names its content and contents never collide, so a blob is its own
      sha here. */
  type Sha = Content

  function ShaOf(c: Content): Sha { c }

  function BlobOf(sha: Sha): Content { sha }

  datatype MirrorError = FileChanged | NotFound | Unavailable | Unrenderable | NameTaken | NotStorable | Invalid
  datatype Result<+T> = Ok(value: T) | Err(error: MirrorError)

  /** One client call that succeeded, or one commit somebody else made. */
  datatype Event =
    | Listed(tree: map<Path, Sha>)
    | Got(path: Path, content: Content)
    | Put(path: Path, before: Option<Content>, after: Content)
    | Deleted(path: Path, gone: Content)
    | ForeignCommit(path: Path, left: Option<Content>)

  /** A commit of the mirror's own. */
  predicate IsWrite(e: Event) {
    e.Put? || e.Deleted?
  }

  /** A commit somebody else makes: new content for a path, or its removal. */
  datatype Edit = Edit(path: Path, content: Option<Content>)

  /** What happens before a client call: foreign commits, then perhaps an outage. */
  datatype Turn = Turn(edits: seq<Edit>, down: bool)

  /** `schedule` is the future of the environment, one turn per client call; when it
      is used up nobody else commits and every call gets through. `held` collects
      every blob a path has ever had, and `clean` stays true while no foreign commit
      has brought back a blob its path had already moved on from. */
  datatype Repo = Repo(
    files: map<Path, Content>,
    history: seq<Event>,
    schedule: seq<Turn>,
    held: set<(Path, Content)>,
    clean: bool)

  // ---- Foreign commits ----

  /** An edit that changes nothing is no commit. */
  function ApplyEdit(r: Repo, e: Edit): Repo {
    if Lookup(r.files, e.path) == e.content then r
    else
      var log := r.history + [ForeignCommit(e.path, e.content)];
      match e.content
      case None => r.(files := r.files - {e.path}, history := log)
      case Some(c) =>
        r.(files := r.files[e.path := c], history := log,
           held := r.held + {(e.path, c)}, clean := r.clean && (e.path, c) !in r.held)
  }

  function ApplyEdits(r: Repo, edits: seq<Edit>): Repo
    decreases |edits|
  {
    if edits == [] then r else ApplyEdits(ApplyEdit(r, edits[0]), edits[1..])
  }

  /** The repository as the next client call finds it. */
  function Arrive(r: Repo): Repo {
    if r.schedule == [] then r
    else ApplyEdits(r.(schedule := r.schedule[1..]), r.schedule[0].edits)
  }

  predicate Unreachable(r: Repo) {
    r.schedule != [] && r.schedule[0].down
  }

  predicate Quiet(r: Repo) {
    r.schedule == []
  }

  // ---- Client calls ----

  datatype Reply<+T> = Reply(repo: Repo, result: Result<T>)

  /** Every path with its blob sha. */
  function Tree(files: map<Path, Content>): map<Path, Sha> {
    files
  }

  function Log(r: Repo, e: Event): Repo {
    r.(history := r.history + [e])
  }

  function ListTree(r: Repo): Reply<map<Path, Sha>> {
    var now := Arrive(r);
    if Unreachable(r) then Reply(now, Err(Unavailable))
    else Reply(Log(now, Listed(Tree(now.files))), Ok(Tree(now.files)))
  }

  function GetContents(r: Repo, path: Path): Reply<Content> {
    var now := Arrive(r);
    if Unreachable(r) then Reply(now, Err(Unavailable))
    else if path !in now.files then Reply(now, Err(NotFound))
    else Reply(Log(now, Got(path, now.files[path])), Ok(now.files[path]))
  }

  function Commit(r: Repo, path: Path, content: Content): Repo {
    Log(r.(files := r.files[path := content], held := r.held + {(path, content)}),
        Put(path, Lookup(r.files, path), content))
  }

  /** Create when `guard` is None, otherwise update the blob with exactly that sha. */
  function PutContents(r: Repo, path: Path, content: Content, guard: Option<Sha>): Reply<Sha> {
    var now := Arrive(r);
    if Unreachable(r) then Reply(now, Err(Unavailable))
    else if guard.None? && path in now.files then Reply(now, Err(FileChanged))
    else if guard.Some? && path !in now.files then Reply(now, Err(NotFound))
    else if guard.Some? && ShaOf(now.files[path]) != guard.value then Reply(now, Err(FileChanged))
    else Reply(Commit(now, path, content), Ok(ShaOf(content)))
  }

  function DeleteContents(r: Repo, path: Path, guard: Sha): Reply<()> {
    var now := Arrive(r);
    if Unreachable(r) then Reply(now, Err(Unavailable))
    else if path !in now.files then Reply(now, Err(NotFound))
    else if ShaOf(now.files[path]) != guard then Reply(now, Err(FileChanged))
    else Reply(Log(now.(files := now.files - {path}), Deleted(path, now.files[path])), Ok(()))
  }

  // ---- What foreign commits cannot do ----

  /** The log grew by foreign commits alone. */
  ghost predicate OnlyForeign(h: seq<Event>, h': seq<Event>) {
    h <= h' && forall i :: |h| <= i < |h'| ==> h'[i].ForeignCommit?
  }

  lemma {:induction false} EditsFrame(r: Repo, edits: seq<Edit>)
    ensures var r' := ApplyEdits(r, edits);
            && OnlyForeign(r.history, r'.history) && r'.schedule == r.schedule
            && r.held <= r'.held && (r'.clean ==> r.clean)
    decreases |edits|
  {
    if edits != [] { EditsFrame(ApplyEdit(r, edits[0]), edits[1..]); }
  }

  lemma ArriveFrame(r: Repo)
    ensures var r' := Arrive(r);
            && OnlyForeign(r.history, r'.history) && r.held <= r'.held && (r'.clean ==> r.clean)
            && (Quiet(r) ==> r' == r)
  {
    if !Quiet(r) { EditsFrame(r.(schedule := r.schedule[1..]), r.schedule[0].edits); }
  }

  /** Every blob in the tree is one its path has held. */
  ghost predicate HeldCovers(r: Repo) {
    forall p :: p in r.files ==> (p, r.files[p]) in r.held
  }

  lemma {:induction false} EditsNeverRestore(r: Repo, edits: seq<Edit>, path: Path, c: Content)
    requires HeldCovers(r)
    ensures HeldCovers(ApplyEdits(r, edits))
    ensures (path, c) in r.held && Lookup(r.files, path) != Some(c) && ApplyEdits(r, edits).clean
            ==> Lookup(ApplyEdits(r, edits).files, path) != Some(c)
    decreases |edits|
  {
    if edits != [] {
      var next := ApplyEdit(r, edits[0]);
      EditsNeverRestore(next, edits[1..], path, c);
      EditsFrame(next, edits[1..]);
    }
  }

  /** While foreign commits bring nothing back, a blob a path has moved on from
      never reappears there. */
  lemma ArriveNeverRestores(r: Repo, path: Path, c: Content)
    requires HeldCovers(r)
    ensures HeldCovers(Arrive(r))
    ensures (path, c) in r.held && Lookup(r.files, path) != Some(c) && Arrive(r).clean
            ==> Lookup(Arrive(r).files, path) != Some(c)
  {
    if !Quiet(r) {
      EditsNeverRestore(r.(schedule := r.schedule[1..]), r.schedule[0].edits, path, c);
    }
  }

  lemma ArriveHeld(r: Repo)
    requires HeldCovers(r)
    ensures HeldCovers(Arrive(r))
  {
    if !Quiet(r) {
      EditsNeverRestore(r.(schedule := r.schedule[1..]), r.schedule[0].edits, "", Junk(false, ""));
    }
  }

  /** No turn of the schedule touches the path. */
  ghost predicate Untouched(schedule: seq<Turn>, path: Path) {
    forall i, j :: 0 <= i < |schedule| && 0 <= j < |schedule[i].edits| ==> schedule[i].edits[j].path != path
  }

  lemma {:induction false} EditsElsewhere(r: Repo, edits: seq<Edit>, path: Path)
    requires forall j :: 0 <= j < |edits| ==> edits[j].path != path
    ensures Lookup(ApplyEdits(r, edits).files, path) == Lookup(r.files, path)
    decreases |edits|
  {
    if edits != [] { EditsElsewhere(ApplyEdit(r, edits[0]), edits[1..], path); }
  }

  lemma ArriveElsewhere(r: Repo, path: Path)
    requires Untouched(r.schedule, path)
    ensures Lookup(Arrive(r).files, path) == Lookup(r.files, path)
    ensures Untouched(Arrive(r).schedule, path)
  {
    if !Quiet(r) {
      EditsElsewhere(r.(schedule := r.schedule[1..]), r.schedule[0].edits, path);
      EditsFrame(r.(schedule := r.schedule[1..]), r.schedule[0].edits);
    }
  }
}
