/** Which files an adopt pass makes rows of, and which rows: on the fields of the file. */
module Importing {
  import opened Basics
  import opened Domain
  import opened FileDrop
  import opened GitRepo
  import opened Mirror
  import opened Slugs
  import opened Sync
  import opened Adopt
  import opened Adopting
  import opened Passes

  // ---- What a file stands for ----

  /** The spellings the uuid column reads. */
  ghost predicate ReadableUuid(s: string) {
    || StandardUuid(s)
    || (|s| == 38 && s[0] == '{' && s[37] == '}' && StandardUuid(s[1..37]))
    || (|s| == 32 && forall i :: 0 <= i < 32 ==> IsHex(s[i]))
  }

  /** The credential file that belongs to a definition file. */
  ghost predicate HasCredentialBeside(files: map<Path, Content>, x: Path) {
    |x| >= 5 && x[..|x| - 5] + ".credentials.age" in files
  }

  /** The row of a file: its fields, no credentials, and external if a credential file lies
      beside it; a filesystem source over its own upload prefix is the upload it came from. */
  ghost function RowOf(f: PipelineFile, external: bool): Pipeline {
    var p := Pipeline(f.id, f.name, f.sourceType, if f.sourceConfig == map[] then None else Some(Obj(f.sourceConfig)), Some(EMPTY_OBJECT),
                      f.datasetName, f.schedule, f.writeDisposition, f.mergeStrategy, f.enabled, external);
    if !PointsAtOwnUploads(p) then p
    else p.(sourceType := FILE_UPLOAD, sourceConfig := Some(UploadConfig(ParseFilesystem(p.sourceConfig).value.tables)))
  }

  /** It can be a row beside those there are: an id the column reads and nobody has, a name
      nobody has, and a config that is there and valid for its type. */
  ghost predicate Admissible(env: Env, b: Books, f: PipelineFile) {
    var row := RowOf(f, false);
    && ReadableUuid(f.id) && f.id !in b.rows
    && f.name != "" && (forall id :: id in b.rows ==> b.rows[id].name != f.name)
    && row.sourceConfig.Some? && env.valid(row.sourceType, row.sourceConfig)
  }

  // ---- One file ----

  lemma ReadsAsRow(env: Env, c: Content, b: Books, external: bool)
    ensures var p := Parsed(env, c, AllTaken(b));
            && (p.Some? && Storable(p.value) <==> c.Doc? && Admissible(env, b, c.file))
            && (p.Some? ==> p.value.(credentials := Some(EMPTY_OBJECT), credentialsExternal := external) == RowOf(c.file, external))
  {
    if c.Doc? {
      var q := FromFile(c.file.id, c.file);
      assert ParseFilesystem(q.sourceConfig) == ParseFilesystem(q.(credentials := Some(EMPTY_OBJECT), credentialsExternal := external).sourceConfig);
      assert c.file.name !in Names(b) <==> forall id :: id in b.rows ==> b.rows[id].name != c.file.name;
    }
  }

  lemma BesideIs(files: map<Path, Content>, x: Path)
    requires IsDefinitionPath(x)
    ensures CredentialPathFor(x) in AgeTree(Tree(files)) <==> HasCredentialBeside(files, x)
  {
    var y := x[..|x| - 5] + ".credentials.age";
    assert CredentialPathFor(x) == y;
    SuffixOfConcat(x[..|x| - 5], ".credentials.age");
    assert y[..10] == x[..10];
  }

  // ---- An untracked file alone ----

  ghost predicate OnlyUntracked(w: World, x: Path) {
    && x in YamlFiles(w) && x !in TrackedPaths(w.books.defs)
    && forall y :: y in YamlFiles(w) && y != x ==> y in TrackedPaths(w.books.defs)
  }

  lemma OnlyOffered(env: Env, w: World, x: Path)
    requires OnlyUntracked(w, x)
    ensures Offered(env, w, x) == Parsed(env, w.repo.files[x], AllTaken(w.books))
    ensures if Offered(env, w, x).Some? then FirstOffered(env, w, x) else NothingImportable(env, w)
  {
    LexTotal(x, x);
    assert forall y :: y in YamlFiles(w) && y != x ==> Offered(env, w, y).None?;
  }

  /** Whatever the batch takes for free, a file whose id or name a row holds is skipped. */
  lemma ClashIsSkipped(env: Env, w: World, path: Path, yaml: map<Path, Sha>, age: map<Path, Sha>, taken: Taken)
    requires Quiet(w.repo) && path in yaml && path in w.repo.files && w.repo.files[path].Doc?
    requires var f := w.repo.files[path].file;
             && ReadableUuid(f.id) && f.sourceConfig != map[]
             && (f.id in w.books.rows || exists id :: id in w.books.rows && w.books.rows[id].name == f.name)
    ensures var s := ImportFile(env, w, path, yaml, age, taken);
            s.outcome.Done? && s.world.books == w.books && s.taken == taken
  {
    var f := w.repo.files[path].file;
    var p := Restore(FromFile(f.id, f));
    assert p.id == f.id && p.name == f.name && p.sourceConfig.Some?;
  }

  // ---- Every row a pass makes ----

  /** The row of id is that of the file at x, tracked there. */
  ghost predicate MadeFrom(files: map<Path, Content>, b: Books, id: PipelineID, x: Path) {
    && x in files && IsDefinitionPath(x) && files[x].Doc? && files[x].file.id == id
    && Lookup(b.rows, id) == Some(RowOf(files[x].file, HasCredentialBeside(files, x)))
    && Lookup(b.defs, id) == Some(DefRender(x, ShaOf(files[x]), None))
  }

  lemma TurnMakes(env: Env, w: World, path: Path, tracked: set<Path>, yaml: map<Path, Sha>, age: map<Path, Sha>, taken: Taken, id: PipelineID)
    requires Quiet(w.repo) && env.wiring.drift && TableOk(w.books) && Covers(taken, w.books)
    requires path in yaml && yaml == YamlTree(Tree(w.repo.files)) && age == AgeTree(Tree(w.repo.files))
    requires id !in w.books.rows && id in ImportTurn(env, w, path, tracked, yaml, age, taken).world.books.rows
    ensures path !in tracked && MadeFrom(w.repo.files, ImportTurn(env, w, path, tracked, yaml, age, taken).world.books, id, path)
  {
    ImportFileQuiet(env, w, path, age, taken);
    assert taken == AllTaken(w.books);
    ReadsAsRow(env, w.repo.files[path], w.books, CredentialPathFor(path) in age);
    BesideIs(w.repo.files, path);
  }

  lemma {:induction false} ImportFilesMake(env: Env, w: World, paths: seq<Path>, tracked: set<Path>, yaml: map<Path, Sha>,
                                           age: map<Path, Sha>, taken: Taken, id: PipelineID) returns (x: Path)
    requires Quiet(w.repo) && env.wiring.drift && TableOk(w.books) && Covers(taken, w.books)
    requires yaml == YamlTree(Tree(w.repo.files)) && age == AgeTree(Tree(w.repo.files)) && forall p :: p in paths ==> p in yaml
    requires id !in w.books.rows && id in ImportFiles(env, w, paths, tracked, yaml, age, taken).world.books.rows
    ensures x !in tracked && MadeFrom(w.repo.files, ImportFiles(env, w, paths, tracked, yaml, age, taken).world.books, id, x)
    decreases |paths|
  {
    assert paths[0] in yaml;
    ImportTurnQuiet(env, w, paths[0], tracked, yaml, age, taken);
    var s := ImportTurn(env, w, paths[0], tracked, yaml, age, taken);
    if id in s.world.books.rows {
      x := paths[0];
      TurnMakes(env, w, x, tracked, yaml, age, taken, id);
      if s.outcome.Done? {
        ImportFilesQuiet(env, s.world, paths[1..], tracked, yaml, age, s.taken);
        assert SameRowAt(s.world.books, ImportFiles(env, s.world, paths[1..], tracked, yaml, age, s.taken).world.books, id);
      }
    } else {
      x := ImportFilesMake(env, s.world, paths[1..], tracked, yaml, age, s.taken, id);
    }
  }

  lemma {:induction false} FlagForeignElsewhere(b: Books, all: seq<Pipeline>, ps: seq<Pipeline>, creds: map<PipelineID, CredRender>, age: map<Path, Sha>,
                                                id: PipelineID)
    requires !OnList(ps, id)
    ensures SameRowAt(b, FlagForeign(b, all, ps, creds, age), id)
    decreases |ps|
  {
    if ps != [] {
      NotListedTail(ps, id);
      var path := CredentialPath(FileSlug(all, ps[0]));
      var next := if ForeignCredential(ps[0], path, creds, age) then MarkExternal(b, path, ps[0].id) else b;
      FlagForeignElsewhere(next, all, ps[1..], creds, age, id);
      assert SameRowAt(b, next, id);
    }
  }

  /** A new row is not touched again by the pass that made it. */
  lemma NewRowStands(env: Env, w: World, id: PipelineID)
    requires Ready(env, w) && id !in w.books.rows
    ensures SameRowAt(AfterImport(env, w).world.books, AdoptCustomer(env, w).world.books, id)
  {
    ImportPhase(env, w);
    PassIsItsPhases(env, w);
    NotInList(w.books, id);
    var ps, i := List(w.books), AfterImport(env, w).world;
    HydratedSnapshot(w.books, i.books, YamlFiles(w));
    AdoptDefinitionsFrame(env, i, ps, w.books.defs);
    var t := AfterAdopt(env, w).world.books;
    assert SameRowAt(i.books, t, id);
    FlagForeignElsewhere(t, ps, ps, t.creds, AgeFiles(w), id);
  }

  /** Every row an undisturbed pass makes, completed or not, holds the fields of an untracked
      definition file with that id, and is tracked at that file. */
  lemma NewRowsComeFromFiles(env: Env, w: World, id: PipelineID) returns (x: Path)
    requires Ready(env, w) && id !in w.books.rows && id in AdoptCustomer(env, w).world.books.rows
    ensures x !in TrackedPaths(w.books.defs) && MadeFrom(w.repo.files, AdoptCustomer(env, w).world.books, id, x)
  {
    PassKeepsKeys(env, w);
    NewRowStands(env, w, id);
    if env.importer {
      ImportPhaseRuns(env, w);
      TakenCovers(w.books);
      x := ImportFilesMake(env, AfterList(w), Sorted(YamlFiles(w).Keys), TrackedPaths(w.books.defs), YamlFiles(w), AgeFiles(w), AllTaken(w.books), id);
    } else {
      ImportPhase(env, w);
      x := "";
    }
  }

  /** An untracked file alone, whoever wrote it and however it is formatted, becomes a row if
      and only if it decodes and is admissible; the row then holds its fields. */
  lemma LoneFileImportedIff(env: Env, w: World, x: Path)
    requires Ready(env, w) && env.importer && OnlyUntracked(w, x)
    ensures var c, b' := w.repo.files[x], AdoptCustomer(env, w).world.books;
            if c.Doc? && Admissible(env, w.books, c.file)
            then b'.rows.Keys == w.books.rows.Keys + {c.file.id} && MadeFrom(w.repo.files, b', c.file.id, x)
            else b'.rows.Keys == w.books.rows.Keys
  {
    var c, b' := w.repo.files[x], AdoptCustomer(env, w).world.books;
    OnlyOffered(env, w, x);
    ReadsAsRow(env, c, w.books, false);
    ImportPhase(env, w);
    PassKeepsKeys(env, w);
    forall id | id in b'.rows && id !in w.books.rows ensures c.Doc? && id == c.file.id && MadeFrom(w.repo.files, b', id, x) {
      var y := NewRowsComeFromFiles(env, w, id);
      assert y == x;
    }
    if Offered(env, w, x).Some? { PassImports(env, w, x); }
  }
}
