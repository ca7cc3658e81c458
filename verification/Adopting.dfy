/** What adopt passes guarantee: they never write the repository, they settle every
    foreign definition edit exactly once, and repeated passes come to rest. */
module Adopting {
  import opened Basics
  import opened Domain
  import opened GitRepo
  import opened Mirror
  import opened Slugs
  import opened Sync
  import opened Adopt
  import opened FixedPoint
  import opened Convergence
  import opened Syncing

  // ---- Read-only toward the repository, under any schedule ----

  lemma OnlyReadsTransitive(a: seq<Event>, b: seq<Event>, c: seq<Event>)
    requires OnlyReads(a, b) && OnlyReads(b, c)
    ensures OnlyReads(a, c)
  {
    forall i | |a| <= i < |c| ensures !IsWrite(c[i]) {
      if i < |b| { assert c[i] == b[i]; }
    }
  }

  lemma GetOnlyReads(r: Repo, path: Path)
    ensures OnlyReads(r.history, GetContents(r, path).repo.history)
  {
    ArriveFrame(r);
  }

  lemma {:induction false} AdoptDefinitionsOnlyRead(env: Env, w: World, ps: seq<Pipeline>, renders: map<PipelineID, DefRender>,
                                                    yaml: map<Path, Sha>)
    ensures OnlyReads(w.repo.history, AdoptDefinitions(env, w, ps, renders, yaml).world.repo.history)
    decreases |ps|
  {
    if ps != [] {
      var s := AdoptDefinition(env, w, ps[0], renders, yaml);
      var row := Lookup(renders, ps[0].id);
      if Pending(row, yaml) { GetOnlyReads(w.repo, row.value.path); }
      if s.outcome.Done? {
        AdoptDefinitionsOnlyRead(env, s.world, ps[1..], renders, yaml);
        OnlyReadsTransitive(w.repo.history, s.world.repo.history,
                            AdoptDefinitions(env, s.world, ps[1..], renders, yaml).world.repo.history);
      }
    }
  }

  lemma {:induction false} ImportFilesOnlyRead(env: Env, w: World, paths: seq<Path>, tracked: set<Path>, yaml: map<Path, Sha>,
                                               age: map<Path, Sha>, taken: Taken)
    requires forall p :: p in paths ==> p in yaml
    ensures OnlyReads(w.repo.history, ImportFiles(env, w, paths, tracked, yaml, age, taken).world.repo.history)
    decreases |paths|
  {
    if paths != [] {
      GetOnlyReads(w.repo, paths[0]);
      var s := ImportTurn(env, w, paths[0], tracked, yaml, age, taken);
      if s.outcome.Done? {
        ImportFilesOnlyRead(env, s.world, paths[1..], tracked, yaml, age, s.taken);
        OnlyReadsTransitive(w.repo.history, s.world.repo.history,
                            ImportFiles(env, s.world, paths[1..], tracked, yaml, age, s.taken).world.repo.history);
      }
    }
  }

  /** However the environment interferes or fails, an adopt pass makes no commit. */
  lemma AdoptOnlyReads(env: Env, w: World)
    ensures OnlyReads(w.repo.history, AdoptCustomer(env, w).world.repo.history)
  {
    if env.wiring.drift {
      ArriveFrame(w.repo);
      var listed := ListTree(w.repo);
      if listed.result.Ok? {
        var yaml, age := YamlTree(listed.result.value), AgeTree(listed.result.value);
        var ps, renders, start := List(w.books), w.books.defs, World(listed.repo, w.books);
        SortedEnumerates(yaml.Keys);
        ImportFilesOnlyRead(env, start, Sorted(yaml.Keys), TrackedPaths(renders), yaml, age, TakenBy(ps));
        var s := ImportUnrendered(env, start, ps, renders, yaml, age);
        OnlyReadsTransitive(w.repo.history, start.repo.history, s.world.repo.history);
        if s.outcome.Done? {
          AdoptDefinitionsOnlyRead(env, s.world, ps, renders, yaml);
          OnlyReadsTransitive(w.repo.history, s.world.repo.history,
                              AdoptDefinitions(env, s.world, ps, renders, yaml).world.repo.history);
        }
      }
    }
  }

  // ---- The table constraints survive, under any schedule ----

  lemma UpdateKeepsTable(b: Books, p: Pipeline)
    requires TableOk(b) && UpdateRow(b, p).Ok?
    ensures TableOk(UpdateRow(b, p).value)
  {
  }

  lemma InsertKeepsTable(b: Books, p: Pipeline)
    requires TableOk(b) && InsertRow(b, p).Ok?
    ensures TableOk(InsertRow(b, p).value)
  {
    assert p.id !in b.order;
  }

  lemma BookkeepingKeepsTable(cfg: Wiring, b: Books, id: PipelineID, path: Path, blob: Sha, n: Note)
    requires TableOk(b)
    ensures TableOk(Notify(MarkRefused(b, id, blob), n)) && TableOk(Notify(RecordDefinition(cfg, b, id, path, blob), n))
  {
  }

  lemma AdoptDefinitionKeepsTable(env: Env, w: World, p: Pipeline, renders: map<PipelineID, DefRender>, yaml: map<Path, Sha>)
    requires TableOk(w.books)
    ensures TableOk(AdoptDefinition(env, w, p, renders, yaml).world.books)
  {
    var row := Lookup(renders, p.id);
    if Pending(row, yaml) {
      var path, treeSha := row.value.path, yaml[row.value.path];
      var got := GetContents(w.repo, path);
      if got.result.Ok? {
        var adopted := ParseAdoptable(env, got.result.value, p);
        if adopted.None? {
          BookkeepingKeepsTable(env.wiring, w.books, p.id, path, treeSha, RefusedNote(path, p.id));
        } else if UpdateRow(w.books, adopted.value).Ok? {
          UpdateKeepsTable(w.books, adopted.value);
          BookkeepingKeepsTable(env.wiring, UpdateRow(w.books, adopted.value).value, p.id, path, treeSha, AdoptedNote(path, p.id));
        }
      }
    }
  }

  lemma {:induction false} AdoptDefinitionsKeepTable(env: Env, w: World, ps: seq<Pipeline>, renders: map<PipelineID, DefRender>,
                                                     yaml: map<Path, Sha>)
    requires TableOk(w.books)
    ensures TableOk(AdoptDefinitions(env, w, ps, renders, yaml).world.books)
    decreases |ps|
  {
    if ps != [] {
      AdoptDefinitionKeepsTable(env, w, ps[0], renders, yaml);
      var s := AdoptDefinition(env, w, ps[0], renders, yaml);
      if s.outcome.Done? { AdoptDefinitionsKeepTable(env, s.world, ps[1..], renders, yaml); }
    }
  }

  lemma {:induction false} ImportFilesKeepTable(env: Env, w: World, paths: seq<Path>, tracked: set<Path>, yaml: map<Path, Sha>,
                                                age: map<Path, Sha>, taken: Taken)
    requires forall p :: p in paths ==> p in yaml
    requires TableOk(w.books)
    ensures TableOk(ImportFiles(env, w, paths, tracked, yaml, age, taken).world.books)
    decreases |paths|
  {
    if paths != [] {
      var s := ImportTurn(env, w, paths[0], tracked, yaml, age, taken);
      assert TableOk(s.world.books) by {
        var got := GetContents(w.repo, paths[0]);
        if paths[0] !in tracked && got.result.Ok? {
          var p := ParseImportable(env, got.result.value, taken.ids, taken.names);
          if p.Some? {
            var q := p.value.(credentialsExternal := CredentialPathFor(paths[0]) in age);
            if InsertRow(w.books, q).Ok? { InsertKeepsTable(w.books, q); }
          }
        }
      }
      if s.outcome.Done? { ImportFilesKeepTable(env, s.world, paths[1..], tracked, yaml, age, s.taken); }
    }
  }

  lemma MarkKeepsRows(b: Books, path: Path, id: PipelineID)
    ensures var b' := MarkExternal(b, path, id);
            RowsKept(b, b') && b'.defs == b.defs && b'.creds == b.creds && b'.nonce == b.nonce
  {
  }

  lemma KeptTransitive(a: Books, b: Books, c: Books)
    requires RowsKept(a, b) && RowsKept(b, c)
    ensures RowsKept(a, c)
  {
  }

  /** Adoption writes every column but the ownership flag. */
  lemma {:induction false} AdoptionKeepsFlag(env: Env, w: World, ps: seq<Pipeline>, renders: map<PipelineID, DefRender>,
                                             yaml: map<Path, Sha>, id: PipelineID)
    requires id in w.books.rows
    ensures var b' := AdoptDefinitions(env, w, ps, renders, yaml).world.books;
            id in b'.rows && b'.rows[id].credentialsExternal == w.books.rows[id].credentialsExternal
    decreases |ps|
  {
    if ps != [] {
      var s := AdoptDefinition(env, w, ps[0], renders, yaml);
      if s.outcome.Done? { AdoptionKeepsFlag(env, s.world, ps[1..], renders, yaml, id); }
    }
  }

  lemma {:induction false} FlagForeignKeepsRows(b: Books, all: seq<Pipeline>, ps: seq<Pipeline>, creds: map<PipelineID, CredRender>,
                                                age: map<Path, Sha>)
    ensures var b' := FlagForeign(b, all, ps, creds, age);
            RowsKept(b, b') && b'.defs == b.defs && b'.creds == b.creds && b'.nonce == b.nonce
    decreases |ps|
  {
    if ps != [] {
      var path := CredentialPath(FileSlug(all, ps[0]));
      var next := if ForeignCredential(ps[0], path, creds, age) then MarkExternal(b, path, ps[0].id) else b;
      MarkKeepsRows(b, path, ps[0].id);
      FlagForeignKeepsRows(next, all, ps[1..], creds, age);
      KeptTransitive(b, next, FlagForeign(next, all, ps[1..], creds, age));
    }
  }

  lemma AdoptKeepsTable(env: Env, w: World)
    requires TableOk(w.books)
    ensures TableOk(AdoptCustomer(env, w).world.books)
  {
    if env.wiring.drift {
      var listed := ListTree(w.repo);
      if listed.result.Ok? {
        var yaml, age := YamlTree(listed.result.value), AgeTree(listed.result.value);
        var ps, renders, start := List(w.books), w.books.defs, World(listed.repo, w.books);
        SortedEnumerates(yaml.Keys);
        ImportFilesKeepTable(env, start, Sorted(yaml.Keys), TrackedPaths(renders), yaml, age, TakenBy(ps));
        var s := ImportUnrendered(env, start, ps, renders, yaml, age);
        if s.outcome.Done? {
          AdoptDefinitionsKeepTable(env, s.world, ps, renders, yaml);
          var t := AdoptDefinitions(env, s.world, ps, renders, yaml).world;
          FlagForeignKeepsRows(t.books, ps, ps, t.books.creds, age);
          EvolvesKeepsTable(t.books, FlagForeign(t.books, ps, ps, t.books.creds, age));
        }
      }
    }
  }

  // ---- What one undisturbed pass does to tracked definitions ----

  /** The fate of one listed pipeline's definition, given the files the pass saw. */
  ghost predicate Fate(env: Env, p: Pipeline, row: Option<DefRender>, files: map<Path, Content>, b: Books, b': Books) {
    var yaml := YamlTree(Tree(files));
    if !Pending(row, yaml) then Lookup(b'.rows, p.id) == Lookup(b.rows, p.id) && Lookup(b'.defs, p.id) == Lookup(b.defs, p.id)
    else
      var path := row.value.path;
      var adopted := ParseAdoptable(env, files[path], p);
      if adopted.Some? then
        && p.id in b.rows
        && Lookup(b'.rows, p.id) == Some(adopted.value.(credentialsExternal := b.rows[p.id].credentialsExternal))
        && Lookup(b'.defs, p.id) == Some(DefRender(path, ShaOf(files[path]), None))
      else
        && Lookup(b'.rows, p.id) == Lookup(b.rows, p.id)
        && Lookup(b'.defs, p.id) == Some(row.value.(refused := Some(ShaOf(files[path]))))
  }

  /** The pending edit of p is well-formed, but the table will not take it: it names no
      config, or some other row holds its name. */
  ghost predicate Stuck(env: Env, p: Pipeline, row: Option<DefRender>, files: map<Path, Content>, b: Books) {
    && Pending(row, YamlTree(Tree(files)))
    && var adopted := ParseAdoptable(env, files[row.value.path], p);
       adopted.Some? && (adopted.value.sourceConfig.None? || !NameFree(b, adopted.value))
  }

  ghost predicate IsRefusal(outcome: Outcome) {
    outcome == Failed(NameTaken) || outcome == Failed(NotStorable)
  }

  /** The one notification a pipeline's definition raises, if any. */
  ghost function NoteFor(env: Env, p: Pipeline, row: Option<DefRender>, files: map<Path, Content>): seq<Note> {
    var yaml := YamlTree(Tree(files));
    if !Pending(row, yaml) then []
    else if ParseAdoptable(env, files[row.value.path], p).Some? then [AdoptedNote(row.value.path, p.id)]
    else [RefusedNote(row.value.path, p.id)]
  }

  ghost function NotesFor(env: Env, ps: seq<Pipeline>, renders: map<PipelineID, DefRender>, files: map<Path, Content>): seq<Note>
    decreases |ps|
  {
    if ps == [] then [] else NoteFor(env, ps[0], Lookup(renders, ps[0].id), files) + NotesFor(env, ps[1..], renders, files)
  }

  ghost predicate SameRowAt(b: Books, b': Books, id: PipelineID) {
    Lookup(b'.rows, id) == Lookup(b.rows, id) && Lookup(b'.defs, id) == Lookup(b.defs, id)
  }

  lemma AdoptDefinitionReads(env: Env, w: World, p: Pipeline, renders: map<PipelineID, DefRender>)
    requires Quiet(w.repo)
    ensures var s := AdoptDefinition(env, w, p, renders, YamlTree(Tree(w.repo.files)));
            && s.world.repo.files == w.repo.files && Quiet(s.world.repo)
            && s.world.books.creds == w.books.creds && s.world.books.order == w.books.order
            && s.world.books.rows.Keys == w.books.rows.Keys
  {
  }

  lemma AdoptDefinitionElsewhere(env: Env, w: World, p: Pipeline, renders: map<PipelineID, DefRender>, yaml: map<Path, Sha>, id: PipelineID)
    requires id != p.id
    ensures SameRowAt(w.books, AdoptDefinition(env, w, p, renders, yaml).world.books, id)
  {
  }

  lemma AdoptDefinitionFate(env: Env, w: World, p: Pipeline, renders: map<PipelineID, DefRender>)
    requires Quiet(w.repo) && env.wiring.drift && TableOk(w.books)
    requires p.id in w.books.rows && Lookup(w.books.defs, p.id) == Lookup(renders, p.id)
    ensures var s := AdoptDefinition(env, w, p, renders, YamlTree(Tree(w.repo.files)));
            && (s.outcome.Done? ==> Fate(env, p, Lookup(renders, p.id), w.repo.files, w.books, s.world.books))
            && (s.outcome.Done? ==> s.world.books.notes == w.books.notes + NoteFor(env, p, Lookup(renders, p.id), w.repo.files))
            && (s.outcome.Failed? <==> Stuck(env, p, Lookup(renders, p.id), w.repo.files, w.books))
            && (s.outcome.Failed? ==> IsRefusal(s.outcome) && s.world.books == w.books)
  {
    var yaml, row := YamlTree(Tree(w.repo.files)), Lookup(renders, p.id);
    if Pending(row, yaml) {
      var c := w.repo.files[row.value.path];
      assert GetContents(w.repo, row.value.path).result == Ok(c);
      assert yaml[row.value.path] == ShaOf(c);
    }
  }

  lemma AdoptDefinitionQuiet(env: Env, w: World, p: Pipeline, renders: map<PipelineID, DefRender>)
    requires Quiet(w.repo) && env.wiring.drift && TableOk(w.books)
    requires p.id in w.books.rows && Lookup(w.books.defs, p.id) == Lookup(renders, p.id)
    ensures var s := AdoptDefinition(env, w, p, renders, YamlTree(Tree(w.repo.files)));
            && s.world.repo.files == w.repo.files && Quiet(s.world.repo)
            && (s.outcome.Done? ==> Fate(env, p, Lookup(renders, p.id), w.repo.files, w.books, s.world.books))
            && (s.outcome.Done? ==> s.world.books.notes == w.books.notes + NoteFor(env, p, Lookup(renders, p.id), w.repo.files))
            && s.world.books.creds == w.books.creds && s.world.books.order == w.books.order
            && s.world.books.rows.Keys == w.books.rows.Keys
            && (forall id :: id != p.id ==> SameRowAt(w.books, s.world.books, id))
            && (s.outcome.Failed? <==> Stuck(env, p, Lookup(renders, p.id), w.repo.files, w.books))
            && (s.outcome.Failed? ==> IsRefusal(s.outcome) && s.world.books == w.books)
  {
    var yaml := YamlTree(Tree(w.repo.files));
    AdoptDefinitionReads(env, w, p, renders);
    AdoptDefinitionFate(env, w, p, renders);
    forall id | id != p.id ensures SameRowAt(w.books, AdoptDefinition(env, w, p, renders, yaml).world.books, id) {
      AdoptDefinitionElsewhere(env, w, p, renders, yaml, id);
    }
  }

  ghost predicate OnList(ps: seq<Pipeline>, id: PipelineID) {
    exists i :: 0 <= i < |ps| && ps[i].id == id
  }

  /** The snapshot the pass works from still describes the listed pipelines. */
  ghost predicate SnapshotHolds(ps: seq<Pipeline>, renders: map<PipelineID, DefRender>, b: Books) {
    && DistinctIds(ps)
    && (forall i :: 0 <= i < |ps| ==> ps[i].id in b.rows && Lookup(b.defs, ps[i].id) == Lookup(renders, ps[i].id))
  }

  lemma SnapshotTail(env: Env, w: World, ps: seq<Pipeline>, renders: map<PipelineID, DefRender>)
    requires Quiet(w.repo) && env.wiring.drift && TableOk(w.books) && SnapshotHolds(ps, renders, w.books) && ps != []
    ensures SnapshotHolds(ps[1..], renders, AdoptDefinition(env, w, ps[0], renders, YamlTree(Tree(w.repo.files))).world.books)
    ensures TableOk(AdoptDefinition(env, w, ps[0], renders, YamlTree(Tree(w.repo.files))).world.books)
  {
    var yaml := YamlTree(Tree(w.repo.files));
    var s := AdoptDefinition(env, w, ps[0], renders, yaml);
    AdoptDefinitionQuiet(env, w, ps[0], renders);
    forall i | 0 <= i < |ps[1..]|
      ensures ps[1..][i].id in s.world.books.rows && Lookup(s.world.books.defs, ps[1..][i].id) == Lookup(renders, ps[1..][i].id)
    {
      assert ps[1..][i] == ps[i + 1];
      assert SameRowAt(w.books, s.world.books, ps[i + 1].id);
    }
    AdoptDefinitionKeepsTable(env, w, ps[0], renders, yaml);
  }

  lemma NotListedTail(ps: seq<Pipeline>, id: PipelineID)
    requires ps != [] && !OnList(ps, id)
    ensures ps[0].id != id && !OnList(ps[1..], id)
  {
    forall i | 0 <= i < |ps[1..]| ensures ps[1..][i].id != id {
      assert ps[1..][i] == ps[i + 1];
    }
  }

  lemma {:induction false} AdoptDefinitionsFrame(env: Env, w: World, ps: seq<Pipeline>, renders: map<PipelineID, DefRender>)
    requires Quiet(w.repo) && env.wiring.drift && TableOk(w.books) && SnapshotHolds(ps, renders, w.books)
    ensures var s := AdoptDefinitions(env, w, ps, renders, YamlTree(Tree(w.repo.files)));
            && s.world.repo.files == w.repo.files && Quiet(s.world.repo)
            && s.world.books.creds == w.books.creds && s.world.books.order == w.books.order
            && s.world.books.rows.Keys == w.books.rows.Keys
            && (forall id :: !OnList(ps, id) ==> SameRowAt(w.books, s.world.books, id))
            && (s.outcome.Failed? ==> IsRefusal(s.outcome))
    decreases |ps|
  {
    if ps != [] {
      var yaml := YamlTree(Tree(w.repo.files));
      AdoptDefinitionQuiet(env, w, ps[0], renders);
      var s := AdoptDefinition(env, w, ps[0], renders, yaml);
      SnapshotTail(env, w, ps, renders);
      AdoptDefinitionsFrame(env, s.world, ps[1..], renders);
      var t := AdoptDefinitions(env, s.world, ps[1..], renders, yaml);
      forall id | !OnList(ps, id)
        ensures SameRowAt(w.books, s.world.books, id) && SameRowAt(w.books, t.world.books, id)
      {
        NotListedTail(ps, id);
        assert SameRowAt(s.world.books, t.world.books, id);
      }
    }
  }

  lemma AdoptDefinitionsStep(env: Env, w: World, ps: seq<Pipeline>, renders: map<PipelineID, DefRender>)
    requires Quiet(w.repo) && env.wiring.drift && TableOk(w.books) && SnapshotHolds(ps, renders, w.books) && ps != []
    requires AdoptDefinitions(env, w, ps, renders, YamlTree(Tree(w.repo.files))).outcome.Done?
    ensures var yaml := YamlTree(Tree(w.repo.files));
            var s := AdoptDefinition(env, w, ps[0], renders, yaml);
            && s.outcome.Done? && AdoptDefinitions(env, w, ps, renders, yaml) == AdoptDefinitions(env, s.world, ps[1..], renders, yaml)
            && s.world.repo.files == w.repo.files && Quiet(s.world.repo)
            && TableOk(s.world.books) && SnapshotHolds(ps[1..], renders, s.world.books)
            && s.world.books.notes == w.books.notes + NoteFor(env, ps[0], Lookup(renders, ps[0].id), w.repo.files)
  {
    AdoptDefinitionQuiet(env, w, ps[0], renders);
    SnapshotTail(env, w, ps, renders);
  }

  lemma NotesCons(env: Env, notes: seq<Note>, ps: seq<Pipeline>, renders: map<PipelineID, DefRender>, files: map<Path, Content>)
    requires ps != []
    ensures (notes + NoteFor(env, ps[0], Lookup(renders, ps[0].id), files)) + NotesFor(env, ps[1..], renders, files) ==
            notes + NotesFor(env, ps, renders, files)
  {
    Reassociate(notes, NoteFor(env, ps[0], Lookup(renders, ps[0].id), files), NotesFor(env, ps[1..], renders, files));
  }

  lemma Reassociate<T>(a: seq<T>, b: seq<T>, c: seq<T>)
    ensures (a + b) + c == a + (b + c)
  {
  }

  /** Exactly one notification per edit that was adopted or refused, in list order. */
  lemma {:induction false} AdoptDefinitionsNotify(env: Env, w: World, ps: seq<Pipeline>, renders: map<PipelineID, DefRender>)
    requires Quiet(w.repo) && env.wiring.drift && TableOk(w.books) && SnapshotHolds(ps, renders, w.books)
    requires AdoptDefinitions(env, w, ps, renders, YamlTree(Tree(w.repo.files))).outcome.Done?
    ensures AdoptDefinitions(env, w, ps, renders, YamlTree(Tree(w.repo.files))).world.books.notes ==
            w.books.notes + NotesFor(env, ps, renders, w.repo.files)
    decreases |ps|
  {
    if ps != [] {
      AdoptDefinitionsStep(env, w, ps, renders);
      var s := AdoptDefinition(env, w, ps[0], renders, YamlTree(Tree(w.repo.files)));
      AdoptDefinitionsNotify(env, s.world, ps[1..], renders);
      NotesCons(env, w.books.notes, ps, renders, w.repo.files);
    }
  }

  lemma {:induction false} AdoptDefinitionsAt(env: Env, w: World, ps: seq<Pipeline>, renders: map<PipelineID, DefRender>, k: nat)
    requires Quiet(w.repo) && env.wiring.drift && TableOk(w.books) && SnapshotHolds(ps, renders, w.books)
    requires k < |ps| && AdoptDefinitions(env, w, ps, renders, YamlTree(Tree(w.repo.files))).outcome.Done?
    ensures Fate(env, ps[k], Lookup(renders, ps[k].id), w.repo.files, w.books,
                 AdoptDefinitions(env, w, ps, renders, YamlTree(Tree(w.repo.files))).world.books)
    decreases |ps|
  {
    var yaml := YamlTree(Tree(w.repo.files));
    AdoptDefinitionQuiet(env, w, ps[0], renders);
    SnapshotTail(env, w, ps, renders);
    var s := AdoptDefinition(env, w, ps[0], renders, yaml);
    var t := AdoptDefinitions(env, s.world, ps[1..], renders, yaml);
    if k == 0 {
      AdoptDefinitionsFrame(env, s.world, ps[1..], renders);
      assert !OnList(ps[1..], ps[0].id);
      assert SameRowAt(s.world.books, t.world.books, ps[0].id);
    } else {
      AdoptDefinitionsAt(env, s.world, ps[1..], renders, k - 1);
      assert ps[1..][k - 1] == ps[k];
      assert SameRowAt(w.books, s.world.books, ps[k].id);
    }
  }

  // ---- What one undisturbed pass imports ----

  ghost function Names(b: Books): set<string> {
    set id | id in b.rows :: b.rows[id].name
  }

  ghost predicate Covers(taken: Taken, b: Books) {
    taken.ids == b.rows.Keys && taken.names == Names(b)
  }

  lemma RowIsTaken(b: Books, id: PipelineID)
    requires TableOk(b) && id in b.rows
    ensures id in TakenBy(List(b)).ids && b.rows[id].name in TakenBy(List(b)).names
  {
    var ps := List(b);
    assert id in b.order;
    var i :| 0 <= i < |b.order| && b.order[i] == id;
    assert ps[i] in ps && ps[i].id == id && ps[i].name == b.rows[id].name;
  }

  lemma TakenIsRow(b: Books, id: PipelineID, name: string)
    requires TableOk(b)
    ensures id in TakenBy(List(b)).ids ==> id in b.rows
    ensures name in TakenBy(List(b)).names ==> name in Names(b)
  {
    if id in TakenBy(List(b)).ids {
      var p :| p in List(b) && p.id == id;
      ListedRow(b, p);
    }
    if name in TakenBy(List(b)).names {
      var p :| p in List(b) && p.name == name;
      ListedRow(b, p);
    }
  }

  lemma TakenCovers(b: Books)
    requires TableOk(b)
    ensures Covers(TakenBy(List(b)), b)
  {
    var taken := TakenBy(List(b));
    forall id ensures id in taken.ids <==> id in b.rows {
      TakenIsRow(b, id, "");
      if id in b.rows { RowIsTaken(b, id); }
    }
    forall n ensures n in taken.names <==> n in Names(b) {
      TakenIsRow(b, "", n);
      if n in Names(b) {
        var id :| id in b.rows && b.rows[id].name == n;
        RowIsTaken(b, id);
      }
    }
  }

  lemma NamesAfterInsert(b: Books, b': Books, p: Pipeline)
    requires p.id !in b.rows && b'.rows == b.rows[p.id := p]
    ensures Names(b') == Names(b) + {p.name}
  {
    forall n | n in Names(b) ensures n in Names(b') {
      var id :| id in b.rows && b.rows[id].name == n;
      assert id in b'.rows && b'.rows[id].name == n;
    }
    assert p.id in b'.rows && b'.rows[p.id].name == p.name;
  }

  /** A definition row that says exactly what the tree holds. */
  ghost predicate InStep(row: Option<DefRender>, yaml: map<Path, Sha>) {
    row.Some? && row.value.path in yaml && row.value.blob == yaml[row.value.path]
  }

  /** What importing one file does to the books. */
  ghost predicate Hydrates(env: Env, b: Books, b': Books, p: Pipeline, path: Path, sha: Sha, external: bool) {
    && p.id !in b.rows
    && b'.rows == b.rows[p.id := p.(credentials := Some(EMPTY_OBJECT), credentialsExternal := external)]
    && b'.order == b.order + [p.id] && b'.defs == b.defs[p.id := DefRender(path, sha, None)]
    && b'.creds == b.creds && b'.notes == b.notes && b'.nonce == b.nonce
  }

  lemma ParsedIsFree(env: Env, w: World, path: Path, taken: Taken)
    requires path in w.repo.files && Covers(taken, w.books)
    ensures var p := ParseImportable(env, w.repo.files[path], taken.ids, taken.names);
            p.Some? ==> p.value.id !in w.books.rows && p.value.name !in Names(w.books) && NameFree(w.books, p.value)
  {
    var p := ParseImportable(env, w.repo.files[path], taken.ids, taken.names);
    if p.Some? {
      assert p.value.id == w.repo.files[path].file.id && p.value.name == w.repo.files[path].file.name;
      forall id | id in w.books.rows ensures w.books.rows[id].name != p.value.name {
        assert w.books.rows[id].name in taken.names;
      }
    }
  }

  ghost function Parsed(env: Env, c: Content, taken: Taken): Option<Pipeline> {
    ParseImportable(env, c, taken.ids, taken.names)
  }

  ghost function TakenWith(taken: Taken, p: Option<Pipeline>): Taken {
    if p.None? then taken else Taken(taken.ids + {p.value.id}, taken.names + {p.value.name})
  }

  lemma ImportsOne(env: Env, w: World, path: Path, age: map<Path, Sha>, taken: Taken)
    requires Quiet(w.repo) && env.wiring.drift && TableOk(w.books) && Covers(taken, w.books)
    requires path in w.repo.files && IsDefinitionPath(path)
    requires var p := Parsed(env, w.repo.files[path], taken); p.Some? && Storable(p.value)
    ensures var yaml := YamlTree(Tree(w.repo.files));
            var s, p := ImportFile(env, w, path, yaml, age, taken), Parsed(env, w.repo.files[path], taken);
            && Covers(s.taken, s.world.books) && TableOk(s.world.books)
            && s.outcome.Done? && s.taken == TakenWith(taken, p)
            && Hydrates(env, w.books, s.world.books, p.value, path, yaml[path], CredentialPathFor(path) in age)
  {
    var s := ImportFile(env, w, path, YamlTree(Tree(w.repo.files)), age, taken);
    var q := Parsed(env, w.repo.files[path], taken).value.(credentialsExternal := CredentialPathFor(path) in age);
    assert GetContents(w.repo, path).result == Ok(w.repo.files[path]);
    ParsedIsFree(env, w, path, taken);
    assert InsertRow(w.books, q).Ok?;
    InsertKeepsTable(w.books, q);
    NamesAfterInsert(w.books, s.world.books, q.(credentials := Some(EMPTY_OBJECT)));
  }

  /** One file: skipped, imported under its own id, or refused by the table. */
  lemma ImportFileQuiet(env: Env, w: World, path: Path, age: map<Path, Sha>, taken: Taken)
    requires Quiet(w.repo) && env.wiring.drift && TableOk(w.books) && Covers(taken, w.books)
    requires path in w.repo.files && IsDefinitionPath(path)
    ensures var yaml := YamlTree(Tree(w.repo.files));
            var s := ImportFile(env, w, path, yaml, age, taken);
            var p := Parsed(env, w.repo.files[path], taken);
            && s.world.repo.files == w.repo.files && Quiet(s.world.repo)
            && Covers(s.taken, s.world.books) && TableOk(s.world.books)
            && s.outcome == (if p.Some? && !Storable(p.value) then Failed(NotStorable) else Done)
            && s.taken == (if s.outcome.Done? then TakenWith(taken, p) else taken)
            && (if p.Some? && s.outcome.Done?
                then Hydrates(env, w.books, s.world.books, p.value, path, yaml[path], CredentialPathFor(path) in age)
                else s.world.books == w.books)
  {
    var p := Parsed(env, w.repo.files[path], taken);
    assert GetContents(w.repo, path).result == Ok(w.repo.files[path]);
    if p.Some? && Storable(p.value) { ImportsOne(env, w, path, age, taken); }
  }

  /** Taking more ids and names never makes a file importable. */
  lemma ImportableAntitone(env: Env, c: Content, small: Taken, large: Taken)
    requires small.ids <= large.ids && small.names <= large.names
    ensures Parsed(env, c, small).None? ==> Parsed(env, c, large).None?
  {
  }

  /** How an import phase may change the books: existing rows stay, new ones are in step
      with the tree. */
  ghost predicate Hydrated(b: Books, b': Books, yaml: map<Path, Sha>) {
    && b.order <= b'.order && b.rows.Keys <= b'.rows.Keys
    && b'.creds == b.creds && b'.notes == b.notes && b'.nonce == b.nonce
    && (forall id :: id in b.rows ==> SameRowAt(b, b', id))
    && (forall id :: id in b'.rows && id !in b.rows ==> InStep(Lookup(b'.defs, id), yaml))
  }

  lemma HydratesOne(env: Env, b: Books, b': Books, p: Pipeline, path: Path, yaml: map<Path, Sha>, external: bool)
    requires TableOk(b) && path in yaml && Hydrates(env, b, b', p, path, yaml[path], external)
    ensures Hydrated(b, b', yaml)
  {
  }

  lemma HydratedTransitive(a: Books, b: Books, c: Books, yaml: map<Path, Sha>)
    requires Hydrated(a, b, yaml) && Hydrated(b, c, yaml)
    ensures Hydrated(a, c, yaml)
  {
    forall id | id in a.rows ensures SameRowAt(a, c, id) {
      assert SameRowAt(a, b, id) && SameRowAt(b, c, id);
    }
    forall id | id in c.rows && id !in a.rows ensures InStep(Lookup(c.defs, id), yaml) {
      if id in b.rows { assert SameRowAt(b, c, id); }
    }
  }

  /** What holds along an undisturbed import phase. */
  ghost predicate ImportProgress(w: World, taken: Taken, s: ImportStep, yaml: map<Path, Sha>) {
    && (s.outcome.Failed? ==> s.outcome.error == NotStorable)
    && s.world.repo.files == w.repo.files && Quiet(s.world.repo)
    && Covers(s.taken, s.world.books) && TableOk(s.world.books)
    && Hydrated(w.books, s.world.books, yaml)
    && taken.ids <= s.taken.ids && taken.names <= s.taken.names
  }

  lemma ImportTurnQuiet(env: Env, w: World, path: Path, tracked: set<Path>, yaml: map<Path, Sha>, age: map<Path, Sha>, taken: Taken)
    requires Quiet(w.repo) && env.wiring.drift && TableOk(w.books) && Covers(taken, w.books)
    requires path in yaml && yaml == YamlTree(Tree(w.repo.files))
    ensures ImportProgress(w, taken, ImportTurn(env, w, path, tracked, yaml, age, taken), yaml)
  {
    if path !in tracked {
      ImportFileQuiet(env, w, path, age, taken);
      var p, s := Parsed(env, w.repo.files[path], taken), ImportFile(env, w, path, yaml, age, taken);
      if p.Some? && s.outcome.Done? {
        HydratesOne(env, w.books, s.world.books, p.value, path, yaml, CredentialPathFor(path) in age);
      }
    }
  }

  lemma {:induction false} ImportFilesQuiet(env: Env, w: World, paths: seq<Path>, tracked: set<Path>, yaml: map<Path, Sha>,
                                            age: map<Path, Sha>, taken: Taken)
    requires Quiet(w.repo) && env.wiring.drift && TableOk(w.books) && Covers(taken, w.books)
    requires yaml == YamlTree(Tree(w.repo.files)) && forall p :: p in paths ==> p in yaml
    ensures ImportProgress(w, taken, ImportFiles(env, w, paths, tracked, yaml, age, taken), yaml)
    decreases |paths|
  {
    if paths != [] {
      assert paths[0] in yaml;
      ImportTurnQuiet(env, w, paths[0], tracked, yaml, age, taken);
      var s := ImportTurn(env, w, paths[0], tracked, yaml, age, taken);
      if s.outcome.Done? {
        ImportFilesQuiet(env, s.world, paths[1..], tracked, yaml, age, s.taken);
        HydratedTransitive(w.books, s.world.books, ImportFiles(env, s.world, paths[1..], tracked, yaml, age, s.taken).world.books, yaml);
      }
    }
  }

  lemma TrackedGrows(b: Books, b': Books, yaml: map<Path, Sha>, p: Path)
    requires TableOk(b) && Hydrated(b, b', yaml) && p in TrackedPaths(b.defs)
    ensures p in TrackedPaths(b'.defs)
  {
    var id :| id in b.defs && b.defs[id].path == p;
    assert SameRowAt(b, b', id);
  }

  // ---- When an import phase ends early, and what it leaves ----

  /** What a path reads as when its turn comes: None when it is tracked or skipped. */
  ghost function ReadAs(env: Env, files: map<Path, Content>, path: Path, tracked: set<Path>, taken: Taken): Option<Pipeline> {
    if path in tracked || path !in files then None else Parsed(env, files[path], taken)
  }

  /** It reads as a pipeline the table will not take. */
  ghost predicate Refuses(env: Env, files: map<Path, Content>, path: Path, tracked: set<Path>, taken: Taken) {
    var p := ReadAs(env, files, path, tracked, taken);
    p.Some? && !Storable(p.value)
  }

  /** The ids and names taken once the files at `paths` have had their turns. */
  ghost function TakenAfter(env: Env, files: map<Path, Content>, paths: seq<Path>, tracked: set<Path>, taken: Taken): Taken
    decreases |paths|
  {
    if paths == [] then taken
    else TakenAfter(env, files, paths[1..], tracked, TakenWith(taken, ReadAs(env, files, paths[0], tracked, taken)))
  }

  /** The k-th file reads as a pipeline the table refuses. */
  ghost predicate StopsAt(env: Env, files: map<Path, Content>, paths: seq<Path>, tracked: set<Path>, taken: Taken, k: nat) {
    k < |paths| && Refuses(env, files, paths[k], tracked, TakenAfter(env, files, paths[..k], tracked, taken))
  }

  ghost predicate Stops(env: Env, files: map<Path, Content>, paths: seq<Path>, tracked: set<Path>, taken: Taken) {
    exists k: nat :: StopsAt(env, files, paths, tracked, taken, k)
  }

  lemma StopsAtTail(env: Env, files: map<Path, Content>, paths: seq<Path>, tracked: set<Path>, taken: Taken, k: nat)
    requires paths != []
    ensures StopsAt(env, files, paths, tracked, taken, k + 1) <==>
            StopsAt(env, files, paths[1..], tracked, TakenWith(taken, ReadAs(env, files, paths[0], tracked, taken)), k)
  {
    if k + 1 < |paths| { assert paths[..k + 1][1..] == paths[1..][..k]; }
  }

  lemma StopsTail(env: Env, files: map<Path, Content>, paths: seq<Path>, tracked: set<Path>, taken: Taken)
    requires paths != []
    ensures var p := ReadAs(env, files, paths[0], tracked, taken);
            Stops(env, files, paths, tracked, taken) <==>
            Refuses(env, files, paths[0], tracked, taken) || Stops(env, files, paths[1..], tracked, TakenWith(taken, p))
  {
    var p := ReadAs(env, files, paths[0], tracked, taken);
    assert TakenAfter(env, files, paths[..0], tracked, taken) == taken;
    assert StopsAt(env, files, paths, tracked, taken, 0) <==> Refuses(env, files, paths[0], tracked, taken);
    if Stops(env, files, paths, tracked, taken) {
      var k: nat :| StopsAt(env, files, paths, tracked, taken, k);
      if k > 0 { StopsAtTail(env, files, paths, tracked, taken, k - 1); }
    }
    if Stops(env, files, paths[1..], tracked, TakenWith(taken, p)) {
      var k: nat :| StopsAt(env, files, paths[1..], tracked, TakenWith(taken, p), k);
      StopsAtTail(env, files, paths, tracked, taken, k);
    }
  }

  lemma ImportTurnReads(env: Env, w: World, path: Path, tracked: set<Path>, yaml: map<Path, Sha>, age: map<Path, Sha>, taken: Taken)
    requires Quiet(w.repo) && env.wiring.drift && TableOk(w.books) && Covers(taken, w.books)
    requires path in yaml && yaml == YamlTree(Tree(w.repo.files))
    ensures var s, p := ImportTurn(env, w, path, tracked, yaml, age, taken), ReadAs(env, w.repo.files, path, tracked, taken);
            && s.outcome == (if p.Some? && !Storable(p.value) then Failed(NotStorable) else Done)
            && s.taken == (if s.outcome.Done? then TakenWith(taken, p) else taken)
            && (p.None? || s.outcome.Failed? ==> s.world.books == w.books)
            && (p.Some? && s.outcome.Done? ==>
                  && s.world.books.rows.Keys == w.books.rows.Keys + {p.value.id} && p.value.id !in w.books.rows
                  && TrackedPaths(s.world.books.defs) == TrackedPaths(w.books.defs) + {path})
  {
    if path !in tracked {
      ImportFileQuiet(env, w, path, age, taken);
      var s, p := ImportFile(env, w, path, yaml, age, taken), Parsed(env, w.repo.files[path], taken);
      if p.Some? && s.outcome.Done? { TrackedAfterInsert(w.books, p.value.id, DefRender(path, yaml[path], None)); }
    }
  }

  lemma TrackedAfterInsert(b: Books, id: PipelineID, row: DefRender)
    requires TableOk(b) && id !in b.rows
    ensures TrackedPaths(b.defs[id := row]) == TrackedPaths(b.defs) + {row.path}
  {
    var defs := b.defs[id := row];
    forall p | p in TrackedPaths(b.defs) ensures p in TrackedPaths(defs) {
      var i :| i in b.defs && b.defs[i].path == p;
      assert i in defs && defs[i].path == p;
    }
    assert id in defs && defs[id].path == row.path;
  }

  /** A batch ends early if and only if some file, read against what the files before it
      leave free, is a pipeline the table refuses. */
  lemma {:induction false} ImportFilesStopIff(env: Env, w: World, paths: seq<Path>, tracked: set<Path>, yaml: map<Path, Sha>,
                                              age: map<Path, Sha>, taken: Taken)
    requires Quiet(w.repo) && env.wiring.drift && TableOk(w.books) && Covers(taken, w.books)
    requires yaml == YamlTree(Tree(w.repo.files)) && forall p :: p in paths ==> p in yaml
    ensures var s := ImportFiles(env, w, paths, tracked, yaml, age, taken);
            && (s.outcome.Failed? <==> Stops(env, w.repo.files, paths, tracked, taken))
            && (s.outcome.Done? ==> s.taken == TakenAfter(env, w.repo.files, paths, tracked, taken))
    decreases |paths|
  {
    if paths != [] {
      assert paths[0] in yaml;
      ImportTurnReads(env, w, paths[0], tracked, yaml, age, taken);
      ImportTurnQuiet(env, w, paths[0], tracked, yaml, age, taken);
      StopsTail(env, w.repo.files, paths, tracked, taken);
      var s := ImportTurn(env, w, paths[0], tracked, yaml, age, taken);
      if s.outcome.Done? { ImportFilesStopIff(env, s.world, paths[1..], tracked, yaml, age, s.taken); }
    }
  }

  /** The file at path no longer asks for anything: it is tracked, or not importable. */
  ghost predicate Past(env: Env, files: map<Path, Content>, path: Path, tracked: set<Path>, s: ImportStep) {
    path in TrackedPaths(s.world.books.defs) || ReadAs(env, files, path, tracked, s.taken).None?
  }

  /** Where a batch ended early: the k-th file reads as a pipeline the table refuses, and
      everything before it is past. Only files before it are newly tracked. */
  ghost predicate Halted(env: Env, files: map<Path, Content>, paths: seq<Path>, tracked: set<Path>, b: Books, s: ImportStep, k: nat) {
    && k < |paths| && Refuses(env, files, paths[k], tracked, s.taken)
    && (forall p :: p in paths[..k] ==> Past(env, files, p, tracked, s))
    && (forall p :: p in TrackedPaths(s.world.books.defs) ==> p in TrackedPaths(b.defs) || p in paths[..k])
  }

  lemma HaltsLater(env: Env, files: map<Path, Content>, paths: seq<Path>, tracked: set<Path>, b: Books, b': Books, s: ImportStep, k: nat)
    requires paths != [] && Halted(env, files, paths[1..], tracked, b', s, k) && Past(env, files, paths[0], tracked, s)
    requires TrackedPaths(b'.defs) <= TrackedPaths(b.defs) + {paths[0]}
    ensures Halted(env, files, paths, tracked, b, s, k + 1)
  {
    assert paths[..k + 1] == [paths[0]] + paths[1..][..k];
  }

  lemma FirstIsPast(env: Env, w: World, path: Path, tracked: set<Path>, yaml: map<Path, Sha>, age: map<Path, Sha>, taken: Taken, t: ImportStep)
    requires Quiet(w.repo) && env.wiring.drift && TableOk(w.books) && Covers(taken, w.books)
    requires path in yaml && yaml == YamlTree(Tree(w.repo.files))
    requires var s := ImportTurn(env, w, path, tracked, yaml, age, taken);
             s.outcome.Done? && TableOk(s.world.books) && ImportProgress(s.world, s.taken, t, yaml)
    ensures Past(env, w.repo.files, path, tracked, t)
  {
    ImportTurnReads(env, w, path, tracked, yaml, age, taken);
    var s := ImportTurn(env, w, path, tracked, yaml, age, taken);
    if ReadAs(env, w.repo.files, path, tracked, taken).Some? {
      TrackedGrows(s.world.books, t.world.books, yaml, path);
    } else if path !in tracked {
      ImportableAntitone(env, w.repo.files[path], taken, t.taken);
    }
  }

  lemma HaltsHere(env: Env, w: World, paths: seq<Path>, tracked: set<Path>, yaml: map<Path, Sha>, age: map<Path, Sha>, taken: Taken)
    requires Quiet(w.repo) && env.wiring.drift && TableOk(w.books) && Covers(taken, w.books)
    requires yaml == YamlTree(Tree(w.repo.files)) && paths != [] && paths[0] in yaml
    requires ImportTurn(env, w, paths[0], tracked, yaml, age, taken).outcome.Failed?
    ensures Halted(env, w.repo.files, paths, tracked, w.books, ImportTurn(env, w, paths[0], tracked, yaml, age, taken), 0)
  {
    ImportTurnReads(env, w, paths[0], tracked, yaml, age, taken);
  }

  lemma HaltsAfter(env: Env, w: World, paths: seq<Path>, tracked: set<Path>, yaml: map<Path, Sha>, age: map<Path, Sha>, taken: Taken,
                   t: ImportStep, m: nat)
    requires Quiet(w.repo) && env.wiring.drift && TableOk(w.books) && Covers(taken, w.books)
    requires yaml == YamlTree(Tree(w.repo.files)) && paths != [] && paths[0] in yaml
    requires var s := ImportTurn(env, w, paths[0], tracked, yaml, age, taken);
             && s.outcome.Done? && TableOk(s.world.books) && ImportProgress(s.world, s.taken, t, yaml)
             && Halted(env, w.repo.files, paths[1..], tracked, s.world.books, t, m)
    ensures Halted(env, w.repo.files, paths, tracked, w.books, t, m + 1)
  {
    ImportTurnReads(env, w, paths[0], tracked, yaml, age, taken);
    FirstIsPast(env, w, paths[0], tracked, yaml, age, taken, t);
    HaltsLater(env, w.repo.files, paths, tracked, w.books, ImportTurn(env, w, paths[0], tracked, yaml, age, taken).world.books, t, m);
  }

  lemma {:induction false} ImportFilesStuck(env: Env, w: World, paths: seq<Path>, tracked: set<Path>, yaml: map<Path, Sha>,
                                            age: map<Path, Sha>, taken: Taken) returns (k: nat)
    requires Quiet(w.repo) && env.wiring.drift && TableOk(w.books) && Covers(taken, w.books)
    requires yaml == YamlTree(Tree(w.repo.files)) && forall p :: p in paths ==> p in yaml
    requires ImportFiles(env, w, paths, tracked, yaml, age, taken).outcome.Failed?
    ensures Halted(env, w.repo.files, paths, tracked, w.books, ImportFiles(env, w, paths, tracked, yaml, age, taken), k)
    decreases |paths|
  {
    assert paths[0] in yaml;
    ImportTurnQuiet(env, w, paths[0], tracked, yaml, age, taken);
    var s := ImportTurn(env, w, paths[0], tracked, yaml, age, taken);
    if s.outcome.Failed? {
      HaltsHere(env, w, paths, tracked, yaml, age, taken);
      k := 0;
    } else {
      var m := ImportFilesStuck(env, s.world, paths[1..], tracked, yaml, age, s.taken);
      ImportFilesQuiet(env, s.world, paths[1..], tracked, yaml, age, s.taken);
      HaltsAfter(env, w, paths, tracked, yaml, age, taken, ImportFiles(env, s.world, paths[1..], tracked, yaml, age, s.taken), m);
      k := m + 1;
    }
  }

  /** After a completed import phase every definition file it looked at is tracked, or
      still cannot be imported. */
  lemma {:induction false} ImportFilesExhaust(env: Env, w: World, paths: seq<Path>, tracked: set<Path>, yaml: map<Path, Sha>,
                                              age: map<Path, Sha>, taken: Taken, p: Path)
    requires Quiet(w.repo) && env.wiring.drift && TableOk(w.books) && Covers(taken, w.books)
    requires yaml == YamlTree(Tree(w.repo.files)) && forall p :: p in paths ==> p in yaml
    requires p in paths && p !in tracked && !Stops(env, w.repo.files, paths, tracked, taken)
    ensures var s := ImportFiles(env, w, paths, tracked, yaml, age, taken);
            p in TrackedPaths(s.world.books.defs) || Parsed(env, w.repo.files[p], s.taken).None?
    decreases |paths|
  {
    assert paths[0] in yaml;
    ImportTurnReads(env, w, paths[0], tracked, yaml, age, taken);
    ImportTurnQuiet(env, w, paths[0], tracked, yaml, age, taken);
    StopsTail(env, w.repo.files, paths, tracked, taken);
    var s := ImportTurn(env, w, paths[0], tracked, yaml, age, taken);
    ImportFilesQuiet(env, s.world, paths[1..], tracked, yaml, age, s.taken);
    var t := ImportFiles(env, s.world, paths[1..], tracked, yaml, age, s.taken);
    if p == paths[0] {
      FirstIsPast(env, w, p, tracked, yaml, age, taken, t);
    } else {
      ImportFilesExhaust(env, s.world, paths[1..], tracked, yaml, age, s.taken, p);
    }
  }

  ghost predicate NoneImportable(env: Env, files: map<Path, Content>, paths: seq<Path>, tracked: set<Path>, taken: Taken) {
    forall p :: p in paths ==> ReadAs(env, files, p, tracked, taken).None?
  }

  /** The k-th file is importable and no earlier one is. */
  ghost predicate FirstImportable(env: Env, files: map<Path, Content>, paths: seq<Path>, tracked: set<Path>, taken: Taken, k: nat) {
    && k < |paths| && ReadAs(env, files, paths[k], tracked, taken).Some?
    && (forall j :: 0 <= j < k ==> ReadAs(env, files, paths[j], tracked, taken).None?)
  }

  lemma {:induction false} ImportsNothing(env: Env, w: World, paths: seq<Path>, tracked: set<Path>, yaml: map<Path, Sha>,
                                          age: map<Path, Sha>, taken: Taken)
    requires Quiet(w.repo) && env.wiring.drift && TableOk(w.books) && Covers(taken, w.books)
    requires yaml == YamlTree(Tree(w.repo.files)) && forall p :: p in paths ==> p in yaml
    requires NoneImportable(env, w.repo.files, paths, tracked, taken)
    ensures var s := ImportFiles(env, w, paths, tracked, yaml, age, taken);
            s.outcome.Done? && s.world.books == w.books && s.taken == taken
    decreases |paths|
  {
    if paths != [] {
      assert paths[0] in yaml;
      ImportTurnReads(env, w, paths[0], tracked, yaml, age, taken);
      ImportTurnQuiet(env, w, paths[0], tracked, yaml, age, taken);
      var s := ImportTurn(env, w, paths[0], tracked, yaml, age, taken);
      assert forall p :: p in paths[1..] ==> p in paths;
      ImportsNothing(env, s.world, paths[1..], tracked, yaml, age, s.taken);
    }
  }

  /** With something importable, the first such file decides: it becomes a row, or it ends
      the batch with nothing changed. */
  lemma {:induction false} FirstDecides(env: Env, w: World, paths: seq<Path>, tracked: set<Path>, yaml: map<Path, Sha>,
                                        age: map<Path, Sha>, taken: Taken, k: nat)
    requires Quiet(w.repo) && env.wiring.drift && TableOk(w.books) && Covers(taken, w.books)
    requires yaml == YamlTree(Tree(w.repo.files)) && forall p :: p in paths ==> p in yaml
    requires FirstImportable(env, w.repo.files, paths, tracked, taken, k)
    ensures var s := ImportFiles(env, w, paths, tracked, yaml, age, taken);
            var p := ReadAs(env, w.repo.files, paths[k], tracked, taken).value;
            if Storable(p) then p.id !in w.books.rows && w.books.rows.Keys + {p.id} <= s.world.books.rows.Keys
            else s.outcome == Failed(NotStorable) && s.world.books == w.books
    decreases |paths|
  {
    assert paths[0] in yaml;
    ImportTurnReads(env, w, paths[0], tracked, yaml, age, taken);
    ImportTurnQuiet(env, w, paths[0], tracked, yaml, age, taken);
    var s := ImportTurn(env, w, paths[0], tracked, yaml, age, taken);
    if k > 0 {
      assert forall j :: 0 <= j < |paths[1..]| ==> paths[1..][j] == paths[j + 1];
      FirstDecides(env, s.world, paths[1..], tracked, yaml, age, s.taken, k - 1);
    } else if s.outcome.Done? {
      ImportFilesQuiet(env, s.world, paths[1..], tracked, yaml, age, s.taken);
    }
  }
}
