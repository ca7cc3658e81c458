/** One undisturbed adopt pass, phase by phase: what it imports, what it adopts or refuses,
    what it flags, and what each phase leaves to do. */
module Passes {
  import opened Basics
  import opened Domain
  import opened GitRepo
  import opened Mirror
  import opened Slugs
  import opened Sync
  import opened Adopt
  import opened Convergence
  import opened Syncing
  import opened Adopting

  // ---- The three phases of an undisturbed pass ----

  ghost function YamlFiles(w: World): map<Path, Sha> {
    YamlTree(Tree(w.repo.files))
  }

  ghost function AgeFiles(w: World): map<Path, Sha> {
    AgeTree(Tree(w.repo.files))
  }

  ghost predicate Ready(env: Env, w: World) {
    Quiet(w.repo) && env.wiring.drift && TableOk(w.books)
  }

  ghost function AfterList(w: World): World {
    World(ListTree(w.repo).repo, w.books)
  }

  ghost function AfterImport(env: Env, w: World): Step {
    ImportUnrendered(env, AfterList(w), List(w.books), w.books.defs, YamlFiles(w), AgeFiles(w))
  }

  ghost function AfterAdopt(env: Env, w: World): Step {
    AdoptDefinitions(env, AfterImport(env, w).world, List(w.books), w.books.defs, YamlFiles(w))
  }

  // ---- What is left to do ----

  /** The ids and names the rows hold. */
  ghost function AllTaken(b: Books): Taken {
    Taken(b.rows.Keys, Names(b))
  }

  /** The pipeline an untracked file would become; None when it is tracked or skipped. */
  ghost function Offered(env: Env, w: World, p: Path): Option<Pipeline> {
    ReadAs(env, w.repo.files, p, TrackedPaths(w.books.defs), AllTaken(w.books))
  }

  ghost predicate NothingImportable(env: Env, w: World) {
    env.importer ==> forall p :: p in YamlFiles(w) ==> Offered(env, w, p).None?
  }

  /** Some untracked file, read in path order against what the rows and the files before
      it leave free, is a pipeline the table refuses. */
  ghost predicate ImportBlocked(env: Env, w: World) {
    env.importer && Stops(env, w.repo.files, Sorted(YamlFiles(w).Keys), TrackedPaths(w.books.defs), AllTaken(w.books))
  }

  ghost predicate NothingPending(w: World) {
    forall id :: id in w.books.defs ==> !Pending(Some(w.books.defs[id]), YamlFiles(w))
  }

  ghost predicate ForeignFile(all: seq<Pipeline>, p: Pipeline, creds: map<PipelineID, CredRender>, age: map<Path, Sha>) {
    var path := CredentialPath(FileSlug(all, p));
    !p.credentialsExternal && p.id in creds && path in age && age[path] != creds[p.id].blob
  }

  ghost predicate NoneForeign(all: seq<Pipeline>, ps: seq<Pipeline>, creds: map<PipelineID, CredRender>, age: map<Path, Sha>) {
    forall i :: 0 <= i < |ps| ==> !ForeignFile(all, ps[i], creds, age)
  }

  ghost predicate NothingForeign(env: Env, w: World) {
    env.ageWired && env.wiring.ownership ==> NoneForeign(List(w.books), List(w.books), w.books.creds, AgeFiles(w))
  }

  ghost predicate AdoptSettled(env: Env, w: World) {
    NothingImportable(env, w) && NothingPending(w) && NothingForeign(env, w)
  }

  // ---- Phase by phase ----

  lemma HydratedSnapshot(b: Books, b': Books, yaml: map<Path, Sha>)
    requires TableOk(b) && Hydrated(b, b', yaml)
    ensures SnapshotHolds(List(b), b.defs, b')
  {
    ListDistinct(b);
    var ps := List(b);
    forall i | 0 <= i < |ps| ensures ps[i].id in b'.rows && Lookup(b'.defs, ps[i].id) == Lookup(b.defs, ps[i].id) {
      ListedRow(b, ps[i]);
      assert SameRowAt(b, b', ps[i].id);
    }
  }

  ghost function ImportRun(env: Env, w: World): ImportStep {
    SortedEnumerates(YamlFiles(w).Keys);
    ImportFiles(env, AfterList(w), Sorted(YamlFiles(w).Keys), TrackedPaths(w.books.defs), YamlFiles(w), AgeFiles(w), AllTaken(w.books))
  }

  lemma ImportPhaseRuns(env: Env, w: World)
    requires Ready(env, w) && env.importer
    ensures var s := ImportRun(env, w);
            && (forall p :: p in Sorted(YamlFiles(w).Keys) <==> p in YamlFiles(w))
            && AfterImport(env, w) == Step(s.world, s.outcome) && ImportProgress(AfterList(w), AllTaken(w.books), s, YamlFiles(w))
  {
    SortedEnumerates(YamlFiles(w).Keys);
    TakenCovers(w.books);
    assert TakenBy(List(w.books)) == AllTaken(w.books);
    ImportFilesQuiet(env, AfterList(w), Sorted(YamlFiles(w).Keys), TrackedPaths(w.books.defs), YamlFiles(w), AgeFiles(w), AllTaken(w.books));
  }

  lemma ImportExhausts(env: Env, w: World)
    requires Ready(env, w) && AfterImport(env, w).outcome.Done?
    ensures NothingImportable(env, AfterImport(env, w).world)
  {
    if env.importer {
      ImportPhaseRuns(env, w);
      var start, yaml, age, taken := AfterList(w), YamlFiles(w), AgeFiles(w), AllTaken(w.books);
      var paths, tracked := Sorted(yaml.Keys), TrackedPaths(w.books.defs);
      var s := ImportRun(env, w);
      ImportFilesStopIff(env, start, paths, tracked, yaml, age, taken);
      assert s.taken == AllTaken(s.world.books);
      forall p | p in yaml ensures Offered(env, s.world, p).None? {
        if p in tracked { TrackedGrows(w.books, s.world.books, yaml, p); }
        else { ImportFilesExhaust(env, start, paths, tracked, yaml, age, taken, p); }
      }
    }
  }

  lemma ImportIdles(env: Env, w: World)
    requires Ready(env, w) && NothingImportable(env, w)
    ensures AfterImport(env, w).outcome.Done? && AfterImport(env, w).world.books == w.books
  {
    if env.importer {
      ImportPhaseRuns(env, w);
      TakenCovers(w.books);
      ImportsNothing(env, AfterList(w), Sorted(YamlFiles(w).Keys), TrackedPaths(w.books.defs), YamlFiles(w), AgeFiles(w), AllTaken(w.books));
    }
  }

  /** The import phase stops exactly where it is blocked. Whatever it did until then hydrates
      rows from listed files and changes nothing else; completed, it leaves nothing
      importable. */
  lemma ImportPhase(env: Env, w: World)
    requires Ready(env, w)
    ensures var s := AfterImport(env, w);
            && s.world.repo.files == w.repo.files && Ready(env, s.world)
            && Hydrated(w.books, s.world.books, YamlFiles(w))
            && (s.outcome.Failed? <==> ImportBlocked(env, w)) && (s.outcome.Failed? ==> s.outcome.error == NotStorable)
            && (s.outcome.Done? ==> NothingImportable(env, s.world))
            && (NothingImportable(env, w) ==> s.outcome.Done? && s.world.books == w.books)
  {
    if env.importer {
      ImportPhaseRuns(env, w);
      TakenCovers(w.books);
      ImportFilesStopIff(env, AfterList(w), Sorted(YamlFiles(w).Keys), TrackedPaths(w.books.defs), YamlFiles(w), AgeFiles(w), AllTaken(w.books));
    }
    if AfterImport(env, w).outcome.Done? { ImportExhausts(env, w); }
    if NothingImportable(env, w) { ImportIdles(env, w); }
  }

  ghost predicate FirstOffered(env: Env, w: World, p: Path) {
    && p in YamlFiles(w) && Offered(env, w, p).Some?
    && (forall q :: q in YamlFiles(w) && Offered(env, w, q).Some? ==> LexLeq(p, q))
  }

  lemma FirstOfferedAt(env: Env, w: World, p: Path) returns (k: nat)
    requires FirstOffered(env, w, p)
    ensures var paths := Sorted(YamlFiles(w).Keys);
            && FirstImportable(env, w.repo.files, paths, TrackedPaths(w.books.defs), AllTaken(w.books), k) && paths[k] == p
  {
    var paths := Sorted(YamlFiles(w).Keys);
    SortedEnumerates(YamlFiles(w).Keys);
    SortedIsOrdered(YamlFiles(w).Keys);
    k :| 0 <= k < |paths| && paths[k] == p;
    forall j | 0 <= j < k ensures Offered(env, w, paths[j]).None? {
      assert paths[j] in paths && LexLeq(paths[j], paths[k]);
      if Offered(env, w, paths[j]).Some? { LexAntisymmetric(paths[j], p); }
    }
  }

  lemma AdoptPhase(env: Env, w: World)
    requires Ready(env, w)
    ensures var b, s := AfterImport(env, w).world.books, AfterAdopt(env, w);
            && s.world.repo.files == w.repo.files && Ready(env, s.world)
            && s.world.books.rows.Keys == b.rows.Keys && s.world.books.order == b.order && s.world.books.creds == w.books.creds
            && (s.outcome.Done? ==> NothingPending(s.world))
            && (s.outcome.Done? ==> s.world.books.notes == w.books.notes + NotesFor(env, List(w.books), w.books.defs, w.repo.files))
  {
    ImportPhase(env, w);
    var ps, i, s := List(w.books), AfterImport(env, w).world, AfterAdopt(env, w);
    HydratedSnapshot(w.books, i.books, YamlFiles(w));
    AdoptDefinitionsFrame(env, i, ps, w.books.defs);
    AdoptDefinitionsKeepTable(env, i, ps, w.books.defs, YamlFiles(w));
    if s.outcome.Done? {
      AdoptDefinitionsNotify(env, i, ps, w.books.defs);
      forall id | id in s.world.books.defs ensures !Pending(Some(s.world.books.defs[id]), YamlFiles(w)) {
        if id in w.books.rows {
          ListHas(w.books, id);
          var k :| 0 <= k < |ps| && ps[k].id == id;
          AdoptDefinitionsAt(env, i, ps, w.books.defs, k);
          assert SameRowAt(w.books, i.books, id);
        } else {
          NotInList(w.books, id);
          assert SameRowAt(i.books, s.world.books, id);
        }
      }
    }
  }

  lemma ListHas(b: Books, id: PipelineID)
    requires TableOk(b) && id in b.rows
    ensures exists k :: 0 <= k < |List(b)| && List(b)[k].id == id
  {
    assert id in b.order;
    var k :| 0 <= k < |b.order| && b.order[k] == id;
    assert List(b)[k].id == id;
  }

  lemma NotInList(b: Books, id: PipelineID)
    requires TableOk(b) && id !in b.rows
    ensures !OnList(List(b), id)
  {
    forall k | 0 <= k < |List(b)| ensures List(b)[k].id != id {
      ListedRow(b, List(b)[k]);
    }
  }

  lemma NoneForeignTail(all: seq<Pipeline>, ps: seq<Pipeline>, creds: map<PipelineID, CredRender>, age: map<Path, Sha>)
    requires ps != []
    ensures NoneForeign(all, ps, creds, age) <==> !ForeignFile(all, ps[0], creds, age) && NoneForeign(all, ps[1..], creds, age)
  {
    var none := !ForeignFile(all, ps[0], creds, age) && NoneForeign(all, ps[1..], creds, age);
    if none {
      forall i | 0 <= i < |ps| ensures !ForeignFile(all, ps[i], creds, age) {
        if i > 0 { assert ps[i] == ps[1..][i - 1]; }
      }
    }
    if NoneForeign(all, ps, creds, age) {
      forall i | 0 <= i < |ps[1..]| ensures !ForeignFile(all, ps[1..][i], creds, age) {
        assert ps[1..][i] == ps[i + 1];
      }
    }
  }

  /** Whether flagging leaves the books alone, or at least tells somebody. */
  lemma {:induction false} FlagForeignTells(b: Books, all: seq<Pipeline>, ps: seq<Pipeline>, creds: map<PipelineID, CredRender>,
                                            age: map<Path, Sha>)
    requires forall i :: 0 <= i < |ps| ==> ps[i].id in b.rows
    ensures var b' := FlagForeign(b, all, ps, creds, age);
            if NoneForeign(all, ps, creds, age) then b' == b else |b'.notes| > |b.notes|
    decreases |ps|
  {
    if ps != [] {
      var path := CredentialPath(FileSlug(all, ps[0]));
      var next := if ForeignCredential(ps[0], path, creds, age) then MarkExternal(b, path, ps[0].id) else b;
      FlagForeignTells(next, all, ps[1..], creds, age);
      NoneForeignTail(all, ps, creds, age);
      assert ForeignFile(all, ps[0], creds, age) == ForeignCredential(ps[0], path, creds, age);
    }
  }

  lemma {:induction false} FlagForeignRaises(b: Books, all: seq<Pipeline>, ps: seq<Pipeline>, creds: map<PipelineID, CredRender>,
                                             age: map<Path, Sha>, id: PipelineID)
    requires id in b.rows
    ensures var b' := FlagForeign(b, all, ps, creds, age);
            && id in b'.rows
            && (b'.rows[id].credentialsExternal <==>
                  b.rows[id].credentialsExternal || exists i :: 0 <= i < |ps| && ps[i].id == id && ForeignFile(all, ps[i], creds, age))
    decreases |ps|
  {
    if ps != [] {
      var path := CredentialPath(FileSlug(all, ps[0]));
      var next := if ForeignCredential(ps[0], path, creds, age) then MarkExternal(b, path, ps[0].id) else b;
      FlagForeignRaises(next, all, ps[1..], creds, age, id);
      assert ps == [ps[0]] + ps[1..];
      if exists i :: 0 <= i < |ps| && ps[i].id == id && ForeignFile(all, ps[i], creds, age) {
        var i :| 0 <= i < |ps| && ps[i].id == id && ForeignFile(all, ps[i], creds, age);
        if i > 0 { assert ps[1..][i - 1] == ps[i]; }
      }
      if exists i :: 0 <= i < |ps[1..]| && ps[1..][i].id == id && ForeignFile(all, ps[1..][i], creds, age) {
        var i :| 0 <= i < |ps[1..]| && ps[1..][i].id == id && ForeignFile(all, ps[1..][i], creds, age);
        assert ps[i + 1] == ps[1..][i];
      }
    }
  }

  lemma FlagForeignEffect(b: Books, all: seq<Pipeline>, ps: seq<Pipeline>, creds: map<PipelineID, CredRender>, age: map<Path, Sha>)
    requires forall i :: 0 <= i < |ps| ==> ps[i].id in b.rows
    ensures var b' := FlagForeign(b, all, ps, creds, age);
            && (if NoneForeign(all, ps, creds, age) then b' == b else |b'.notes| > |b.notes|)
            && (forall id :: id in b.rows && id in b'.rows && b.rows[id].credentialsExternal ==> b'.rows[id].credentialsExternal)
            && (forall i :: 0 <= i < |ps| && ForeignFile(all, ps[i], creds, age) && ps[i].id in b'.rows ==>
                  b'.rows[ps[i].id].credentialsExternal)
  {
    FlagForeignTells(b, all, ps, creds, age);
    forall id | id in b.rows && b.rows[id].credentialsExternal
      ensures id in FlagForeign(b, all, ps, creds, age).rows && FlagForeign(b, all, ps, creds, age).rows[id].credentialsExternal
    {
      FlagForeignRaises(b, all, ps, creds, age, id);
    }
    forall i | 0 <= i < |ps| && ForeignFile(all, ps[i], creds, age)
      ensures ps[i].id in FlagForeign(b, all, ps, creds, age).rows && FlagForeign(b, all, ps, creds, age).rows[ps[i].id].credentialsExternal
    {
      FlagForeignRaises(b, all, ps, creds, age, ps[i].id);
    }
  }

  /** The notices flagging raises: one per foreign credential file, in list order. */
  ghost function FlagNotes(all: seq<Pipeline>, ps: seq<Pipeline>, creds: map<PipelineID, CredRender>, age: map<Path, Sha>): seq<Note>
    decreases |ps|
  {
    if ps == [] then [] else FlagNote(all, ps[0], creds, age) + FlagNotes(all, ps[1..], creds, age)
  }

  ghost function FlagNote(all: seq<Pipeline>, p: Pipeline, creds: map<PipelineID, CredRender>, age: map<Path, Sha>): seq<Note> {
    if ForeignFile(all, p, creds, age) then [ExternalNote(CredentialPath(FileSlug(all, p)), p.id)] else []
  }

  lemma FlagOneNotes(b: Books, all: seq<Pipeline>, p: Pipeline, creds: map<PipelineID, CredRender>, age: map<Path, Sha>)
    requires p.id in b.rows
    ensures var path := CredentialPath(FileSlug(all, p));
            var next := if ForeignCredential(p, path, creds, age) then MarkExternal(b, path, p.id) else b;
            next.notes == b.notes + FlagNote(all, p, creds, age) && next.rows.Keys == b.rows.Keys
  {
  }

  lemma {:induction false} FlagForeignNotes(b: Books, all: seq<Pipeline>, ps: seq<Pipeline>, creds: map<PipelineID, CredRender>,
                                            age: map<Path, Sha>)
    requires forall i :: 0 <= i < |ps| ==> ps[i].id in b.rows
    ensures FlagForeign(b, all, ps, creds, age).notes == b.notes + FlagNotes(all, ps, creds, age)
    decreases |ps|
  {
    if ps == [] {
      assert b.notes + [] == b.notes;
    } else {
      var path := CredentialPath(FileSlug(all, ps[0]));
      var next := if ForeignCredential(ps[0], path, creds, age) then MarkExternal(b, path, ps[0].id) else b;
      FlagOneNotes(b, all, ps[0], creds, age);
      assert FlagForeign(b, all, ps, creds, age) == FlagForeign(next, all, ps[1..], creds, age);
      FlagForeignNotes(next, all, ps[1..], creds, age);
      NotesTogether(b.notes, FlagNote(all, ps[0], creds, age), FlagNotes(all, ps[1..], creds, age));
    }
  }

  lemma NotesTogether(a: seq<Note>, b: seq<Note>, c: seq<Note>)
    ensures a + b + c == a + (b + c)
  {
  }

  /** Nothing pending: adoption passes over every pipeline. */
  lemma {:induction false} AdoptsNothing(env: Env, w: World, ps: seq<Pipeline>, renders: map<PipelineID, DefRender>, yaml: map<Path, Sha>)
    requires forall id :: id in renders ==> !Pending(Some(renders[id]), yaml)
    ensures AdoptDefinitions(env, w, ps, renders, yaml) == Step(w, Done)
    decreases |ps|
  {
    if ps != [] { AdoptsNothing(env, w, ps[1..], renders, yaml); }
  }

  lemma {:induction false} SomethingNotified(env: Env, ps: seq<Pipeline>, renders: map<PipelineID, DefRender>, files: map<Path, Content>, k: nat)
    requires k < |ps| && Pending(Lookup(renders, ps[k].id), YamlTree(Tree(files)))
    ensures NotesFor(env, ps, renders, files) != []
    decreases |ps|
  {
    if k > 0 { SomethingNotified(env, ps[1..], renders, files, k - 1); }
  }

  lemma RowsOfList(b: Books, b': Books)
    requires TableOk(b) && b.rows.Keys <= b'.rows.Keys
    ensures forall i :: 0 <= i < |List(b)| ==> List(b)[i].id in b'.rows
  {
    forall i | 0 <= i < |List(b)| ensures List(b)[i].id in b'.rows {
      ListedRow(b, List(b)[i]);
    }
  }

  /** Adoption and flagging add and remove no rows. */
  lemma PassKeepsKeys(env: Env, w: World)
    requires Ready(env, w)
    ensures AdoptCustomer(env, w).world.books.rows.Keys == AfterImport(env, w).world.books.rows.Keys
  {
    AdoptPhase(env, w);
    var b := AfterAdopt(env, w).world.books;
    FlagForeignKeepsRows(b, List(w.books), List(w.books), b.creds, AgeFiles(w));
  }

  /** A pass with something to import is decided by the first importable path: its pipeline
      becomes a row, or the table refuses it and the pass ends with nothing done. */
  lemma PassImports(env: Env, w: World, p: Path)
    requires Ready(env, w) && env.importer && FirstOffered(env, w, p)
    ensures var s, q := AdoptCustomer(env, w), Offered(env, w, p).value;
            if Storable(q) then q.id !in w.books.rows && w.books.rows.Keys + {q.id} <= s.world.books.rows.Keys
            else s.outcome == Failed(NotStorable) && s.world.books == w.books
  {
    ImportPhaseRuns(env, w);
    TakenCovers(w.books);
    var k := FirstOfferedAt(env, w, p);
    FirstDecides(env, AfterList(w), Sorted(YamlFiles(w).Keys), TrackedPaths(w.books.defs), YamlFiles(w), AgeFiles(w), AllTaken(w.books), k);
    PassKeepsKeys(env, w);
  }

  lemma SomethingOffered(env: Env, w: World) returns (p: Path)
    requires !NothingImportable(env, w)
    ensures env.importer && FirstOffered(env, w, p)
  {
    var offered := set q | q in YamlFiles(w) && Offered(env, w, q).Some?;
    var q :| q in YamlFiles(w) && Offered(env, w, q).Some?;
    assert q in offered;
    p := First(offered);
  }

  /** What the flags may still change after adoption: nothing but ownership. */
  lemma FlagPhase(env: Env, w: World)
    requires Ready(env, w) && AfterImport(env, w).outcome.Done? && AfterAdopt(env, w).outcome.Done?
    ensures var s, t := AdoptCustomer(env, w), AfterAdopt(env, w).world;
            && s.outcome.Done? && s.world.repo.files == w.repo.files && Ready(env, s.world)
            && RowsKept(t.books, s.world.books) && s.world.books.defs == t.books.defs && s.world.books.creds == t.books.creds
  {
    AdoptPhase(env, w);
    AdoptKeepsTable(env, w);
    var t, ps := AfterAdopt(env, w).world, List(w.books);
    FlagForeignKeepsRows(t.books, ps, ps, t.books.creds, AgeFiles(w));
  }

  /** A pass is its phases: it fails with the first one that does. */
  lemma PassIsItsPhases(env: Env, w: World)
    requires Ready(env, w)
    ensures var i, t, s := AfterImport(env, w), AfterAdopt(env, w), AdoptCustomer(env, w);
            && (i.outcome.Failed? ==> s == i)
            && (i.outcome.Done? && t.outcome.Failed? ==> s == t)
            && (s.outcome.Done? <==> i.outcome.Done? && t.outcome.Done?)
  {
  }

  lemma NamesKept(b: Books, b': Books)
    requires RowsKept(b, b')
    ensures Names(b') == Names(b)
  {
    forall n | n in Names(b) ensures n in Names(b') {
      var id :| id in b.rows && b.rows[id].name == n;
      assert id in b'.rows && b'.rows[id].name == n;
    }
    forall n | n in Names(b') ensures n in Names(b) {
      var id :| id in b'.rows && b'.rows[id].name == n;
      assert id in b.rows && b.rows[id].name == n;
    }
  }
}
