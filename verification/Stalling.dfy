/** When an adopt pass fails, decided from the rows and the files before it, and why no later
    pass gets any further. */
module Stalling {
  import opened Basics
  import opened Domain
  import opened GitRepo
  import opened Mirror
  import opened Sync
  import opened Adopt
  import opened Syncing
  import opened Adopting
  import opened Passes

  // ---- What blocks a pass ----

  /** The row the pass would store for the i-th listed pipeline; None when its file is not
      pending, or is refused. */
  ghost function Adopted(env: Env, w: World, i: nat): Option<Pipeline>
    requires i < |w.books.order|
  {
    var p := List(w.books)[i];
    var row := Lookup(w.books.defs, p.id);
    if Pending(row, YamlFiles(w)) then ParseAdoptable(env, w.repo.files[row.value.path], p) else None
  }

  /** What the i-th listed pipeline is called once the first k have had their turn. */
  ghost function NameAt(env: Env, w: World, i: nat, k: nat): string
    requires i < |w.books.order|
  {
    if i < k && Adopted(env, w, i).Some? then Adopted(env, w, i).value.name else List(w.books)[i].name
  }

  /** The names the import phase brings in. */
  ghost function ImportedNames(env: Env, w: World): set<string> {
    if !env.importer then {}
    else TakenAfter(env, w.repo.files, Sorted(YamlFiles(w).Keys), TrackedPaths(w.books.defs), AllTaken(w.books)).names - Names(w.books)
  }

  ghost predicate NamesakeAt(env: Env, w: World, k: nat, name: string) {
    exists i: nat :: i < |w.books.order| && i != k && NameAt(env, w, i, k) == name
  }

  /** The k-th listed pipeline's edit is well-formed but has no config, or takes the name of
      an imported pipeline or of another listed one. */
  ghost predicate AdoptBlockedAt(env: Env, w: World, k: nat) {
    && k < |w.books.order| && Adopted(env, w, k).Some?
    && var v := Adopted(env, w, k).value;
       v.sourceConfig.None? || v.name in ImportedNames(env, w) || NamesakeAt(env, w, k, v.name)
  }

  ghost predicate PassBlocked(env: Env, w: World) {
    ImportBlocked(env, w) || exists k: nat :: AdoptBlockedAt(env, w, k)
  }

  // ---- The books after k turns ----

  ghost function AfterTurns(env: Env, w: World, k: nat): Step
    requires k <= |w.books.order|
  {
    AdoptDefinitions(env, AfterImport(env, w).world, List(w.books)[..k], w.books.defs, YamlFiles(w))
  }

  lemma {:induction false} AdoptDefinitionsSnoc(env: Env, w: World, ps: seq<Pipeline>, p: Pipeline, renders: map<PipelineID, DefRender>,
                                                yaml: map<Path, Sha>)
    ensures var s := AdoptDefinitions(env, w, ps, renders, yaml);
            AdoptDefinitions(env, w, ps + [p], renders, yaml) ==
            if s.outcome.Failed? then s else AdoptDefinition(env, s.world, p, renders, yaml)
    decreases |ps|
  {
    if ps == [] {
      assert (ps + [p])[1..] == [];
    } else {
      assert (ps + [p])[0] == ps[0] && (ps + [p])[1..] == ps[1..] + [p];
      AdoptDefinitionsSnoc(env, AdoptDefinition(env, w, ps[0], renders, yaml).world, ps[1..], p, renders, yaml);
    }
  }

  lemma NextTurn(env: Env, w: World, k: nat)
    requires k < |w.books.order|
    ensures var s := AfterTurns(env, w, k);
            AfterTurns(env, w, k + 1) ==
            if s.outcome.Failed? then s else AdoptDefinition(env, s.world, List(w.books)[k], w.books.defs, YamlFiles(w))
  {
    var ps := List(w.books);
    assert ps[..k + 1] == ps[..k] + [ps[k]];
    AdoptDefinitionsSnoc(env, AfterImport(env, w).world, ps[..k], ps[k], w.books.defs, YamlFiles(w));
  }

  lemma TurnsSnapshot(env: Env, w: World, k: nat)
    requires Ready(env, w) && k <= |w.books.order|
    ensures var i := AfterImport(env, w).world;
            && Quiet(i.repo) && i.repo.files == w.repo.files && TableOk(i.books)
            && SnapshotHolds(List(w.books)[..k], w.books.defs, i.books)
            && (forall id :: id in w.books.rows ==> SameRowAt(w.books, i.books, id))
  {
    ImportPhase(env, w);
    HydratedSnapshot(w.books, AfterImport(env, w).world.books, YamlFiles(w));
    assert forall j :: 0 <= j < k ==> List(w.books)[..k][j] == List(w.books)[j];
  }

  lemma TurnsKeep(env: Env, w: World, k: nat)
    requires Ready(env, w) && k <= |w.books.order|
    ensures var i, s := AfterImport(env, w).world, AfterTurns(env, w, k);
            && Ready(env, s.world) && s.world.repo.files == w.repo.files && s.world.books.rows.Keys == i.books.rows.Keys
            && (s.outcome.Failed? ==> IsRefusal(s.outcome))
            && (forall id :: !OnList(List(w.books)[..k], id) ==> SameRowAt(i.books, s.world.books, id))
  {
    TurnsSnapshot(env, w, k);
    AdoptDefinitionsFrame(env, AfterImport(env, w).world, List(w.books)[..k], w.books.defs);
    AdoptDefinitionsKeepTable(env, AfterImport(env, w).world, List(w.books)[..k], w.books.defs, YamlFiles(w));
  }

  lemma NotYet(w: World, i: nat, k: nat)
    requires TableOk(w.books) && k <= i < |w.books.order|
    ensures !OnList(List(w.books)[..k], List(w.books)[i].id)
  {
    ListDistinct(w.books);
    var ps := List(w.books);
    forall j | 0 <= j < k ensures ps[..k][j].id != ps[i].id { assert ps[..k][j] == ps[j]; }
  }

  lemma NameAfterTurn(env: Env, w: World, i: nat, k: nat)
    requires Ready(env, w) && i < k <= |w.books.order| && AfterTurns(env, w, k).outcome.Done?
    ensures var id, b := List(w.books)[i].id, AfterTurns(env, w, k).world.books;
            id in b.rows && b.rows[id].name == NameAt(env, w, i, k)
  {
    var ps, start := List(w.books), AfterImport(env, w).world;
    TurnsSnapshot(env, w, k);
    ListedRow(w.books, ps[i]);
    assert SameRowAt(w.books, start.books, ps[i].id);
    assert ps[..k][i] == ps[i];
    AdoptDefinitionsAt(env, start, ps[..k], w.books.defs, i);
  }

  lemma NameBeforeTurn(env: Env, w: World, i: nat, k: nat)
    requires Ready(env, w) && k <= i < |w.books.order|
    ensures var id, b := List(w.books)[i].id, AfterTurns(env, w, k).world.books;
            id in b.rows && b.rows[id].name == NameAt(env, w, i, k)
  {
    var p, start := List(w.books)[i], AfterImport(env, w).world;
    TurnsSnapshot(env, w, k);
    TurnsKeep(env, w, k);
    ListedRow(w.books, p);
    NotYet(w, i, k);
    assert SameRowAt(w.books, start.books, p.id) && SameRowAt(start.books, AfterTurns(env, w, k).world.books, p.id);
  }

  /** Listed pipelines are called what NameAt says. */
  lemma NameAtRow(env: Env, w: World, i: nat, k: nat)
    requires Ready(env, w) && i < |w.books.order| && k <= |w.books.order| && AfterTurns(env, w, k).outcome.Done?
    ensures var id, b := List(w.books)[i].id, AfterTurns(env, w, k).world.books;
            id in b.rows && b.rows[id].name == NameAt(env, w, i, k)
  {
    if i < k { NameAfterTurn(env, w, i, k); } else { NameBeforeTurn(env, w, i, k); }
  }

  /** Imported pipelines keep their names through adoption. */
  lemma ImportedRow(env: Env, w: World, k: nat, id: PipelineID)
    requires Ready(env, w) && k <= |w.books.order| && id !in w.books.rows
    ensures Lookup(AfterTurns(env, w, k).world.books.rows, id) == Lookup(AfterImport(env, w).world.books.rows, id)
  {
    TurnsKeep(env, w, k);
    forall j | 0 <= j < k ensures List(w.books)[..k][j].id != id {
      assert List(w.books)[..k][j] == List(w.books)[j];
      ListedRow(w.books, List(w.books)[j]);
    }
    assert SameRowAt(AfterImport(env, w).world.books, AfterTurns(env, w, k).world.books, id);
  }

  lemma ImportedNamesAre(env: Env, w: World)
    requires Ready(env, w) && AfterImport(env, w).outcome.Done?
    ensures ImportedNames(env, w) == Names(AfterImport(env, w).world.books) - Names(w.books)
  {
    if env.importer {
      ImportPhaseRuns(env, w);
      TakenCovers(w.books);
      ImportFilesStopIff(env, AfterList(w), Sorted(YamlFiles(w).Keys), TrackedPaths(w.books.defs), YamlFiles(w), AgeFiles(w), AllTaken(w.books));
    }
  }

  /** Some other row than the k-th is called n after k turns exactly when NameAt or the
      imports say so. */
  lemma HolderIff(env: Env, w: World, k: nat, n: string)
    requires Ready(env, w) && k < |w.books.order| && AfterImport(env, w).outcome.Done? && AfterTurns(env, w, k).outcome.Done?
    ensures var b := AfterTurns(env, w, k).world.books;
            (exists id :: id in b.rows && id != List(w.books)[k].id && b.rows[id].name == n) <==>
            n in ImportedNames(env, w) || NamesakeAt(env, w, k, n)
  {
    var ps, b, i := List(w.books), AfterTurns(env, w, k).world.books, AfterImport(env, w).world.books;
    ImportedNamesAre(env, w);
    TurnsKeep(env, w, k);
    TurnsSnapshot(env, w, k);
    ListDistinct(w.books);
    if id :| id in b.rows && id != ps[k].id && b.rows[id].name == n { HolderIsNamed(env, w, k, id); }
    if n in ImportedNames(env, w) {
      var id := NewHolder(w.books, i, n);
      ImportedRow(env, w, k, id);
      ListedRow(w.books, ps[k]);
    }
    if NamesakeAt(env, w, k, n) {
      var j: nat :| j < |w.books.order| && j != k && NameAt(env, w, j, k) == n;
      NameAtRow(env, w, j, k);
    }
  }

  lemma HolderIsNamed(env: Env, w: World, k: nat, id: PipelineID)
    requires Ready(env, w) && k < |w.books.order| && AfterImport(env, w).outcome.Done? && AfterTurns(env, w, k).outcome.Done?
    requires id in AfterTurns(env, w, k).world.books.rows && id != List(w.books)[k].id
    ensures var n := AfterTurns(env, w, k).world.books.rows[id].name;
            n in ImportedNames(env, w) || NamesakeAt(env, w, k, n)
  {
    if id in w.books.rows {
      ListHas(w.books, id);
      var j :| 0 <= j < |List(w.books)| && List(w.books)[j].id == id;
      NameAtRow(env, w, j, k);
    } else {
      ImportedNamesAre(env, w);
      ImportedRow(env, w, k, id);
      TurnsSnapshot(env, w, k);
      TurnsKeep(env, w, k);
      ImportPhase(env, w);
      NewNameIsNew(w.books, AfterImport(env, w).world.books, id);
    }
  }

  lemma NewNameIsNew(b: Books, b': Books, id: PipelineID)
    requires TableOk(b') && id in b'.rows && id !in b.rows && b.rows.Keys <= b'.rows.Keys
    requires forall k :: k in b.rows ==> SameRowAt(b, b', k)
    ensures b'.rows[id].name in Names(b') && b'.rows[id].name !in Names(b)
  {
    forall k | k in b.rows ensures b.rows[k].name != b'.rows[id].name { assert SameRowAt(b, b', k); }
  }

  lemma NewHolder(b: Books, b': Books, n: string) returns (id: PipelineID)
    requires n in Names(b') && n !in Names(b) && forall k :: k in b.rows ==> SameRowAt(b, b', k)
    ensures id in b'.rows && id !in b.rows && b'.rows[id].name == n
  {
    id :| id in b'.rows && b'.rows[id].name == n;
    assert id in b.rows ==> SameRowAt(b, b', id);
  }

  // ---- The pass fails exactly when it is blocked ----

  lemma TurnFailsIff(env: Env, w: World, k: nat)
    requires Ready(env, w) && k < |w.books.order| && AfterTurns(env, w, k).outcome.Done?
    ensures var p := List(w.books)[k];
            AfterTurns(env, w, k + 1).outcome.Failed? <==>
            Stuck(env, p, Lookup(w.books.defs, p.id), w.repo.files, AfterTurns(env, w, k).world.books)
  {
    var p, s := List(w.books)[k], AfterTurns(env, w, k).world;
    NextTurn(env, w, k);
    TurnsKeep(env, w, k);
    TurnsSnapshot(env, w, k);
    ListedRow(w.books, p);
    NotYet(w, k, k);
    assert SameRowAt(w.books, AfterImport(env, w).world.books, p.id);
    assert SameRowAt(AfterImport(env, w).world.books, s.books, p.id);
    AdoptDefinitionFate(env, s, p, w.books.defs);
  }

  lemma BlockedIsStuck(env: Env, w: World, k: nat)
    requires Ready(env, w) && k < |w.books.order| && AfterImport(env, w).outcome.Done? && AfterTurns(env, w, k).outcome.Done?
    ensures var p := List(w.books)[k];
            Stuck(env, p, Lookup(w.books.defs, p.id), w.repo.files, AfterTurns(env, w, k).world.books) <==> AdoptBlockedAt(env, w, k)
  {
    if Adopted(env, w, k).Some? { HolderIff(env, w, k, Adopted(env, w, k).value.name); }
  }

  ghost predicate BlockedBefore(env: Env, w: World, k: nat) {
    exists j: nat :: j < k && AdoptBlockedAt(env, w, j)
  }

  lemma BlockedStep(env: Env, w: World, k: nat)
    ensures BlockedBefore(env, w, k + 1) <==> BlockedBefore(env, w, k) || AdoptBlockedAt(env, w, k)
  {
  }

  lemma {:induction false} TurnsFailIff(env: Env, w: World, k: nat)
    requires Ready(env, w) && k <= |w.books.order| && AfterImport(env, w).outcome.Done?
    ensures AfterTurns(env, w, k).outcome.Failed? <==> BlockedBefore(env, w, k)
  {
    if k > 0 {
      TurnsFailIff(env, w, k - 1);
      NextTurn(env, w, k - 1);
      BlockedStep(env, w, k - 1);
      if AfterTurns(env, w, k - 1).outcome.Done? {
        TurnFailsIff(env, w, k - 1);
        BlockedIsStuck(env, w, k - 1);
      }
    }
  }

  /** An undisturbed pass fails if and only if it is blocked: some untracked file reads as a
      pipeline the table refuses, or some pending edit has no config or takes a name that
      is held when its turn comes. */
  lemma PassFailsIff(env: Env, w: World)
    requires Ready(env, w)
    ensures AdoptCustomer(env, w).outcome.Failed? <==> PassBlocked(env, w)
    ensures AdoptCustomer(env, w).outcome.Failed? ==> IsRefusal(AdoptCustomer(env, w).outcome)
  {
    ImportPhase(env, w);
    PassIsItsPhases(env, w);
    var n := |w.books.order|;
    assert List(w.books)[..n] == List(w.books);
    if AfterImport(env, w).outcome.Done? {
      TurnsFailIff(env, w, n);
      TurnsKeep(env, w, n);
      assert (exists k: nat :: AdoptBlockedAt(env, w, k)) <==> BlockedBefore(env, w, n);
    }
  }

  // ---- No later pass gets past it ----

  /** The books a pass ends with when its import phase is refused: the next import phase has
      that file first in line. */
  lemma ImportStuckAgain(env: Env, w: World)
    requires Ready(env, w) && AfterImport(env, w).outcome.Failed?
    ensures AdoptCustomer(env, AfterImport(env, w).world).outcome == Failed(NotStorable)
    ensures AdoptCustomer(env, AfterImport(env, w).world).world.books == AfterImport(env, w).world.books
  {
    ImportPhaseRuns(env, w);
    ImportPhase(env, w);
    TakenCovers(w.books);
    var one, yaml := AfterImport(env, w).world, YamlFiles(w);
    var paths := Sorted(yaml.Keys);
    var k := ImportFilesStuck(env, AfterList(w), paths, TrackedPaths(w.books.defs), yaml, AgeFiles(w), AllTaken(w.books));
    StillFirst(env, w, k);
    ImportPhaseRuns(env, one);
    TakenCovers(one.books);
    FirstDecides(env, AfterList(one), paths, TrackedPaths(one.books.defs), yaml, AgeFiles(one), AllTaken(one.books), k);
  }

  lemma StillFirst(env: Env, w: World, k: nat)
    requires Ready(env, w) && env.importer && AfterImport(env, w).world.repo.files == w.repo.files
    requires ImportProgress(AfterList(w), AllTaken(w.books), ImportRun(env, w), YamlFiles(w))
    requires Halted(env, w.repo.files, Sorted(YamlFiles(w).Keys), TrackedPaths(w.books.defs), w.books, ImportRun(env, w), k)
    ensures var one, paths := ImportRun(env, w).world, Sorted(YamlFiles(w).Keys);
            && FirstImportable(env, w.repo.files, paths, TrackedPaths(one.books.defs), AllTaken(one.books), k)
            && Refuses(env, w.repo.files, paths[k], TrackedPaths(one.books.defs), AllTaken(one.books))
  {
    var s, yaml, tracked := ImportRun(env, w), YamlFiles(w), TrackedPaths(w.books.defs);
    var paths := Sorted(yaml.Keys);
    SortedEnumerates(yaml.Keys);
    assert s.taken == AllTaken(s.world.books);
    assert paths[k] !in tracked;
    assert paths[k] !in paths[..k];
    forall j | 0 <= j < k ensures ReadAs(env, w.repo.files, paths[j], TrackedPaths(s.world.books.defs), s.taken).None? {
      assert paths[j] in paths[..k];
      assert Past(env, w.repo.files, paths[j], tracked, s);
      if paths[j] in tracked { TrackedGrows(w.books, s.world.books, yaml, paths[j]); }
    }
  }

  lemma AdoptedNotPending(env: Env, w: World, p: Pipeline, renders: map<PipelineID, DefRender>)
    requires Quiet(w.repo) && env.wiring.drift && TableOk(w.books)
    requires p.id in w.books.rows && Lookup(w.books.defs, p.id) == Lookup(renders, p.id)
    requires AdoptDefinition(env, w, p, renders, YamlTree(Tree(w.repo.files))).outcome.Done?
    ensures var s := AdoptDefinition(env, w, p, renders, YamlTree(Tree(w.repo.files)));
            !Pending(Lookup(s.world.books.defs, p.id), YamlTree(Tree(w.repo.files)))
  {
    AdoptDefinitionFate(env, w, p, renders);
  }

  /** The first pipeline is not pending any more, and the rest of the pass leaves it so. */
  lemma FirstSettled(env: Env, w: World, ps: seq<Pipeline>, renders: map<PipelineID, DefRender>)
    requires Quiet(w.repo) && env.wiring.drift && TableOk(w.books) && SnapshotHolds(ps, renders, w.books) && ps != []
    requires AdoptDefinition(env, w, ps[0], renders, YamlTree(Tree(w.repo.files))).outcome.Done?
    ensures var yaml := YamlTree(Tree(w.repo.files));
            var s := AdoptDefinition(env, w, ps[0], renders, yaml);
            !Pending(Lookup(AdoptDefinitions(env, s.world, ps[1..], renders, yaml).world.books.defs, ps[0].id), yaml)
  {
    var yaml := YamlTree(Tree(w.repo.files));
    var s := AdoptDefinition(env, w, ps[0], renders, yaml);
    AdoptDefinitionReads(env, w, ps[0], renders);
    AdoptedNotPending(env, w, ps[0], renders);
    SnapshotTail(env, w, ps, renders);
    AdoptDefinitionsFrame(env, s.world, ps[1..], renders);
    assert !OnList(ps[1..], ps[0].id);
    assert SameRowAt(s.world.books, AdoptDefinitions(env, s.world, ps[1..], renders, yaml).world.books, ps[0].id);
  }

  lemma {:induction false} AdoptDefinitionsStuck(env: Env, w: World, ps: seq<Pipeline>, renders: map<PipelineID, DefRender>) returns (k: nat)
    requires Quiet(w.repo) && env.wiring.drift && TableOk(w.books) && SnapshotHolds(ps, renders, w.books)
    requires AdoptDefinitions(env, w, ps, renders, YamlTree(Tree(w.repo.files))).outcome.Failed?
    ensures var b := AdoptDefinitions(env, w, ps, renders, YamlTree(Tree(w.repo.files))).world.books;
            && k < |ps| && SameRowAt(w.books, b, ps[k].id)
            && Stuck(env, ps[k], Lookup(b.defs, ps[k].id), w.repo.files, b)
            && (forall j :: 0 <= j < k ==> !Pending(Lookup(b.defs, ps[j].id), YamlTree(Tree(w.repo.files))))
    decreases |ps|
  {
    var yaml := YamlTree(Tree(w.repo.files));
    var s := AdoptDefinition(env, w, ps[0], renders, yaml);
    AdoptDefinitionQuiet(env, w, ps[0], renders);
    if s.outcome.Failed? {
      k := 0;
    } else {
      SnapshotTail(env, w, ps, renders);
      FirstSettled(env, w, ps, renders);
      var b := AdoptDefinitions(env, s.world, ps[1..], renders, yaml).world.books;
      var k' := AdoptDefinitionsStuck(env, s.world, ps[1..], renders);
      k := k' + 1;
      assert ps[1..][k'] == ps[k];
      assert SameRowAt(w.books, s.world.books, ps[k].id);
      forall j | 0 <= j < k ensures !Pending(Lookup(b.defs, ps[j].id), yaml) {
        if j > 0 { assert ps[1..][j - 1] == ps[j]; }
      }
    }
  }

  lemma {:induction false} StuckStops(env: Env, w: World, ps: seq<Pipeline>, renders: map<PipelineID, DefRender>, k: nat)
    requires Quiet(w.repo) && k < |ps| && ps[k].id in w.books.rows
    requires forall j :: 0 <= j < k ==> !Pending(Lookup(renders, ps[j].id), YamlTree(Tree(w.repo.files)))
    requires Stuck(env, ps[k], Lookup(renders, ps[k].id), w.repo.files, w.books)
    ensures AdoptDefinitions(env, w, ps, renders, YamlTree(Tree(w.repo.files))).outcome.Failed?
    decreases |ps|
  {
    if k > 0 {
      assert forall j :: 0 < j < |ps| ==> ps[1..][j - 1] == ps[j];
      StuckStops(env, w, ps[1..], renders, k - 1);
    }
  }

  /** The k-th pipeline of the list is stuck and everything before it is settled. */
  ghost predicate StuckAt(env: Env, w: World, k: nat) {
    var qs := List(w.books);
    && k < |qs| && Stuck(env, qs[k], Lookup(w.books.defs, qs[k].id), w.repo.files, w.books)
    && (forall j :: 0 <= j < k ==> !Pending(Lookup(w.books.defs, qs[j].id), YamlFiles(w)))
  }

  lemma SameListPrefix(b: Books, b': Books, k: nat)
    requires TableOk(b) && TableOk(b') && b.order <= b'.order && k < |b.order| && Lookup(b'.rows, b.order[k]) == Lookup(b.rows, b.order[k])
    ensures List(b')[k] == List(b)[k]
    ensures forall m :: 0 <= m <= k ==> List(b')[m].id == List(b)[m].id
  {
    forall m | 0 <= m <= k ensures List(b')[m].id == List(b)[m].id == b.order[m] {
      ListedRow(b, List(b)[m]);
      ListedRow(b', List(b')[m]);
    }
  }

  lemma StuckTransfer(env: Env, w: World, one: World, k: nat)
    requires TableOk(w.books) && TableOk(one.books) && w.books.order <= one.books.order && one.repo.files == w.repo.files
    requires k < |w.books.order| && Lookup(one.books.rows, w.books.order[k]) == Lookup(w.books.rows, w.books.order[k])
    requires var ps := List(w.books);
             && Stuck(env, ps[k], Lookup(one.books.defs, ps[k].id), w.repo.files, one.books)
             && (forall j :: 0 <= j < k ==> !Pending(Lookup(one.books.defs, ps[j].id), YamlFiles(w)))
    ensures StuckAt(env, one, k)
  {
    SameListPrefix(w.books, one.books, k);
  }

  lemma AdoptionStuck(env: Env, w: World) returns (k: nat)
    requires Ready(env, w) && AfterAdopt(env, w).outcome.Failed?
    ensures Ready(env, AfterAdopt(env, w).world) && StuckAt(env, AfterAdopt(env, w).world, k)
  {
    ImportPhase(env, w);
    AdoptPhase(env, w);
    var ps, i := List(w.books), AfterImport(env, w).world;
    HydratedSnapshot(w.books, i.books, YamlFiles(w));
    AdoptDefinitionsFrame(env, i, ps, w.books.defs);
    k := AdoptDefinitionsStuck(env, i, ps, w.books.defs);
    ListedRow(w.books, ps[k]);
    assert SameRowAt(w.books, i.books, ps[k].id);
    StuckTransfer(env, w, AfterAdopt(env, w).world, k);
  }

  lemma StillStuck(env: Env, p: Pipeline, row: Option<DefRender>, files: map<Path, Content>, b: Books, b': Books, yaml: map<Path, Sha>)
    requires Stuck(env, p, row, files, b) && Hydrated(b, b', yaml)
    ensures Stuck(env, p, row, files, b')
  {
    var v := ParseAdoptable(env, files[row.value.path], p).value;
    if !NameFree(b, v) {
      var id :| id in b.rows && id != v.id && b.rows[id].name == v.name;
      assert SameRowAt(b, b', id);
    }
  }

  lemma StuckPassFails(env: Env, w: World, k: nat)
    requires Ready(env, w) && StuckAt(env, w, k)
    ensures AdoptCustomer(env, w).outcome.Failed?
  {
    ImportPhase(env, w);
    PassIsItsPhases(env, w);
    var i, ps := AfterImport(env, w).world, List(w.books);
    ListedRow(w.books, ps[k]);
    StillStuck(env, ps[k], Lookup(w.books.defs, ps[k].id), w.repo.files, w.books, i.books, YamlFiles(w));
    StuckStops(env, i, ps, w.books.defs, k);
  }

  /** A failed pass is followed by a failed pass: what it could not store it meets again. */
  lemma FailedPassFailsAgain(env: Env, w: World)
    requires Ready(env, w) && AdoptCustomer(env, w).outcome.Failed?
    ensures var one := AdoptCustomer(env, w);
            Ready(env, one.world) && AdoptCustomer(env, one.world).outcome.Failed?
  {
    ImportPhase(env, w);
    PassIsItsPhases(env, w);
    if AfterImport(env, w).outcome.Failed? {
      ImportStuckAgain(env, w);
    } else {
      var k := AdoptionStuck(env, w);
      StuckPassFails(env, AdoptCustomer(env, w).world, k);
    }
  }

  ghost predicate Failing(env: Env, w: World) {
    Ready(env, w) && AdoptCustomer(env, w).outcome.Failed?
  }

  ghost function AfterPasses(env: Env, w: World, n: nat): World {
    if n == 0 then w else AdoptCustomer(env, AfterPasses(env, w, n - 1)).world
  }

  /** The pass that follows n others over an unchanged repository. */
  ghost function NthPass(env: Env, w: World, n: nat): Step {
    AdoptCustomer(env, AfterPasses(env, w, n))
  }

  lemma KeepsFailing(env: Env, w: World)
    requires Failing(env, w)
    ensures Failing(env, AdoptCustomer(env, w).world)
  {
    FailedPassFailsAgain(env, w);
  }

  lemma {:induction false} PassAgain(env: Env, w: World, n: nat)
    requires Failing(env, w)
    ensures Failing(env, AfterPasses(env, w, n))
  {
    if n > 0 {
      PassAgain(env, w, n - 1);
      KeepsFailing(env, AfterPasses(env, w, n - 1));
    }
  }

  /** Once a pass fails, every later pass over the repository fails too. */
  lemma FailsForever(env: Env, w: World, n: nat)
    requires Failing(env, w)
    ensures IsRefusal(NthPass(env, w, n).outcome)
  {
    PassAgain(env, w, n);
    PassFailsIff(env, AfterPasses(env, w, n));
  }

  lemma BlockedForever(env: Env, w: World, n: nat)
    requires Ready(env, w) && PassBlocked(env, w)
    ensures IsRefusal(NthPass(env, w, n).outcome)
  {
    PassFailsIff(env, w);
    FailsForever(env, w, n);
  }

  // ---- Two ways to block a pass ----

  /** A definition of source type t called `name`. */
  function PlainFile(id: PipelineID, name: string, t: string, config: map<string, Json>): Content {
    Doc(true, 0, PipelineFile(id, name, t, config, "", "", "", "", true))
  }

  function PlainRow(id: PipelineID, name: string, t: string, config: map<string, Json>): Pipeline {
    Pipeline(id, name, t, Some(Obj(config)), None, "", "", "", "", true, false)
  }

  const OLD_RENDER := ShaOf(Junk(true, ""))

  /** Two tracked pipelines of one type. */
  datatype Pair = Pair(a: PipelineID, b: PipelineID, x: Path, y: Path, nameA: string, nameB: string, t: string, config: map<string, Json>)

  ghost predicate Apart(env: Env, c: Pair) {
    && env.wiring.drift && c.a != c.b && c.x != c.y && c.nameA != c.nameB && IsDefinitionPath(c.x) && IsDefinitionPath(c.y)
    && c.config != map[] && env.valid(c.t, Some(Obj(c.config)))
  }

  function PairBooks(c: Pair): Books {
    Books(map[c.a := PlainRow(c.a, c.nameA, c.t, c.config), c.b := PlainRow(c.b, c.nameB, c.t, c.config)], [c.a, c.b],
          map[c.a := DefRender(c.x, OLD_RENDER, None), c.b := DefRender(c.y, OLD_RENDER, None)], map[], [], 0)
  }

  /** One commit exchanged the names of the two files. */
  function Exchanged(c: Pair): World {
    World(Repo(map[c.x := PlainFile(c.a, c.nameB, c.t, c.config), c.y := PlainFile(c.b, c.nameA, c.t, c.config)], [], [], {}, true), PairBooks(c))
  }

  lemma PairReady(env: Env, c: Pair)
    requires Apart(env, c)
    ensures Ready(env, Exchanged(c)) && Pending(Lookup(PairBooks(c).defs, c.a), YamlFiles(Exchanged(c)))
  {
  }

  /** Exchanging two names in one commit, each edit valid by itself, stalls adoption. */
  lemma ExchangeStalls(env: Env, c: Pair, n: nat)
    requires Apart(env, c)
    ensures Ready(env, Exchanged(c)) && IsRefusal(NthPass(env, Exchanged(c), n).outcome)
  {
    var w := Exchanged(c);
    PairReady(env, c);
    var v := Adopted(env, w, 0);
    assert List(w.books)[0].id == c.a && List(w.books)[1].id == c.b;
    assert v.Some? && v.value.name == c.nameB;
    assert NameAt(env, w, 1, 0) == c.nameB;
    assert AdoptBlockedAt(env, w, 0);
    BlockedForever(env, w, n);
  }

  /** A tracked pipeline whose file lost its source_config, where the type allows that. */
  function Emptied(c: Pair): World {
    World(Repo(map[c.x := PlainFile(c.a, c.nameA, c.t, map[])], [], [], {}, true), PairBooks(c))
  }

  lemma EmptiedReady(env: Env, c: Pair)
    requires Apart(env, c)
    ensures Ready(env, Emptied(c)) && Pending(Lookup(PairBooks(c).defs, c.a), YamlFiles(Emptied(c)))
    ensures |PairBooks(c).order| == 2 && List(PairBooks(c))[0] == PlainRow(c.a, c.nameA, c.t, c.config)
  {
  }

  /** An edit that removes the config of a source that needs none (sql_database) validates,
      but is bound as NULL and stalls adoption. */
  lemma EmptiedConfigStalls(env: Env, c: Pair, n: nat)
    requires Apart(env, c) && env.valid(c.t, None)
    ensures Ready(env, Emptied(c)) && IsRefusal(NthPass(env, Emptied(c), n).outcome)
  {
    var w := Emptied(c);
    EmptiedReady(env, c);
    assert w.repo.files[c.x] == PlainFile(c.a, c.nameA, c.t, map[]);
    assert Adopted(env, w, 0).Some? && Adopted(env, w, 0).value.sourceConfig.None?;
    assert AdoptBlockedAt(env, w, 0);
    BlockedForever(env, w, n);
  }
}
