/** Repeated adopt passes over an unchanged repository come to rest: exactly when a pass
    has nothing left to do, and after how many passes that is certain. */
module Settling {
  import opened Basics
  import opened Domain
  import opened GitRepo
  import opened Mirror
  import opened Slugs
  import opened Sync
  import opened Adopt
  import opened FixedPoint
  import opened Convergence
  import opened Syncing
  import opened Adopting
  import opened Passes
  import opened Stalling

  // ---- When a pass does nothing ----

  /** With nothing to import or adopt, the books reach the flagging phase as they were. */
  lemma QuietPass(env: Env, w: World)
    requires Ready(env, w) && NothingPending(w) && NothingImportable(env, w)
    ensures AfterImport(env, w).outcome.Done? && AfterAdopt(env, w).outcome.Done? && AfterAdopt(env, w).world.books == w.books
  {
    ImportPhase(env, w);
    AdoptsNothing(env, AfterImport(env, w).world, List(w.books), w.books.defs, YamlFiles(w));
  }

  lemma SettledPassIdle(env: Env, w: World)
    requires Ready(env, w) && AdoptSettled(env, w)
    ensures AdoptCustomer(env, w).outcome.Done? && Idle(w, AdoptCustomer(env, w).world)
  {
    var ps := List(w.books);
    QuietPass(env, w);
    ImportPhase(env, w);
    AdoptPhase(env, w);
    AdoptOnlyReads(env, w);
    RowsOfList(w.books, w.books);
    FlagForeignTells(w.books, ps, ps, w.books.creds, AgeFiles(w));
  }

  /** A pending file is notified about. */
  lemma PendingPassTells(env: Env, w: World)
    requires Ready(env, w) && !NothingPending(w) && AdoptCustomer(env, w).outcome.Done?
    ensures |AdoptCustomer(env, w).world.books.notes| > |w.books.notes|
  {
    var ps := List(w.books);
    ImportPhase(env, w);
    AdoptPhase(env, w);
    var b := AfterAdopt(env, w).world.books;
    RowsOfList(w.books, b);
    FlagForeignNotes(b, ps, ps, b.creds, AgeFiles(w));
    var id :| id in w.books.defs && Pending(Some(w.books.defs[id]), YamlFiles(w));
    ListHas(w.books, id);
    var k :| 0 <= k < |ps| && ps[k].id == id;
    SomethingNotified(env, ps, w.books.defs, w.repo.files, k);
  }

  lemma ForeignPassTells(env: Env, w: World)
    requires Ready(env, w) && NothingPending(w) && NothingImportable(env, w) && !NothingForeign(env, w)
    ensures |AdoptCustomer(env, w).world.books.notes| > |w.books.notes|
  {
    var ps := List(w.books);
    ImportPhase(env, w);
    QuietPass(env, w);
    RowsOfList(w.books, w.books);
    FlagForeignTells(w.books, ps, ps, w.books.creds, AgeFiles(w));
  }

  /** An undisturbed pass does nothing exactly when no untracked file is importable, no
      tracked file is pending and no credential file is foreign. */
  lemma AdoptIdleIff(env: Env, w: World)
    requires Ready(env, w)
    ensures var s := AdoptCustomer(env, w);
            s.outcome.Done? && Idle(w, s.world) <==> AdoptSettled(env, w)
  {
    if AdoptSettled(env, w) {
      SettledPassIdle(env, w);
    } else if AdoptCustomer(env, w).outcome.Done? {
      if !NothingImportable(env, w) {
        var p := SomethingOffered(env, w);
        PassImports(env, w, p);
      } else if !NothingPending(w) {
        PendingPassTells(env, w);
      } else {
        ForeignPassTells(env, w);
      }
    }
  }


  lemma Completes(env: Env, w: World)
    requires Ready(env, w) && !PassBlocked(env, w)
    ensures AfterImport(env, w).outcome.Done? && AfterAdopt(env, w).outcome.Done? && AdoptCustomer(env, w).outcome.Done?
  {
    PassFailsIff(env, w);
    PassIsItsPhases(env, w);
  }

  // ---- Coming to rest ----

  /** A pass that is not blocked leaves nothing pending: every foreign blob of a tracked
      definition has been adopted or refused. */
  lemma PassSettlesDefinitions(env: Env, w: World)
    requires Ready(env, w) && !PassBlocked(env, w)
    ensures Ready(env, AdoptCustomer(env, w).world) && NothingPending(AdoptCustomer(env, w).world)
    ensures AdoptCustomer(env, w).world.repo.files == w.repo.files
  {
    Completes(env, w);
    AdoptPhase(env, w);
    FlagPhase(env, w);
  }

  /** With nothing pending, a pass fails only if an import is refused, and otherwise leaves
      nothing importable either. */
  lemma PassSettlesImports(env: Env, w: World)
    requires Ready(env, w) && NothingPending(w)
    ensures AdoptCustomer(env, w).outcome.Done? <==> !ImportBlocked(env, w)
    ensures !ImportBlocked(env, w) ==>
              var s := AdoptCustomer(env, w).world;
              Ready(env, s) && NothingPending(s) && NothingImportable(env, s) && s.repo.files == w.repo.files
  {
    ImportPhase(env, w);
    PassIsItsPhases(env, w);
    var i := AfterImport(env, w).world;
    AdoptsNothing(env, i, List(w.books), w.books.defs, YamlFiles(w));
    if !ImportBlocked(env, w) {
      FlagPhase(env, w);
      AdoptPhase(env, w);
      StaysUnimportable(env, i, AdoptCustomer(env, w).world);
    }
  }

  lemma StaysUnimportable(env: Env, w: World, w': World)
    requires NothingImportable(env, w) && w'.repo.files == w.repo.files && w'.books.defs == w.books.defs && RowsKept(w.books, w'.books)
    ensures NothingImportable(env, w')
  {
    NamesKept(w.books, w'.books);
    assert AllTaken(w'.books) == AllTaken(w.books);
    assert forall p :: Offered(env, w', p) == Offered(env, w, p);
  }

  /** With nothing pending and nothing importable, a pass only flags foreign credential
      files, and none is left. */
  lemma PassSettlesFlags(env: Env, w: World)
    requires Ready(env, w) && NothingPending(w) && NothingImportable(env, w)
    ensures AdoptCustomer(env, w).outcome.Done? && AdoptSettled(env, AdoptCustomer(env, w).world)
  {
    ImportPhase(env, w);
    QuietPass(env, w);
    PassSettlesImports(env, w);
    FlagPhase(env, w);
    if env.ageWired && env.wiring.ownership {
      KeptRowsSameNames(w.books, AdoptCustomer(env, w).world.books);
      FlaggedBooks(env, w);
      FlagsAreDone(env, w, w.books, AdoptCustomer(env, w).world);
    }
  }

  lemma FlaggedBooks(env: Env, w: World)
    requires Ready(env, w) && AfterImport(env, w).outcome.Done? && AfterAdopt(env, w).outcome.Done? && env.ageWired && env.wiring.ownership
    ensures var b := AfterAdopt(env, w).world.books;
            AdoptCustomer(env, w).world.books == FlagForeign(b, List(w.books), List(w.books), b.creds, AgeFiles(w))
  {
    ImportPhase(env, w);
  }

  lemma KeptRowsSameNames(b: Books, b': Books)
    requires TableOk(b) && RowsKept(b, b')
    ensures SameNames(List(b), List(b'))
  {
    EvolvedList(b, b');
    forall i | 0 <= i < |List(b)| ensures SameIdAndName(List(b)[i], List(b')[i]) {
      assert SameButFlag(List(b)[i], List(b')[i]);
    }
  }

  /** Flagging by the list of `was` leaves nothing foreign in `s` when ids, names and
      credential rows are still those of `was`. */
  lemma FlagsAreDone(env: Env, was: World, b: Books, s: World)
    requires TableOk(was.books) && TableOk(s.books) && s.repo.files == was.repo.files
    requires b.rows.Keys == was.books.rows.Keys && b.creds == was.books.creds
    requires forall id :: id in was.books.rows && was.books.rows[id].credentialsExternal ==> b.rows[id].credentialsExternal
    requires s.books == FlagForeign(b, List(was.books), List(was.books), b.creds, AgeFiles(was))
    requires SameNames(List(was.books), List(s.books))
    ensures NothingForeign(env, s)
  {
    var ps, qs := List(was.books), List(s.books);
    RowsOfList(was.books, b);
    FlagForeignEffect(b, ps, ps, b.creds, AgeFiles(was));
    FlagForeignKeepsRows(b, ps, ps, b.creds, AgeFiles(was));
    forall i | 0 <= i < |qs| ensures !ForeignFile(qs, qs[i], s.books.creds, AgeFiles(s)) {
      assert SameIdAndName(ps[i], qs[i]);
      SlugByName(ps, qs, ps[i], qs[i]);
      ListedRow(was.books, ps[i]);
      ListedRow(s.books, qs[i]);
    }
  }

  /** After a pass that is not blocked, the next fails exactly if an import is refused (a
      rename freed the name of a file without a config, say); if it completes, the third
      reaches rest. Without an importer the second already does. */
  lemma ThreePassesSettle(env: Env, w: World)
    requires Ready(env, w) && !PassBlocked(env, w)
    ensures var one := AdoptCustomer(env, w).world;
            var two := AdoptCustomer(env, one);
            var three := AdoptCustomer(env, two.world);
            && (two.outcome.Done? <==> !ImportBlocked(env, one))
            && (two.outcome.Done? ==> three.outcome.Done? && AdoptSettled(env, three.world))
            && (!env.importer ==> two.outcome.Done? && AdoptSettled(env, two.world))
  {
    PassSettlesDefinitions(env, w);
    var one := AdoptCustomer(env, w).world;
    PassSettlesImports(env, one);
    if !ImportBlocked(env, one) { PassSettlesFlags(env, AdoptCustomer(env, one).world); }
    if !env.importer { PassSettlesFlags(env, one); }
  }

  /** The pass took in no new pipeline and renamed none. */
  ghost predicate KeptNames(b: Books, b': Books) {
    && b'.rows.Keys == b.rows.Keys
    && forall id :: id in b.rows && id in b'.rows ==> b'.rows[id].name == b.rows[id].name
  }

  /** After a pass that is not blocked, a second one over the unchanged repository does
      nothing if and only if the first left no importable file and no foreign credential file. */
  lemma SecondPassIdleIff(env: Env, w: World)
    requires Ready(env, w) && !PassBlocked(env, w)
    ensures var one := AdoptCustomer(env, w).world;
            var two := AdoptCustomer(env, one);
            two.outcome.Done? && Idle(one, two.world) <==> NothingImportable(env, one) && NothingForeign(env, one)
  {
    PassSettlesDefinitions(env, w);
    AdoptIdleIff(env, AdoptCustomer(env, w).world);
  }

  /** Adoption keeps every tracked path and every ownership flag. */
  lemma AdoptKeepsPaths(env: Env, w: World)
    requires Ready(env, w) && AfterImport(env, w).outcome.Done? && AfterAdopt(env, w).outcome.Done?
    ensures var b := AfterAdopt(env, w).world.books;
            && TrackedPaths(w.books.defs) <= TrackedPaths(b.defs)
            && (forall id :: id in w.books.rows ==> id in b.rows && b.rows[id].credentialsExternal == w.books.rows[id].credentialsExternal)
  {
    ImportPhase(env, w);
    AdoptPhase(env, w);
    var ps, i, b := List(w.books), AfterImport(env, w).world, AfterAdopt(env, w).world.books;
    HydratedSnapshot(w.books, i.books, YamlFiles(w));
    forall id | id in w.books.rows
      ensures id in b.rows && b.rows[id].credentialsExternal == w.books.rows[id].credentialsExternal
      ensures id in w.books.defs ==> id in b.defs && b.defs[id].path == w.books.defs[id].path
    {
      ListHas(w.books, id);
      var k :| 0 <= k < |ps| && ps[k].id == id;
      AdoptDefinitionsAt(env, i, ps, w.books.defs, k);
      assert SameRowAt(w.books, i.books, id);
    }
    forall p | p in TrackedPaths(w.books.defs) ensures p in TrackedPaths(b.defs) {
      var id :| id in w.books.defs && w.books.defs[id].path == p;
      assert id in b.defs && b.defs[id].path == p;
    }
  }

  /** Tracking more and taking more offers no more. */
  lemma OffersNoMore(env: Env, w: World, w': World)
    requires NothingImportable(env, w) && w'.repo.files == w.repo.files && TrackedPaths(w.books.defs) <= TrackedPaths(w'.books.defs)
    requires w.books.rows.Keys <= w'.books.rows.Keys && Names(w.books) <= Names(w'.books)
    ensures NothingImportable(env, w')
  {
    if env.importer {
      forall p | p in YamlFiles(w') ensures Offered(env, w', p).None? {
        assert Offered(env, w, p).None?;
        ImportableAntitone(env, w.repo.files[p], AllTaken(w.books), AllTaken(w'.books));
      }
    }
  }

  lemma KeptKeysImportNothing(env: Env, w: World)
    requires Ready(env, w) && AdoptCustomer(env, w).outcome.Done? && AdoptCustomer(env, w).world.books.rows.Keys == w.books.rows.Keys
    ensures NothingImportable(env, w)
  {
    if !NothingImportable(env, w) {
      var p := SomethingOffered(env, w);
      PassImports(env, w, p);
    }
  }

  lemma KeptNamesImportNothing(env: Env, w: World)
    requires Ready(env, w) && AfterImport(env, w).outcome.Done? && AfterAdopt(env, w).outcome.Done?
    requires KeptNames(w.books, AdoptCustomer(env, w).world.books)
    ensures AfterImport(env, w).world.books == w.books && NothingImportable(env, AdoptCustomer(env, w).world)
  {
    FlagPhase(env, w);
    KeptKeysImportNothing(env, w);
    ImportIdles(env, w);
    AdoptKeepsPaths(env, w);
    var b' := AdoptCustomer(env, w).world.books;
    forall n | n in Names(w.books) ensures n in Names(b') {
      var id :| id in w.books.rows && w.books.rows[id].name == n;
      assert id in b'.rows && b'.rows[id].name == n;
    }
    OffersNoMore(env, w, AdoptCustomer(env, w).world);
  }

  lemma KeptNamesSameList(b: Books, b': Books)
    requires TableOk(b) && TableOk(b') && KeptNames(b, b') && b'.order == b.order
    ensures SameNames(List(b), List(b'))
  {
    forall i | 0 <= i < |List(b)| ensures SameIdAndName(List(b)[i], List(b')[i]) {
      ListedRow(b, List(b)[i]);
      ListedRow(b', List(b')[i]);
    }
  }

  lemma KeptNamesFlagAll(env: Env, w: World)
    requires Ready(env, w) && AfterImport(env, w).outcome.Done? && AfterAdopt(env, w).outcome.Done?
    requires KeptNames(w.books, AdoptCustomer(env, w).world.books)
    ensures NothingForeign(env, AdoptCustomer(env, w).world)
  {
    if env.ageWired && env.wiring.ownership {
      KeptNamesImportNothing(env, w);
      AdoptPhase(env, w);
      FlagPhase(env, w);
      AdoptKeepsPaths(env, w);
      KeptNamesSameList(w.books, AdoptCustomer(env, w).world.books);
      FlaggedBooks(env, w);
      FlagsAreDone(env, w, AfterAdopt(env, w).world.books, AdoptCustomer(env, w).world);
    }
  }

  /** So it does nothing whenever the first pass imported and renamed nothing. */
  lemma SecondPassIdle(env: Env, w: World)
    requires Ready(env, w) && !PassBlocked(env, w)
    requires KeptNames(w.books, AdoptCustomer(env, w).world.books)
    ensures var one := AdoptCustomer(env, w).world;
            AdoptCustomer(env, one).outcome.Done? && Idle(one, AdoptCustomer(env, one).world)
  {
    Completes(env, w);
    KeptNamesImportNothing(env, w);
    KeptNamesFlagAll(env, w);
    SecondPassIdleIff(env, w);
  }

  // ---- What one pass makes of each pipeline ----

  /** The row and bookkeeping of a pipeline after a pass that saw `files`, but for the
      ownership flag. An adopted row holds the file's fields and no credentials. */
  ghost predicate PassOutcome(env: Env, was: Pipeline, def: Option<DefRender>, files: map<Path, Content>, row: Pipeline, def': Option<DefRender>) {
    var keep := was.(credentialsExternal := row.credentialsExternal);
    if !Pending(def, YamlTree(Tree(files))) then row == keep && def' == def
    else
      var c := files[def.value.path];
      if c.Doc? && c.file.id == was.id && c.file.sourceType == was.sourceType && env.valid(was.sourceType, FromFile(was.id, c.file).sourceConfig)
      then
        && row == FromFile(was.id, c.file).(credentialsExternal := row.credentialsExternal)
        && def' == Some(DefRender(def.value.path, ShaOf(c), None))
      else row == keep && def' == Some(def.value.(refused := Some(ShaOf(c))))
  }

  lemma FateIsOutcome(env: Env, id: PipelineID, files: map<Path, Content>, b: Books, i: Books, t: Books, b': Books)
    requires id in b.rows && b.rows[id].id == id && SameRowAt(b, i, id)
    requires Fate(env, b.rows[id].(credentials := None), Lookup(b.defs, id), files, i, t)
    requires RowsKept(t, b') && b'.defs == t.defs
    ensures id in b'.rows && PassOutcome(env, b.rows[id], Lookup(b.defs, id), files, b'.rows[id], Lookup(b'.defs, id))
  {
    assert id in t.rows;
  }

  lemma AdoptFate(env: Env, w: World, id: PipelineID)
    requires Ready(env, w) && AfterImport(env, w).outcome.Done? && AfterAdopt(env, w).outcome.Done? && id in w.books.rows
    ensures SameRowAt(w.books, AfterImport(env, w).world.books, id)
    ensures Fate(env, w.books.rows[id].(credentials := None), Lookup(w.books.defs, id), w.repo.files,
                 AfterImport(env, w).world.books, AfterAdopt(env, w).world.books)
  {
    ImportPhase(env, w);
    var ps, i := List(w.books), AfterImport(env, w).world;
    HydratedSnapshot(w.books, i.books, YamlFiles(w));
    ListHas(w.books, id);
    var k :| 0 <= k < |ps| && ps[k].id == id;
    ListedRow(w.books, ps[k]);
    AdoptDefinitionsAt(env, i, ps, w.books.defs, k);
  }

  /** Every pipeline listed before a pass is left alone, adopted or refused. */
  lemma PassFate(env: Env, w: World, id: PipelineID)
    requires Ready(env, w) && !PassBlocked(env, w) && id in w.books.rows
    ensures var b' := AdoptCustomer(env, w).world.books;
            && id in b'.rows
            && PassOutcome(env, w.books.rows[id], Lookup(w.books.defs, id), w.repo.files, b'.rows[id], Lookup(b'.defs, id))
  {
    Completes(env, w);
    AdoptFate(env, w, id);
    FlagPhase(env, w);
    FateIsOutcome(env, id, w.repo.files, w.books, AfterImport(env, w).world.books, AfterAdopt(env, w).world.books,
                  AdoptCustomer(env, w).world.books);
  }

  /** A pass notifies once per adopted or refused definition, in list order, and then once
      per credential file somebody else committed, in list order. */
  lemma PassNotifiesOnce(env: Env, w: World)
    requires Ready(env, w) && !PassBlocked(env, w)
    ensures var ps, b := List(w.books), w.books;
            AdoptCustomer(env, w).world.books.notes ==
            b.notes + NotesFor(env, ps, b.defs, w.repo.files) +
            if env.ageWired && env.wiring.ownership then FlagNotes(ps, ps, b.creds, AgeFiles(w)) else []
  {
    Completes(env, w);
    ImportPhase(env, w);
    AdoptPhase(env, w);
    var t, ps := AfterAdopt(env, w).world, List(w.books);
    RowsOfList(w.books, t.books);
    FlagForeignNotes(t.books, ps, ps, t.books.creds, AgeFiles(w));
  }

  /** The credential file of pipeline id is tracked, and not the blob recorded for it. */
  ghost predicate CommittedOver(w: World, id: PipelineID)
    requires id in w.books.rows
  {
    var x := CredentialPath(FileSlug(List(w.books), w.books.rows[id]));
    id in w.books.creds && x in w.repo.files && ShaOf(w.repo.files[x]) != w.books.creds[id].blob
  }

  lemma ForeignIff(w: World, id: PipelineID)
    requires TableOk(w.books) && id in w.books.rows
    ensures var ps := List(w.books);
            (exists i :: 0 <= i < |ps| && ps[i].id == id && ForeignFile(ps, ps[i], w.books.creds, AgeFiles(w)))
            <==> !w.books.rows[id].credentialsExternal && CommittedOver(w, id)
  {
    var ps := List(w.books);
    ListHas(w.books, id);
    var k :| 0 <= k < |ps| && ps[k].id == id;
    forall i | 0 <= i < |ps| && ps[i].id == id
      ensures ForeignFile(ps, ps[i], w.books.creds, AgeFiles(w)) <==> !w.books.rows[id].credentialsExternal && CommittedOver(w, id)
    {
      ListedRow(w.books, ps[i]);
      SlugByName(ps, ps, ps[i], w.books.rows[id]);
      PathShapes(FileSlug(ps, ps[i]));
    }
  }

  /** A pass that is not blocked hands a pipeline to the box if and only if somebody else
      committed its credential file, and never takes one back. */
  lemma PassFlagsIff(env: Env, w: World, id: PipelineID)
    requires Ready(env, w) && !PassBlocked(env, w) && id in w.books.rows
    ensures var b' := AdoptCustomer(env, w).world.books;
            && id in b'.rows
            && (b'.rows[id].credentialsExternal <==>
                  w.books.rows[id].credentialsExternal || (env.ageWired && env.wiring.ownership && CommittedOver(w, id)))
  {
    Completes(env, w);
    ImportPhase(env, w);
    AdoptPhase(env, w);
    var i, t, ps := AfterImport(env, w).world, AfterAdopt(env, w).world, List(w.books);
    assert SameRowAt(w.books, i.books, id);
    AdoptionKeepsFlag(env, i, ps, w.books.defs, YamlFiles(w), id);
    if env.ageWired && env.wiring.ownership {
      FlaggedBooks(env, w);
      FlagForeignRaises(t.books, ps, ps, t.books.creds, AgeFiles(w), id);
      ForeignIff(w, id);
    }
  }

  // ---- The second pass can have work to do ----

  /** Pipeline a is tracked at x as `name`; the repository renames it, and holds at z an
      untracked file for b, with config `offered`, that goes by a's old name. */
  datatype Swap = Swap(a: PipelineID, b: PipelineID, x: Path, z: Path, name: string, newName: string, t: string,
                       config: map<string, Json>, offered: map<string, Json>)

  ghost predicate Possible(env: Env, c: Swap) {
    && env.wiring.drift && env.importer && c.config != map[]
    && env.valid(c.t, Some(Obj(c.config))) && env.valid(c.t, FromFile(c.b, PlainFile(c.b, c.name, c.t, c.offered).file).sourceConfig)
    && c.a != c.b && StandardUuid(c.b) && c.x != c.z && IsDefinitionPath(c.x) && IsDefinitionPath(c.z)
    && c.name != c.newName && c.name != "" && c.t != FILESYSTEM
  }

  function FreedName(c: Swap): World {
    World(Repo(map[c.x := PlainFile(c.a, c.newName, c.t, c.config), c.z := PlainFile(c.b, c.name, c.t, c.offered)], [], [], {}, true),
          Books(map[c.a := PlainRow(c.a, c.name, c.t, c.config)], [c.a],
                map[c.a := DefRender(c.x, OLD_RENDER, None)], map[], [], 0))
  }

  lemma FreedNameReady(env: Env, c: Swap)
    requires Possible(env, c)
    ensures var w := FreedName(c);
            && Ready(env, w) && NothingImportable(env, w) && List(w.books) == [w.books.rows[c.a]]
            && Pending(Lookup(w.books.defs, c.a), YamlFiles(w))
  {
    var w := FreedName(c);
    assert w.books.rows[c.a].name in Names(w.books);
    assert c.x in TrackedPaths(w.books.defs) by { assert w.books.defs[c.a].path == c.x; }
  }

  lemma FreedNameCompletes(env: Env, c: Swap)
    requires Possible(env, c)
    ensures !PassBlocked(env, FreedName(c))
  {
    var w := FreedName(c);
    FreedNameReady(env, c);
    ImportPhase(env, w);
    ImportedNamesAre(env, w);
    assert Adopted(env, w, 0).Some? ==> Adopted(env, w, 0).value.sourceConfig == Some(Obj(c.config));
  }

  lemma FreedNameFate(env: Env, c: Swap)
    requires Possible(env, c)
    ensures var w := FreedName(c);
            && AfterImport(env, w).world.books == w.books
            && Fate(env, w.books.rows[c.a], Lookup(w.books.defs, c.a), w.repo.files, w.books, AfterAdopt(env, w).world.books)
            && AfterAdopt(env, w).world.books.rows.Keys == {c.a}
  {
    var w := FreedName(c);
    FreedNameReady(env, c);
    FreedNameCompletes(env, c);
    Completes(env, w);
    ImportPhase(env, w);
    AdoptPhase(env, w);
    HydratedSnapshot(w.books, AfterImport(env, w).world.books, YamlFiles(w));
    AdoptDefinitionsAt(env, AfterImport(env, w).world, List(w.books), w.books.defs, 0);
  }

  lemma FreedNameFirst(env: Env, c: Swap)
    requires Possible(env, c)
    ensures var one := AfterAdopt(env, FreedName(c)).world.books;
            && one.rows.Keys == {c.a} && one.rows[c.a].name == c.newName && one.defs.Keys == {c.a} && one.defs[c.a].path == c.x
  {
    FreedNameReady(env, c);
    FreedNameFate(env, c);
    AdoptPhase(env, FreedName(c));
  }

  lemma FreedNameOffered(env: Env, c: Swap, one: World)
    requires Possible(env, c) && one.repo.files == FreedName(c).repo.files
    requires one.books.rows.Keys == {c.a} && one.books.rows[c.a].name == c.newName
    requires one.books.defs.Keys == {c.a} && one.books.defs[c.a].path == c.x
    ensures FirstOffered(env, one, c.z) && (Storable(Offered(env, one, c.z).value) <==> c.offered != map[])
  {
    assert one.books.defs[c.a].path in TrackedPaths(one.books.defs);
    assert c.z in YamlFiles(one) && c.z !in TrackedPaths(one.books.defs);
    assert c.name !in Names(one.books);
    LexTotal(c.z, c.z);
  }

  /** The first pass must skip b, whose name is taken; adopting the rename frees the name,
      and the second pass has a file to import: it gains a row, or stalls when that file
      has no config. */
  lemma SecondPassMayImport(env: Env, c: Swap)
    requires Possible(env, c)
    ensures var one := AdoptCustomer(env, FreedName(c));
            var two := AdoptCustomer(env, one.world);
            && Ready(env, FreedName(c)) && one.outcome.Done?
            && (if c.offered != map[] then one.world.books.rows.Keys < two.world.books.rows.Keys
                else two.outcome == Failed(NotStorable))
  {
    var w := FreedName(c);
    FreedNameReady(env, c);
    FreedNameCompletes(env, c);
    Completes(env, w);
    FreedNameFirst(env, c);
    FlagPhase(env, w);
    FreedNameOffered(env, c, AdoptCustomer(env, w).world);
    PassImports(env, AdoptCustomer(env, w).world, c.z);
  }
}
