/** Console credential saves and the box's credential file: what a save that fails has
    already taken back, what the next sync then does, and the whole ownership cycle. */
module Reclaiming {
  import opened Basics
  import opened Domain
  import opened GitRepo
  import opened Mirror
  import opened Sync
  import opened Adopt
  import opened Convergence
  import opened Syncing
  import opened Runs
  import opened Ownership
  import opened Saves

  // ---- A sync over a pipeline it has no credential row for, under any schedule ----

  /** The recorded blob is an encryption of what its fingerprint says. */
  ghost predicate Truthful(b: Books, id: PipelineID) {
    id in b.creds ==>
      var row := b.creds[id];
      var blob := BlobOf(row.blob);
      blob.Age? && Fingerprint(blob.recipient, blob.plaintext) == row.fingerprint
  }

  /** The flag of id is as it was, and its credential row no less truthful. */
  ghost predicate FlagKept(b: Books, b': Books, id: PipelineID) {
    (IsExternal(b', id) <==> IsExternal(b, id)) && (Truthful(b, id) ==> Truthful(b', id))
  }

  lemma UpsertFileKeepsFlag(cfg: Wiring, w: World, path: Path, df: DefinitionFile, existing: map<Path, Sha>, defRows: map<PipelineID, DefRender>,
                            id: PipelineID)
    ensures FlagKept(w.books, UpsertFile(cfg, w, path, df, existing, defRows).world.books, id)
  {
  }

  lemma {:induction false} UpsertFilesKeepFlag(cfg: Wiring, w: World, paths: seq<Path>, plan: Plan, existing: map<Path, Sha>, id: PipelineID)
    requires forall p :: p in paths ==> p in plan.desired
    ensures FlagKept(w.books, UpsertFiles(cfg, w, paths, plan, existing).world.books, id)
    decreases |paths|
  {
    if paths != [] {
      UpsertFileKeepsFlag(cfg, w, paths[0], plan.desired[paths[0]], existing, plan.defRows, id);
      var s := UpsertFile(cfg, w, paths[0], plan.desired[paths[0]], existing, plan.defRows);
      if s.outcome.Done? { UpsertFilesKeepFlag(cfg, s.world, paths[1..], plan, existing, id); }
    }
  }

  /** A file without a credential row is never found foreign. */
  lemma UpsertCredentialKeepsFlag(cfg: Wiring, w: World, path: Path, cf: CredentialFile, recipient: string,
                                  credRows: map<PipelineID, CredRender>, existing: map<Path, Sha>, id: PipelineID)
    requires id !in credRows
    ensures FlagKept(w.books, UpsertCredentialFile(cfg, w, path, cf, recipient, credRows, existing).world.books, id)
  {
  }

  lemma {:induction false} UpsertCredentialsKeepFlag(cfg: Wiring, w: World, paths: seq<Path>, files: map<Path, CredentialFile>, plan: Plan,
                                                     existing: map<Path, Sha>, id: PipelineID)
    requires id !in plan.credRows && forall p :: p in paths ==> p in files
    ensures FlagKept(w.books, UpsertCredentialFiles(cfg, w, paths, files, plan, existing).world.books, id)
    decreases |paths|
  {
    if paths != [] {
      UpsertCredentialKeepsFlag(cfg, w, paths[0], files[paths[0]], plan.recipient, plan.credRows, existing, id);
      var s := UpsertCredentialFile(cfg, w, paths[0], files[paths[0]], plan.recipient, plan.credRows, existing);
      if s.outcome.Done? { UpsertCredentialsKeepFlag(cfg, s.world, paths[1..], files, plan, existing, id); }
    }
  }

  lemma DefinitionsKeepFlag(cfg: Wiring, w: World, plan: Plan, yaml: map<Path, Sha>, id: PipelineID)
    ensures FlagKept(w.books, ConvergeDefinitions(cfg, w, plan, yaml).world.books, id)
  {
    SortedEnumerates(plan.desired.Keys);
    SortedEnumerates(yaml.Keys);
    UpsertFilesKeepFlag(cfg, w, Sorted(plan.desired.Keys), plan, yaml, id);
    DeletesKeepBooks(UpsertFiles(cfg, w, Sorted(plan.desired.Keys), plan, yaml).world, Sorted(yaml.Keys), yaml, plan.desired.Keys);
  }

  lemma CredentialsKeepFlag(cfg: Wiring, w: World, files: map<Path, CredentialFile>, plan: Plan, age: map<Path, Sha>, id: PipelineID)
    requires id !in plan.credRows
    ensures FlagKept(w.books, ConvergeCredentials(cfg, w, files, plan, age).world.books, id)
  {
    SortedEnumerates(files.Keys);
    SortedEnumerates(age.Keys);
    UpsertCredentialsKeepFlag(cfg, w, Sorted(files.Keys), files, plan, age, id);
    DeletesKeepBooks(UpsertCredentialFiles(cfg, w, Sorted(files.Keys), files, plan, age).world, Sorted(age.Keys), age, files.Keys);
  }

  lemma ConvergeKeepsFlag(cfg: Wiring, w: World, plan: Plan, id: PipelineID)
    requires id !in plan.credRows
    ensures FlagKept(w.books, Converge(cfg, w, plan).world.books, id)
  {
    var listed := ListTree(w.repo);
    if listed.result.Ok? {
      var tree, start := listed.result.value, World(listed.repo, w.books);
      DefinitionsKeepFlag(cfg, start, plan, YamlTree(tree), id);
      var s := ConvergeDefinitions(cfg, start, plan, YamlTree(tree));
      if plan.credentials.Some? { CredentialsKeepFlag(cfg, s.world, plan.credentials.value, plan, AgeTree(tree), id); }
    }
  }

  lemma SyncKeepsFlag(env: Env, w: World, id: PipelineID)
    requires id !in w.books.creds
    ensures FlagKept(w.books, SyncCustomer(env, w).world.books, id)
  {
    var ps := Rendered(env, w.books);
    if Renderable(ps) {
      var plan := MakePlan(env, w.books, ps);
      ConvergeKeepsFlag(env.wiring, w, plan, id);
      ConvergeKeepsFlag(env.wiring, Converge(env.wiring, w, plan).world, plan, id);
    }
  }

  // ---- What a failed save does not undo ----

  /** An accepted update takes the file back exactly when it touches credentials and
      ownership is kept at all; then, and only then, the credential row goes. */
  lemma UpdatedOwnership(env: Env, b: Books, p: Pipeline, clear: bool)
    requires Accepted(env, b, p, clear)
    ensures var u, back := UpdatedBooks(env, b, p, clear).value, IsExternal(b, p.id) && TouchesCredentials(p, clear) && env.wiring.ownership;
            && (IsExternal(u, p.id) <==> IsExternal(b, p.id) && !back)
            && u.creds == if back then b.creds - {p.id} else b.creds
  {
  }

  lemma UpdateKeepsOwnership(b: Books, p: Pipeline)
    requires UpdateRow(b, p).Ok?
    ensures FlagKept(b, UpdateRow(b, p).value, p.id)
  {
  }

  /** The failed update is a sync on the new rows and the compensating write. */
  lemma FailedUpdateUndo(env: Env, w: World, p: Pipeline, clear: bool)
    requires TableOk(w.books) && Accepted(env, w.books, p, clear) && UpdatePipeline(env, w, p, clear).outcome.Failed?
    ensures var s := SyncCustomer(env, World(w.repo, UpdatedBooks(env, w.books, p, clear).value)).world.books;
            && UpdateRow(s, w.books.rows[p.id]).Ok?
            && UpdatePipeline(env, w, p, clear).world.books == UpdateRow(s, w.books.rows[p.id]).value
  {
    var u := UpdatedBooks(env, w.books, p, clear).value;
    UpdateChangesOneRow(env, w.books, p, clear);
    SyncEvolves(env, World(w.repo, u));
    UndoRestores(w.books, u, SyncCustomer(env, World(w.repo, u)).world.books, p.id);
  }

  lemma RaisedStays(b: Books, b': Books, id: PipelineID)
    requires RowsKept(b, b') && IsExternal(b, id)
    ensures IsExternal(b', id)
  {
  }

  /** After whatever part of the converge went through, a failed update of a pipeline whose
      file the box owned leaves it owned by the box if and only if the save was refused or
      left credentials alone: a save that got as far as its row has taken the file back, and
      the compensation does not return it. */
  lemma FailedUpdateOwnership(env: Env, w: World, p: Pipeline, clear: bool)
    requires TableOk(w.books) && env.wiring.ownership && IsExternal(w.books, p.id) && UpdatePipeline(env, w, p, clear).outcome.Failed?
    ensures var b' := UpdatePipeline(env, w, p, clear).world.books;
            && (IsExternal(b', p.id) <==> !(Accepted(env, w.books, p, clear) && TouchesCredentials(p, clear)))
            && (!IsExternal(b', p.id) ==> Truthful(b', p.id))
  {
    if Accepted(env, w.books, p, clear) {
      var u := UpdatedBooks(env, w.books, p, clear).value;
      var s := SyncCustomer(env, World(w.repo, u)).world.books;
      UpdatedOwnership(env, w.books, p, clear);
      FailedUpdateUndo(env, w, p, clear);
      UpdateKeepsOwnership(s, w.books.rows[p.id]);
      if TouchesCredentials(p, clear) {
        SyncKeepsFlag(env, World(w.repo, u), p.id);
      } else {
        SyncEvolves(env, World(w.repo, u));
        RaisedStays(u, s, p.id);
      }
    }
  }

  // ---- What a sync makes of a file the Console owns ----

  /** Whether the plan leaves a file that is not external alone. */
  lemma KeepsIff(cfg: Wiring, cf: CredentialFile, plan: Plan, b: Books, tree: Option<Sha>)
    requires cfg.ownership && !cf.external && plan.credRows == b.creds && Truthful(b, cf.id)
    ensures var held := tree.Some? && cf.id in b.creds && tree.value != b.creds[cf.id].blob;
            && HandsOver(cfg, cf, plan, tree) == held
            && (Keeps(cfg, cf, plan, tree) && !held ==> tree.Some? && Encrypts(Some(BlobOf(tree.value)), plan, cf))
            && (held ==> Keeps(cfg, cf, plan, tree))
  {
  }

  lemma ConvergeOwned(cfg: Wiring, w: World, plan: Plan, x: Path)
    requires Quiet(w.repo) && WellPlanned(plan) && cfg.ownership && IsCredentialPath(x) && plan.credentials.Some? && plan.credRows == w.books.creds
    requires x in plan.credentials.value ==>
               var cf := plan.credentials.value[x]; !cf.external && cf.id in w.books.rows && Truthful(w.books, cf.id)
    ensures var s := Converge(cfg, w, plan);
            && s.outcome.Done?
            && (if x !in plan.credentials.value then x !in s.world.repo.files
                else
                  var cf := plan.credentials.value[x];
                  if HeldByBox(w, cf.id, x) then Lookup(s.world.repo.files, x) == Lookup(w.repo.files, x) && IsExternal(s.world.books, cf.id)
                  else Encrypts(Lookup(s.world.repo.files, x), plan, cf))
  {
    ConvergeReachesPlan(cfg, w, plan);
    ConvergeKeepsBooks(cfg, w, plan);
    if x in plan.credentials.value { KeepsIff(cfg, plan.credentials.value[x], plan, w.books, Lookup(Tree(w.repo.files), x)); }
  }

  /** One undisturbed sync on a pipeline the Console owns: without a credential the file
      goes; a commit the mirror did not make hands it to the box; and otherwise the file is
      an encryption of the credential. */
  lemma SyncOwned(env: Env, w: World, id: PipelineID, x: Path) returns (r: Pipeline)
    requires Quiet(w.repo) && TableOk(w.books) && AgeReady(env) && Renderable(Rendered(env, w.books))
    requires OwnedAt(env, w.books, id, x) && !IsExternal(w.books, id) && Truthful(w.books, id)
    ensures r in Rendered(env, w.books) && r.id == id
    ensures var s, c := SyncCustomer(env, w), CredentialOf(w.books, r);
            && s.outcome.Done?
            && (if IsEmptyJson(c) then x !in s.world.repo.files
                else if HeldByBox(w, id, x) then Lookup(s.world.repo.files, x) == Lookup(w.repo.files, x) && IsExternal(s.world.books, id)
                else CarriesCredential(env, s.world.repo.files, x, r.sourceType, c.value))
  {
    r := OwnerPlanned(env, w.books, id, x);
    SyncIsOneConverge(env, w);
    ConvergeOwned(env.wiring, w, MakePlan(env, w.books, Rendered(env, w.books)), x);
  }

  /** The file at x is encrypted to the box and holds the credential as it is served. */
  ghost predicate CarriesCredential(env: Env, files: map<Path, Content>, x: Path, sourceType: string, c: Json)
    requires env.ageKey.Some?
  {
    && x in files && files[x].Age? && files[x].recipient == env.ageKey.value
    && files[x].plaintext == env.serve(sourceType, c)
  }

  /** So after any failed update that touched credentials, even one that had already written
      the new ciphertext and its row, the next undisturbed sync from any repository puts the
      credential from before the save in the box's file (storage credentials for an upload),
      or deletes the file if there was none; only a commit over what the failed save wrote
      hands it back. */
  lemma FailedUpdateTakesFile(env: Env, w: World, p: Pipeline, clear: bool, r: Repo, x: Path) returns (q: Pipeline)
    requires TableOk(w.books) && AgeReady(env) && IsExternal(w.books, p.id) && Quiet(r)
    requires Accepted(env, w.books, p, clear) && TouchesCredentials(p, clear) && UpdatePipeline(env, w, p, clear).outcome.Failed?
    requires var b' := UpdatePipeline(env, w, p, clear).world.books;
             Renderable(Rendered(env, b')) && OwnedAt(env, b', p.id, x)
    ensures q in Rendered(env, UpdatePipeline(env, w, p, clear).world.books) && q.id == p.id
    ensures var start := World(r, UpdatePipeline(env, w, p, clear).world.books);
            var s, c := SyncCustomer(env, start), if q.credentials.Some? then q.credentials else w.books.rows[p.id].credentials;
            && s.outcome.Done?
            && (if IsEmptyJson(c) then x !in s.world.repo.files
                else if HeldByBox(start, p.id, x) then Lookup(s.world.repo.files, x) == Lookup(r.files, x) && IsExternal(s.world.books, p.id)
                else CarriesCredential(env, s.world.repo.files, x, q.sourceType, c.value))
  {
    var start := World(r, UpdatePipeline(env, w, p, clear).world.books);
    FailedUpdateOwnership(env, w, p, clear);
    FailedUpdateRestoresRows(env, w, p, clear);
    FailedSaveKeepsTable(env, w, Update(p, clear));
    assert SameExceptFlag(w.books, start.books, p.id);
    q := SyncOwned(env, start, p.id, x);
  }

  // ---- What a save leaves in the file ----

  /** Undisturbed, an update of a pipeline whose file the Console owns: the file carries the
      credential the row is left with, or is gone without one, unless somebody else had
      committed to it, which hands it to the box whatever was sent. */
  lemma OwnedFileSaved(env: Env, w: World, p: Pipeline, clear: bool, x: Path) returns (r: Pipeline)
    requires Quiet(w.repo) && TableOk(w.books) && AgeReady(env) && Accepted(env, w.books, p, clear)
    requires !IsExternal(w.books, p.id) && Truthful(w.books, p.id)
    requires var u := UpdatedBooks(env, w.books, p, clear).value; Renderable(Rendered(env, u)) && OwnedAt(env, u, p.id, x)
    ensures r in Rendered(env, UpdatedBooks(env, w.books, p, clear).value) && r.id == p.id
    ensures var s, left := UpdatePipeline(env, w, p, clear),
                           if clear then None else if IsEmptyJson(p.credentials) then w.books.rows[p.id].credentials else p.credentials;
            var c := if r.credentials.Some? then r.credentials else left;
            && s.outcome.Done?
            && (if IsEmptyJson(c) then x !in s.world.repo.files
                else if HeldByBox(w, p.id, x) then Lookup(s.world.repo.files, x) == Lookup(w.repo.files, x) && IsExternal(s.world.books, p.id)
                else CarriesCredential(env, s.world.repo.files, x, r.sourceType, c.value))
  {
    var u := UpdatedBooks(env, w.books, p, clear).value;
    UpdateTableOk(env, w.books, p, clear);
    UpdatedOwnership(env, w.books, p, clear);
    UpdatedRow(env, w.books, p, clear);
    SyncIsOneConverge(env, World(w.repo, u));
    r := SyncOwned(env, World(w.repo, u), p.id, x);
  }

  /** Undisturbed, an update that sends no credential leaves a file of the Console's carrying
      the credential from before it, and a file of the box's as it is and the box's. */
  lemma UntouchedCredentialStays(env: Env, w: World, p: Pipeline, x: Path) returns (r: Pipeline)
    requires Quiet(w.repo) && TableOk(w.books) && AgeReady(env) && Accepted(env, w.books, p, false) && IsEmptyJson(p.credentials)
    requires var u := UpdatedBooks(env, w.books, p, false).value; Renderable(Rendered(env, u)) && OwnedAt(env, u, p.id, x)
    requires Truthful(w.books, p.id)
    ensures r in Rendered(env, UpdatedBooks(env, w.books, p, false).value) && r.id == p.id
    ensures var s, c := UpdatePipeline(env, w, p, false), if r.credentials.Some? then r.credentials else w.books.rows[p.id].credentials;
            && s.outcome.Done?
            && (if IsExternal(w.books, p.id) then
                  Unwritten(w.repo.history, s.world.repo.history, x) && Lookup(s.world.repo.files, x) == Lookup(w.repo.files, x)
                  && IsExternal(s.world.books, p.id)
                else if IsEmptyJson(c) then x !in s.world.repo.files
                else if HeldByBox(w, p.id, x) then Lookup(s.world.repo.files, x) == Lookup(w.repo.files, x) && IsExternal(s.world.books, p.id)
                else CarriesCredential(env, s.world.repo.files, x, r.sourceType, c.value))
  {
    var u := UpdatedBooks(env, w.books, p, false).value;
    if IsExternal(w.books, p.id) {
      UpdateTableOk(env, w.books, p, false);
      UpdatedOwnership(env, w.books, p, false);
      SyncIsOneConverge(env, World(w.repo, u));
      r := OwnerPlanned(env, u, p.id, x);
      SyncLeavesExternal(env, World(w.repo, u), p.id, x);
      ExternalUntouched(env, World(w.repo, u), p.id, x);
    } else {
      r := OwnedFileSaved(env, w, p, false, x);
    }
  }

  lemma ExternalUntouched(env: Env, w: World, id: PipelineID, x: Path)
    requires Quiet(w.repo) && TableOk(w.books) && AgeReady(env) && Renderable(Rendered(env, w.books))
    requires OwnedAt(env, w.books, id, x) && IsExternal(w.books, id)
    ensures Lookup(SyncCustomer(env, w).world.repo.files, x) == Lookup(w.repo.files, x)
  {
    var r := OwnerPlanned(env, w.books, id, x);
    var plan := MakePlan(env, w.books, Rendered(env, w.books));
    SyncIsOneConverge(env, w);
    ConvergeReachesPlan(env.wiring, w, plan);
  }

  // ---- The whole cycle ----

  lemma {:induction false} RunKeepsTable(env: Env, w: World, ops: seq<Op>)
    requires TablesOk(w, ops)
    ensures TableOk(Run(env, w, ops).books)
    decreases |ops|
  {
    if ops != [] {
      TablesStayOk(env, w, ops);
      RunKeepsTable(env, Perform(env, w, ops[0]), ops[1..]);
    }
  }

  /** A credential save over a file the box owns ends well and puts what was saved there. */
  lemma SaveTakesBack(env: Env, w: World, p: Pipeline, clear: bool, x: Path) returns (r: Pipeline)
    requires Quiet(w.repo) && TableOk(w.books) && AgeReady(env) && IsExternal(w.books, p.id)
    requires Accepted(env, w.books, p, clear) && TouchesCredentials(p, clear)
    requires var u := UpdatedBooks(env, w.books, p, clear).value; Renderable(Rendered(env, u)) && OwnedAt(env, u, p.id, x)
    ensures r in Rendered(env, UpdatedBooks(env, w.books, p, clear).value) && r.id == p.id
    ensures var s, c := UpdatePipeline(env, w, p, clear),
                        if r.credentials.Some? then r.credentials else if clear then None else p.credentials;
            && s.outcome.Done? && !IsExternal(s.world.books, p.id)
            && (if IsEmptyJson(c) then x !in s.world.repo.files
                else CarriesCredential(env, s.world.repo.files, x, r.sourceType, c.value))
  {
    var u := UpdatedBooks(env, w.books, p, clear).value;
    UpdateTableOk(env, w.books, p, clear);
    UpdatedOwnership(env, w.books, p, clear);
    SyncKeepsFlag(env, World(w.repo, u), p.id);
    r := SyncOwned(env, World(w.repo, u), p.id, x);
    UpdatedCredential(env, w.books, p, clear, r);
    assert UpdatePipeline(env, w, p, clear) == SyncCustomer(env, World(w.repo, u));
  }

  lemma UpdatedCredential(env: Env, b: Books, p: Pipeline, clear: bool, r: Pipeline)
    requires Accepted(env, b, p, clear) && TouchesCredentials(p, clear) && r.id == p.id
    ensures CredentialOf(UpdatedBooks(env, b, p, clear).value, r) ==
            if r.credentials.Some? then r.credentials else if clear then None else p.credentials
  {
  }

  /** The whole cycle: a foreign commit over a tracked file is handed over by the next sync;
      no run without a reclaim writes the file, whatever others commit meanwhile; and a
      Console save of credentials on the rows the run ends with puts them in the file, or
      deletes the file if it cleared them. */
  lemma OwnershipCycle(env: Env, w: World, schedule: seq<Turn>, ops: seq<Op>, p: Pipeline, clear: bool, x: Path) returns (r: Pipeline)
    requires Quiet(w.repo) && TableOk(w.books) && AgeReady(env) && Renderable(Rendered(env, w.books))
    requires OwnedAt(env, w.books, p.id, x) && HasCredential(env, w.books, p.id) && HeldByBox(w, p.id, x)
    requires var start := HandedOver(env, w, schedule);
             var end := Run(env, start, ops);
             && TablesOk(start, ops) && NeverReclaimed(env, start, ops, p.id, x) && Quiet(end.repo)
             && Accepted(env, end.books, p, clear) && TouchesCredentials(p, clear)
             && var u := UpdatedBooks(env, end.books, p, clear).value; Renderable(Rendered(env, u)) && OwnedAt(env, u, p.id, x)
    ensures var start := HandedOver(env, w, schedule);
            var end := Run(env, start, ops);
            var back := UpdatePipeline(env, end, p, clear);
            var c := if r.credentials.Some? then r.credentials else if clear then None else p.credentials;
            && Lookup(start.repo.files, x) == Lookup(w.repo.files, x) && IsExternal(start.books, p.id)
            && Unwritten(start.repo.history, end.repo.history, x) && IsExternal(end.books, p.id)
            && r in Rendered(env, UpdatedBooks(env, end.books, p, clear).value) && r.id == p.id
            && back.outcome.Done? && !IsExternal(back.world.books, p.id)
            && (if IsEmptyJson(c) then x !in back.world.repo.files
                else CarriesCredential(env, back.world.repo.files, x, r.sourceType, c.value))
  {
    var start := HandedOver(env, w, schedule);
    SyncHandsOver(env, w, p.id, x);
    ExternalStaysUnwritten(env, start, ops, p.id, x);
    RunKeepsTable(env, start, ops);
    r := SaveTakesBack(env, Run(env, start, ops), p, clear, x);
  }

  /** The world after the sync that hands the file over, with a new schedule ahead. */
  ghost function HandedOver(env: Env, w: World, schedule: seq<Turn>): World {
    var one := SyncCustomer(env, w).world;
    World(one.repo.(schedule := schedule), one.books)
  }
}
