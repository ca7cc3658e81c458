/** Console saves (workspace/pipeline.go): write the row, converge the repository on the
    request path, and compensate the row when the converge fails. */
module Saves {
  import opened Basics
  import opened Domain
  import opened GitRepo
  import opened Mirror
  import opened Sync
  import opened Adopt
  import opened Convergence
  import opened Syncing
  import opened Adopting
  import opened Ownership

  // ---- Rows ----

  /** CreatePipeline's row write: enabled, owned by the Console, "append" by default. */
  function CreateRow(b: Books, p: Pipeline): Result<Books> {
    if p.sourceConfig.None? then Err(NotStorable)
    else if p.id in b.rows || !NameFree(b, p) then Err(NameTaken)
    else
      var row := p.(enabled := true, credentialsExternal := false,
                    writeDisposition := if p.writeDisposition == "" then "append" else p.writeDisposition);
      Ok(b.(rows := b.rows[p.id := row], order := b.order + [p.id]))
  }

  function Without(order: seq<PipelineID>, id: PipelineID): seq<PipelineID> {
    if order == [] then []
    else
      var front, last := Without(order[..|order| - 1], id), order[|order| - 1];
      if last == id then front else front + [last]
  }

  /** DeletePipeline: render rows go with the row. */
  function DeleteRow(b: Books, id: PipelineID): Books {
    b.(rows := b.rows - {id}, order := Without(b.order, id), defs := b.defs - {id}, creds := b.creds - {id})
  }

  // ---- Saves ----

  /** commitOrCompensate after a create: a failed converge deletes the new row. */
  function FinishCreate(s: Step, id: PipelineID): Step {
    if s.outcome.Done? then s else Step(World(s.world.repo, DeleteRow(s.world.books, id)), s.outcome)
  }

  /** commitOrCompensate after an update: a failed converge writes the old row back. */
  function FinishUpdate(s: Step, existing: Pipeline): Step {
    if s.outcome.Done? then s
    else
      var undone := UpdateRow(s.world.books, existing);
      Step(World(s.world.repo, if undone.Ok? then undone.value else s.world.books), s.outcome)
  }

  ghost function CreatePipeline(env: Env, w: World, p: Pipeline): Step {
    if !env.valid(p.sourceType, p.sourceConfig) then Step(w, Failed(Invalid))
    else
      var created := CreateRow(w.books, p);
      if created.Err? then Step(w, Failed(created.error))
      else
        FinishCreate(SyncCustomer(env, World(w.repo, created.value)), p.id)
  }

  /** resolveUpdateCredentials: cleared, kept, or the new ones. */
  function SavedCredentials(p: Pipeline, existing: Pipeline, clear: bool): RawJson {
    if clear then None else if IsEmptyJson(p.credentials) then existing.credentials else p.credentials
  }

  predicate TouchesCredentials(p: Pipeline, clear: bool) {
    clear || !IsEmptyJson(p.credentials)
  }

  /** The rows an update converges from. */
  function UpdatedBooks(env: Env, b: Books, p: Pipeline, clear: bool): Result<Books>
    requires p.id in b.rows
  {
    var existing := b.rows[p.id];
    var updated := UpdateRow(b, p.(credentials := SavedCredentials(p, existing, clear)));
    if updated.Ok? && TouchesCredentials(p, clear) && existing.credentialsExternal
    then Ok(Reclaim(env, updated.value, p.id)) else updated
  }

  ghost function UpdatePipeline(env: Env, w: World, p: Pipeline, clear: bool): Step {
    if clear && !IsEmptyJson(p.credentials) then Step(w, Failed(Invalid))
    else if p.id !in w.books.rows then Step(w, Failed(NotFound))
    else if !env.valid(p.sourceType, p.sourceConfig) then Step(w, Failed(Invalid))
    else
      var updated := UpdatedBooks(env, w.books, p, clear);
      if updated.Err? then Step(w, Failed(updated.error))
      else
        FinishUpdate(SyncCustomer(env, World(w.repo, updated.value)), w.books.rows[p.id])
  }

  /** The save passed its checks and wrote the row. */
  ghost predicate Accepted(env: Env, b: Books, p: Pipeline, clear: bool) {
    && p.id in b.rows && (clear ==> IsEmptyJson(p.credentials)) && env.valid(p.sourceType, p.sourceConfig)
    && UpdatedBooks(env, b, p, clear).Ok?
  }

  datatype Change = Create(p: Pipeline) | Update(p: Pipeline, clear: bool)

  ghost function Save(env: Env, w: World, c: Change): Step {
    match c
    case Create(p) => CreatePipeline(env, w, p)
    case Update(p, clear) => UpdatePipeline(env, w, p, clear)
  }

  // ---- The table constraints hold when the converge starts ----

  lemma ReclaimTableOk(env: Env, b: Books, id: PipelineID)
    requires TableOk(b)
    ensures TableOk(Reclaim(env, b, id))
  {
  }

  lemma UpdateTableOk(env: Env, b: Books, p: Pipeline, clear: bool)
    requires TableOk(b) && p.id in b.rows && UpdatedBooks(env, b, p, clear).Ok?
    ensures TableOk(UpdatedBooks(env, b, p, clear).value)
  {
    var row := p.(credentials := SavedCredentials(p, b.rows[p.id], clear));
    UpdateKeepsTable(b, row);
    ReclaimTableOk(env, Adopt.UpdateRow(b, row).value, p.id);
  }

  lemma CreateTableOk(b: Books, p: Pipeline)
    requires TableOk(b) && CreateRow(b, p).Ok?
    ensures TableOk(CreateRow(b, p).value)
  {
    assert p.id !in b.order;
  }

  // ---- A failed save leaves the rows as they were ----

  ghost predicate SameExceptFlag(b: Books, b': Books, id: PipelineID) {
    id in b.rows && id in b'.rows && b'.rows[id] == b.rows[id].(credentialsExternal := b'.rows[id].credentialsExternal)
  }

  /** The same rows on every column an update writes; ownership flags may differ. */
  ghost predicate RowsRestored(b: Books, b': Books) {
    && b'.order == b.order && b'.rows.Keys == b.rows.Keys
    && (forall id :: id in b.rows ==> SameExceptFlag(b, b', id))
  }

  lemma {:induction false} WithoutAbsent(order: seq<PipelineID>, id: PipelineID)
    requires id !in order
    ensures Without(order, id) == order
  {
    if order != [] { WithoutAbsent(order[..|order| - 1], id); }
  }

  lemma DroppedRow(b: Books, u: Books, s: Books, id: PipelineID)
    requires TableOk(b) && id !in b.rows && RowsKept(u, s)
    requires u.order == b.order + [id] && u.rows.Keys == b.rows.Keys + {id}
    requires forall k :: k in b.rows ==> Lookup(u.rows, k) == Lookup(b.rows, k)
    ensures RowsRestored(b, DeleteRow(s, id))
  {
    assert id !in b.order;
    WithoutAbsent(b.order, id);
    assert (b.order + [id])[..|b.order|] == b.order;
    forall k | k in b.rows ensures SameExceptFlag(b, DeleteRow(s, id), k) {
      assert Lookup(u.rows, k) == Lookup(b.rows, k);
    }
  }

  /** Whatever part of the converge went through, a failed create removes its row and
      changes no other. */
  lemma FailedCreateRestoresRows(env: Env, w: World, p: Pipeline)
    requires TableOk(w.books) && CreatePipeline(env, w, p).outcome.Failed?
    ensures RowsRestored(w.books, CreatePipeline(env, w, p).world.books)
  {
    var created := CreateRow(w.books, p);
    if env.valid(p.sourceType, p.sourceConfig) && created.Ok? {
      var s := SyncCustomer(env, World(w.repo, created.value));
      SyncEvolves(env, World(w.repo, created.value));
      assert CreatePipeline(env, w, p) == FinishCreate(s, p.id);
      DroppedRow(w.books, created.value, s.world.books, p.id);
    }
  }

  lemma UpdateChangesOneRow(env: Env, b: Books, p: Pipeline, clear: bool)
    requires p.id in b.rows && UpdatedBooks(env, b, p, clear).Ok?
    ensures var u := UpdatedBooks(env, b, p, clear).value;
            u.order == b.order && u.rows.Keys == b.rows.Keys && forall id :: id != p.id ==> Lookup(u.rows, id) == Lookup(b.rows, id)
  {
  }

  lemma OldNameStillFree(b: Books, s: Books, id: PipelineID)
    requires TableOk(b) && id in b.rows && forall k :: k in s.rows && k != id ==> SameExceptFlag(b, s, k)
    ensures NameFree(s, b.rows[id])
  {
    forall k | k in s.rows && k != id ensures s.rows[k].name != b.rows[id].name {
      assert SameExceptFlag(b, s, k);
    }
  }

  lemma UndoneRow(b: Books, s: Books, id: PipelineID)
    requires id in b.rows && b.rows[id].id == id && b.rows[id].sourceConfig.Some? && NameFree(s, b.rows[id]) && s.rows.Keys == b.rows.Keys && s.order == b.order
    requires forall k :: k in s.rows && k != id ==> SameExceptFlag(b, s, k)
    ensures UpdateRow(s, b.rows[id]).Ok? && RowsRestored(b, UpdateRow(s, b.rows[id]).value)
  {
    var b' := UpdateRow(s, b.rows[id]).value;
    forall k | k in b.rows ensures SameExceptFlag(b, b', k) {
      if k != id { assert SameExceptFlag(b, s, k); }
    }
  }

  lemma KeptExceptFlag(b: Books, u: Books, s: Books, k: PipelineID)
    requires RowsKept(u, s) && k in s.rows && Lookup(u.rows, k) == Lookup(b.rows, k)
    ensures SameExceptFlag(b, s, k)
  {
  }

  /** The compensating write cannot fail: nobody took the old name meanwhile. */
  lemma UndoRestores(b: Books, u: Books, s: Books, id: PipelineID)
    requires TableOk(b) && id in b.rows && RowsKept(u, s)
    requires u.order == b.order && u.rows.Keys == b.rows.Keys && forall k :: k != id ==> Lookup(u.rows, k) == Lookup(b.rows, k)
    ensures UpdateRow(s, b.rows[id]).Ok? && RowsRestored(b, UpdateRow(s, b.rows[id]).value)
  {
    forall k | k in s.rows && k != id ensures SameExceptFlag(b, s, k) {
      KeptExceptFlag(b, u, s, k);
    }
    OldNameStillFree(b, s, id);
    UndoneRow(b, s, id);
  }

  lemma UndoneStep(b: Books, u: Books, s: Step, id: PipelineID)
    requires TableOk(b) && id in b.rows && RowsKept(u, s.world.books) && s.outcome.Failed?
    requires u.order == b.order && u.rows.Keys == b.rows.Keys && forall k :: k != id ==> Lookup(u.rows, k) == Lookup(b.rows, k)
    ensures RowsRestored(b, FinishUpdate(s, b.rows[id]).world.books)
  {
    UndoRestores(b, u, s.world.books, id);
  }

  /** ... and a failed update puts the old row back. */
  lemma FailedUpdateRestoresRows(env: Env, w: World, p: Pipeline, clear: bool)
    requires TableOk(w.books) && UpdatePipeline(env, w, p, clear).outcome.Failed?
    ensures RowsRestored(w.books, UpdatePipeline(env, w, p, clear).world.books)
  {
    if Accepted(env, w.books, p, clear) {
      var u := UpdatedBooks(env, w.books, p, clear).value;
      UpdateChangesOneRow(env, w.books, p, clear);
      SyncEvolves(env, World(w.repo, u));
      var s := SyncCustomer(env, World(w.repo, u));
      assert UpdatePipeline(env, w, p, clear) == FinishUpdate(s, w.books.rows[p.id]);
      UndoneStep(w.books, u, s, p.id);
    }
  }

  /** If the converge of a create or an update fails, after whatever part of its writes,
      the rows are as before the save on every column an update writes. */
  lemma FailedSaveRestoresRows(env: Env, w: World, c: Change)
    requires TableOk(w.books) && Save(env, w, c).outcome.Failed?
    ensures RowsRestored(w.books, Save(env, w, c).world.books)
  {
    match c {
      case Create(p) => FailedCreateRestoresRows(env, w, p);
      case Update(p, clear) => FailedUpdateRestoresRows(env, w, p, clear);
    }
  }

  ghost predicate KeysOk(b: Books) {
    b.defs.Keys <= b.rows.Keys && b.creds.Keys <= b.rows.Keys
  }

  lemma EvolvedKeys(b: Books, b': Books)
    requires KeysOk(b) && Evolves(b, b')
    ensures KeysOk(b')
  {
  }

  lemma FinishKeepsKeys(s: Step, id: PipelineID, existing: Pipeline)
    requires KeysOk(s.world.books)
    ensures KeysOk(FinishCreate(s, id).world.books) && KeysOk(FinishUpdate(s, existing).world.books)
  {
  }

  lemma CreateKeepsKeys(env: Env, w: World, p: Pipeline)
    requires KeysOk(w.books)
    ensures KeysOk(CreatePipeline(env, w, p).world.books)
  {
    var created := CreateRow(w.books, p);
    if created.Ok? {
      var s := SyncCustomer(env, World(w.repo, created.value));
      SyncEvolves(env, World(w.repo, created.value));
      EvolvedKeys(created.value, s.world.books);
      FinishKeepsKeys(s, p.id, p);
    }
  }

  lemma UpdateKeepsKeys(env: Env, w: World, p: Pipeline, clear: bool)
    requires KeysOk(w.books)
    ensures KeysOk(UpdatePipeline(env, w, p, clear).world.books)
  {
    if Accepted(env, w.books, p, clear) {
      var u := UpdatedBooks(env, w.books, p, clear).value;
      var s := SyncCustomer(env, World(w.repo, u));
      SyncEvolves(env, World(w.repo, u));
      EvolvedKeys(u, s.world.books);
      FinishKeepsKeys(s, p.id, w.books.rows[p.id]);
    }
  }

  lemma SaveKeepsKeys(env: Env, w: World, c: Change)
    requires KeysOk(w.books)
    ensures KeysOk(Save(env, w, c).world.books)
  {
    match c {
      case Create(p) => CreateKeepsKeys(env, w, p);
      case Update(p, clear) => UpdateKeepsKeys(env, w, p, clear);
    }
  }

  lemma RestoredTable(b: Books, b': Books)
    requires TableOk(b) && RowsRestored(b, b') && KeysOk(b')
    ensures TableOk(b')
  {
    forall id | id in b'.rows ensures b'.rows[id].id == id { assert SameExceptFlag(b, b', id); }
    forall id, k | id in b'.rows && k in b'.rows && id != k ensures b'.rows[id].name != b'.rows[k].name {
      assert SameExceptFlag(b, b', id) && SameExceptFlag(b, b', k);
    }
  }

  // ---- A later converge heals the repository ----

  lemma RestoredList(b: Books, b': Books)
    requires TableOk(b) && RowsRestored(b, b')
    ensures SameListButFlags(List(b), List(b'))
  {
    forall i | 0 <= i < |List(b)| ensures SameButFlag(List(b)[i], List(b')[i]) {
      assert b.order[i] in b.order;
      assert SameExceptFlag(b, b', b.order[i]);
    }
  }

  lemma RestoredRowsHeal(env: Env, b: Books, b': Books, r: Repo)
    requires TableOk(b) && RowsRestored(b, b') && TableOk(b') && Quiet(r) && Renderable(Rendered(env, b))
    ensures var s := SyncCustomer(env, World(r, b'));
            var plan := MakePlan(env, b, Rendered(env, b));
            && s.outcome.Done?
            && forall p :: !IsCredentialPath(p) ==> Lookup(s.world.repo.files, p) == DefinitionGoal(plan, r.files, p)
  {
    var ps, qs := Rendered(env, b), Rendered(env, b');
    RestoredList(b, b');
    ResolveIgnoresFlags(env, List(b), List(b'));
    DefinitionsIgnoreFlags(ps, qs, ps, qs);
    SyncIsOneConverge(env, World(r, b'));
    RenderedDistinct(env, b');
    PlanIsWellFormed(env, b', qs);
    ConvergeReachesPlan(env.wiring, World(r, b'), MakePlan(env, b', qs));
  }

  /** After a failed save, one undisturbed sync, from any state r the repository may be in
      by then, puts every definition of the rows before the save in place, removes every
      other definition that carries the header and leaves the rest alone. */
  lemma FailedSaveHeals(env: Env, w: World, c: Change, r: Repo)
    requires TableOk(w.books) && Save(env, w, c).outcome.Failed? && Quiet(r) && Renderable(Rendered(env, w.books))
    ensures var s := SyncCustomer(env, World(r, Save(env, w, c).world.books));
            var plan := MakePlan(env, w.books, Rendered(env, w.books));
            && s.outcome.Done?
            && forall p :: !IsCredentialPath(p) ==> Lookup(s.world.repo.files, p) == DefinitionGoal(plan, r.files, p)
  {
    FailedSaveRestoresRows(env, w, c);
    FailedSaveKeepsTable(env, w, c);
    RestoredRowsHeal(env, w.books, Save(env, w, c).world.books, r);
  }

  lemma FailedSaveKeepsTable(env: Env, w: World, c: Change)
    requires TableOk(w.books) && Save(env, w, c).outcome.Failed?
    ensures TableOk(Save(env, w, c).world.books)
  {
    FailedSaveRestoresRows(env, w, c);
    SaveKeepsKeys(env, w, c);
    RestoredTable(w.books, Save(env, w, c).world.books);
  }

  // ---- What a save that succeeds stores ----

  /** Nothing, null or {}. */
  ghost predicate Blank(raw: RawJson) {
    raw.None? || raw == Some(Null) || raw == Some(Obj(map[]))
  }

  /** The credentials an update leaves: none when it clears them, those before it when it
      sends none, and otherwise the ones it sent. */
  ghost predicate CredentialsLeft(before: RawJson, sent: RawJson, clear: bool, after: RawJson) {
    && (clear ==> after.None?)
    && (!clear && Blank(sent) ==> after == before)
    && (!clear && !Blank(sent) ==> after == sent)
  }

  lemma UpdatedRow(env: Env, b: Books, p: Pipeline, clear: bool)
    requires Accepted(env, b, p, clear)
    ensures var u := UpdatedBooks(env, b, p, clear).value;
            && p.id in u.rows && CredentialsLeft(b.rows[p.id].credentials, p.credentials, clear, u.rows[p.id].credentials)
            && u.rows[p.id] == p.(credentials := u.rows[p.id].credentials, credentialsExternal := u.rows[p.id].credentialsExternal)
  {
  }

  /** An update that succeeds, whatever others commit meanwhile, stores every column it was
      sent, the credentials it leaves, and changes no other row but for ownership flags. */
  lemma UpdateStores(env: Env, w: World, p: Pipeline, clear: bool)
    requires TableOk(w.books) && UpdatePipeline(env, w, p, clear).outcome.Done?
    ensures var b' := UpdatePipeline(env, w, p, clear).world.books;
            && p.id in w.books.rows && p.id in b'.rows && b'.rows.Keys == w.books.rows.Keys && b'.order == w.books.order
            && CredentialsLeft(w.books.rows[p.id].credentials, p.credentials, clear, b'.rows[p.id].credentials)
            && b'.rows[p.id] == p.(credentials := b'.rows[p.id].credentials, credentialsExternal := b'.rows[p.id].credentialsExternal)
            && (forall id :: id in w.books.rows && id != p.id ==> SameExceptFlag(w.books, b', id))
  {
    assert Accepted(env, w.books, p, clear);
    var u := UpdatedBooks(env, w.books, p, clear).value;
    var s := SyncCustomer(env, World(w.repo, u)).world.books;
    UpdatedRow(env, w.books, p, clear);
    UpdateChangesOneRow(env, w.books, p, clear);
    SyncEvolves(env, World(w.repo, u));
    assert UpdatePipeline(env, w, p, clear).world.books == s;
    forall id | id in w.books.rows && id != p.id ensures SameExceptFlag(w.books, s, id) { KeptExceptFlag(w.books, u, s, id); }
  }

  /** The row of a create: what was sent, enabled, and "append" unless it says otherwise. */
  ghost predicate CreatedFrom(p: Pipeline, row: Pipeline) {
    && row.id == p.id && row.name == p.name && row.sourceType == p.sourceType && row.sourceConfig == p.sourceConfig
    && row.credentials == p.credentials && row.datasetName == p.datasetName && row.schedule == p.schedule
    && row.mergeStrategy == p.mergeStrategy && row.enabled
    && (if p.writeDisposition == "" then row.writeDisposition == "append" else row.writeDisposition == p.writeDisposition)
  }

  lemma CreatedRow(b: Books, p: Pipeline)
    requires CreateRow(b, p).Ok?
    ensures var u := CreateRow(b, p).value;
            && p.id !in b.rows && u.rows.Keys == b.rows.Keys + {p.id} && u.order == b.order + [p.id] && u.creds == b.creds
            && CreatedFrom(p, u.rows[p.id]) && !u.rows[p.id].credentialsExternal
            && (forall id :: id in b.rows ==> Lookup(u.rows, id) == Lookup(b.rows, id))
  {
  }

  /** A create that succeeds adds that row, listed last, and changes no other. */
  lemma CreateStores(env: Env, w: World, p: Pipeline)
    requires TableOk(w.books) && CreatePipeline(env, w, p).outcome.Done?
    ensures var b' := CreatePipeline(env, w, p).world.books;
            && p.id !in w.books.rows && b'.rows.Keys == w.books.rows.Keys + {p.id} && b'.order == w.books.order + [p.id]
            && CreatedFrom(p, b'.rows[p.id])
            && (forall id :: id in w.books.rows ==> SameExceptFlag(w.books, b', id))
  {
    var u := CreateRow(w.books, p).value;
    var s := SyncCustomer(env, World(w.repo, u)).world.books;
    CreatedRow(w.books, p);
    SyncEvolves(env, World(w.repo, u));
    assert CreatePipeline(env, w, p).world.books == s;
    forall id | id in w.books.rows ensures SameExceptFlag(w.books, s, id) { KeptExceptFlag(w.books, u, s, id); }
  }

  // ---- What is refused before anything is written ----

  ghost predicate NameHeld(b: Books, p: Pipeline) {
    exists id :: id in b.rows && id != p.id && b.rows[id].name == p.name
  }

  /** An update is refused with nothing changed if it both clears and sets credentials, names
      no pipeline, carries an invalid or no config, or takes another pipeline's name; and
      otherwise it is accepted. */
  lemma UpdateRefusedIff(env: Env, w: World, p: Pipeline, clear: bool)
    ensures var refused := || (clear && !IsEmptyJson(p.credentials)) || p.id !in w.books.rows || !env.valid(p.sourceType, p.sourceConfig)
                           || p.sourceConfig.None? || NameHeld(w.books, p);
            && (Accepted(env, w.books, p, clear) <==> !refused)
            && (refused ==> UpdatePipeline(env, w, p, clear).world == w && UpdatePipeline(env, w, p, clear).outcome.Failed?)
  {
  }

  /** So is a create with an invalid or no config, or under a name or id already there. */
  lemma CreateRefusedIff(env: Env, w: World, p: Pipeline)
    ensures var refused := !env.valid(p.sourceType, p.sourceConfig) || p.sourceConfig.None? || p.id in w.books.rows || NameHeld(w.books, p);
            && (CreateRow(w.books, p).Ok? && env.valid(p.sourceType, p.sourceConfig) <==> !refused)
            && (refused ==> CreatePipeline(env, w, p).world == w && CreatePipeline(env, w, p).outcome.Failed?)
  {
  }

  /** And one that is not refused ends as its converge does. */
  lemma AcceptedEndsAsConverged(env: Env, w: World, c: Change)
    requires match c
             case Create(p) => CreateRow(w.books, p).Ok? && env.valid(p.sourceType, p.sourceConfig)
             case Update(p, clear) => Accepted(env, w.books, p, clear)
    ensures var u := if c.Create? then CreateRow(w.books, c.p).value else UpdatedBooks(env, w.books, c.p, c.clear).value;
            var s := SyncCustomer(env, World(w.repo, u));
            Save(env, w, c).outcome == s.outcome && Save(env, w, c).world.repo == s.world.repo
  {
  }
}
