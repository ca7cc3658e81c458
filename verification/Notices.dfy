/** Which notifications an undisturbed converge raises, from the plan and the files alone. */
module Notices {
  import opened Basics
  import opened Domain
  import opened GitRepo
  import opened Mirror
  import opened Sync
  import opened Convergence
  import opened Syncing

  // ---- Overwritten edits ----

  /** The file at p is tracked there, and holds neither the recorded nor the desired blob. */
  ghost predicate EditedOver(plan: Plan, files: map<Path, Content>, p: Path)
    requires p in plan.desired
  {
    var id := plan.desired[p].id;
    && p in files && id in plan.defRows && plan.defRows[id].path == p
    && plan.defRows[id].blob != ShaOf(files[p]) && files[p] != plan.desired[p].content
  }

  ghost function DriftNotes(plan: Plan, files: map<Path, Content>, paths: seq<Path>): seq<Note>
    requires forall p :: p in paths ==> p in plan.desired
    decreases |paths|
  {
    if paths == [] then []
    else
      assert paths[0] in paths;
      (if EditedOver(plan, files, paths[0]) then [DriftNote(paths[0], plan.desired[paths[0]].id)] else []) +
      DriftNotes(plan, files, paths[1..])
  }

  /** One definition's turn reports an overwritten edit, and nothing else. */
  lemma UpsertFileNotifies(cfg: Wiring, w: World, path: Path, plan: Plan, existing: map<Path, Sha>)
    requires Quiet(w.repo) && path in plan.desired && Agrees(existing, w.repo.files, path)
    ensures UpsertFile(cfg, w, path, plan.desired[path], existing, plan.defRows).world.books.notes ==
            w.books.notes + if EditedOver(plan, w.repo.files, path) then [DriftNote(path, plan.desired[path].id)] else []
  {
  }

  lemma {:induction false} DriftNotesElsewhere(plan: Plan, files: map<Path, Content>, files': map<Path, Content>, paths: seq<Path>)
    requires forall p :: p in paths ==> p in plan.desired && Lookup(files', p) == Lookup(files, p)
    ensures DriftNotes(plan, files', paths) == DriftNotes(plan, files, paths)
    decreases |paths|
  {
    if paths != [] {
      assert paths[0] in paths;
      DriftNotesElsewhere(plan, files, files', paths[1..]);
    }
  }

  lemma Appended(a: seq<Note>, b: seq<Note>, c: seq<Note>)
    ensures (a + b) + c == a + (b + c)
  {
  }

  lemma {:induction false} UpsertFilesNotify(cfg: Wiring, w: World, paths: seq<Path>, plan: Plan, existing: map<Path, Sha>)
    requires Quiet(w.repo) && NoDuplicates(paths)
    requires forall p :: p in paths ==> p in plan.desired && Agrees(existing, w.repo.files, p)
    ensures UpsertFiles(cfg, w, paths, plan, existing).world.books.notes == w.books.notes + DriftNotes(plan, w.repo.files, paths)
    decreases |paths|
  {
    if paths != [] {
      var p0, rest := paths[0], paths[1..];
      UpsertFileNotifies(cfg, w, p0, plan, existing);
      UpsertFileQuiet(cfg, w, p0, plan.desired[p0], existing, plan.defRows);
      var mid := UpsertFile(cfg, w, p0, plan.desired[p0], existing, plan.defRows).world;
      assert p0 !in rest;
      forall p | p in rest ensures p in plan.desired && Lookup(mid.repo.files, p) == Lookup(w.repo.files, p) && Agrees(existing, mid.repo.files, p) {
        assert p in paths && p != p0;
      }
      UpsertFilesNotify(cfg, mid, rest, plan, existing);
      DriftNotesElsewhere(plan, w.repo.files, mid.repo.files, rest);
      Appended(w.books.notes, if EditedOver(plan, w.repo.files, p0) then [DriftNote(p0, plan.desired[p0].id)] else [],
               DriftNotes(plan, w.repo.files, rest));
    }
  }

  // ---- Files handed to the box ----

  /** The credential file at p is tracked, not yet the box's, and not the recorded blob. */
  ghost predicate TakenOver(cfg: Wiring, plan: Plan, cf: CredentialFile, files: map<Path, Content>, p: Path) {
    && cfg.ownership && !cf.external && p in files
    && cf.id in plan.credRows && plan.credRows[cf.id].blob != ShaOf(files[p])
  }

  ghost function HandoverNotes(cfg: Wiring, plan: Plan, known: set<PipelineID>, c: map<Path, CredentialFile>, files: map<Path, Content>,
                               paths: seq<Path>): seq<Note>
    requires forall p :: p in paths ==> p in c
    decreases |paths|
  {
    if paths == [] then []
    else
      assert paths[0] in paths;
      var cf := c[paths[0]];
      (if cf.id in known && TakenOver(cfg, plan, cf, files, paths[0]) then [ExternalNote(paths[0], cf.id)] else []) +
      HandoverNotes(cfg, plan, known, c, files, paths[1..])
  }

  lemma UpsertCredentialNotifies(cfg: Wiring, w: World, path: Path, cf: CredentialFile, plan: Plan, files: map<Path, Content>, existing: map<Path, Sha>)
    requires Agrees(existing, files, path)
    ensures UpsertCredentialFile(cfg, w, path, cf, plan.recipient, plan.credRows, existing).world.books.notes ==
            w.books.notes + if cf.id in w.books.rows.Keys && TakenOver(cfg, plan, cf, files, path) then [ExternalNote(path, cf.id)] else []
  {
  }

  lemma {:induction false} UpsertCredentialsNotify(cfg: Wiring, w: World, paths: seq<Path>, c: map<Path, CredentialFile>, plan: Plan,
                                                   files: map<Path, Content>, existing: map<Path, Sha>)
    requires forall p :: p in paths ==> p in c && Agrees(existing, files, p)
    requires UpsertCredentialFiles(cfg, w, paths, c, plan, existing).outcome.Done?
    ensures UpsertCredentialFiles(cfg, w, paths, c, plan, existing).world.books.notes ==
            w.books.notes + HandoverNotes(cfg, plan, w.books.rows.Keys, c, files, paths)
    decreases |paths|
  {
    if paths != [] {
      var p0 := paths[0];
      assert p0 in paths;
      UpsertCredentialNotifies(cfg, w, p0, c[p0], plan, files, existing);
      var mid := UpsertCredentialFile(cfg, w, p0, c[p0], plan.recipient, plan.credRows, existing).world;
      assert mid.books.rows.Keys == w.books.rows.Keys;
      UpsertCredentialsNotify(cfg, mid, paths[1..], c, plan, files, existing);
      Appended(w.books.notes,
               if c[p0].id in w.books.rows.Keys && TakenOver(cfg, plan, c[p0], files, p0) then [ExternalNote(p0, c[p0].id)] else [],
               HandoverNotes(cfg, plan, w.books.rows.Keys, c, files, paths[1..]));
    }
  }

  // ---- The whole converge ----

  lemma DefinitionsNotify(cfg: Wiring, w: World, plan: Plan)
    requires Quiet(w.repo) && WellPlanned(plan)
    ensures forall p :: p in Sorted(plan.desired.Keys) ==> p in plan.desired
    ensures var s := ConvergeDefinitions(cfg, w, plan, YamlTree(Tree(w.repo.files)));
            s.world.books.notes == w.books.notes + DriftNotes(plan, w.repo.files, Sorted(plan.desired.Keys))
  {
    var yaml := YamlTree(Tree(w.repo.files));
    SortedEnumerates(plan.desired.Keys);
    SortedEnumerates(yaml.Keys);
    UpsertFilesNotify(cfg, w, Sorted(plan.desired.Keys), plan, yaml);
    DeletesKeepBooks(UpsertFiles(cfg, w, Sorted(plan.desired.Keys), plan, yaml).world, Sorted(yaml.Keys), yaml, plan.desired.Keys);
  }

  lemma CredentialsNotify(cfg: Wiring, w: World, c: map<Path, CredentialFile>, plan: Plan, age: map<Path, Sha>, files: map<Path, Content>)
    requires forall p :: p in c ==> Agrees(age, files, p)
    requires ConvergeCredentials(cfg, w, c, plan, age).outcome.Done?
    ensures forall p :: p in Sorted(c.Keys) ==> p in c
    ensures ConvergeCredentials(cfg, w, c, plan, age).world.books.notes ==
            w.books.notes + HandoverNotes(cfg, plan, w.books.rows.Keys, c, files, Sorted(c.Keys))
  {
    SortedEnumerates(c.Keys);
    SortedEnumerates(age.Keys);
    UpsertCredentialsNotify(cfg, w, Sorted(c.Keys), c, plan, files, age);
    DeletesKeepBooks(UpsertCredentialFiles(cfg, w, Sorted(c.Keys), c, plan, age).world, Sorted(age.Keys), age, c.Keys);
  }

  /** The notifications an undisturbed converge raises: in path order one per tracked
      definition that holds neither the recorded nor the desired blob, and then, in path
      order, one per tracked credential file somebody else committed. */
  ghost function ConvergeNotes(cfg: Wiring, w: World, plan: Plan): seq<Note> {
    SortedEnumerates(plan.desired.Keys);
    var drift := DriftNotes(plan, w.repo.files, Sorted(plan.desired.Keys));
    if plan.credentials.None? then drift
    else
      var c := plan.credentials.value;
      SortedEnumerates(c.Keys);
      drift + HandoverNotes(cfg, plan, w.books.rows.Keys, c, w.repo.files, Sorted(c.Keys))
  }

  lemma ConvergeNotifies(cfg: Wiring, w: World, plan: Plan)
    requires Quiet(w.repo) && WellPlanned(plan)
    ensures Converge(cfg, w, plan).world.books.notes == w.books.notes + ConvergeNotes(cfg, w, plan)
  {
    var start := World(ListTree(w.repo).repo, w.books);
    var tree := Tree(w.repo.files);
    DefinitionsNotify(cfg, start, plan);
    ConvergeReachesPlan(cfg, w, plan);
    var s := ConvergeDefinitions(cfg, start, plan, YamlTree(tree));
    if plan.credentials.Some? {
      var c := plan.credentials.value;
      ConvergeDefinitionsQuiet(cfg, start, plan);
      CredentialsNotify(cfg, s.world, c, plan, AgeTree(tree), w.repo.files);
      Appended(w.books.notes, DriftNotes(plan, w.repo.files, Sorted(plan.desired.Keys)),
               HandoverNotes(cfg, plan, w.books.rows.Keys, c, w.repo.files, Sorted(c.Keys)));
    }
  }

  lemma {:induction false} DriftSilentIff(plan: Plan, files: map<Path, Content>, paths: seq<Path>)
    requires forall p :: p in paths ==> p in plan.desired
    ensures DriftNotes(plan, files, paths) == [] <==> forall p :: p in paths ==> !EditedOver(plan, files, p)
    decreases |paths|
  {
    if paths != [] {
      assert paths[0] in paths;
      assert forall p :: p in paths <==> p == paths[0] || p in paths[1..];
      DriftSilentIff(plan, files, paths[1..]);
    }
  }

  lemma {:induction false} HandoverSilentIff(cfg: Wiring, plan: Plan, known: set<PipelineID>, c: map<Path, CredentialFile>, files: map<Path, Content>,
                                             paths: seq<Path>)
    requires forall p :: p in paths ==> p in c
    ensures HandoverNotes(cfg, plan, known, c, files, paths) == [] <==>
            forall p :: p in paths ==> c[p].id !in known || !TakenOver(cfg, plan, c[p], files, p)
    decreases |paths|
  {
    if paths != [] {
      assert paths[0] in paths;
      assert forall p :: p in paths <==> p == paths[0] || p in paths[1..];
      HandoverSilentIff(cfg, plan, known, c, files, paths[1..]);
    }
  }

  /** So it is silent if and only if it overwrites no edit and meets no foreign credential
      file: a Console change over a file as recorded is not reported. */
  lemma ConvergeSilentIff(cfg: Wiring, w: World, plan: Plan)
    requires Quiet(w.repo) && WellPlanned(plan)
    ensures Converge(cfg, w, plan).world.books.notes == w.books.notes <==>
            && (forall p :: p in plan.desired ==> !EditedOver(plan, w.repo.files, p))
            && (plan.credentials.Some? ==>
                  var c := plan.credentials.value;
                  forall p :: p in c ==> c[p].id !in w.books.rows || !TakenOver(cfg, plan, c[p], w.repo.files, p))
  {
    ConvergeNotifies(cfg, w, plan);
    SortedEnumerates(plan.desired.Keys);
    DriftSilentIff(plan, w.repo.files, Sorted(plan.desired.Keys));
    if plan.credentials.Some? {
      var c := plan.credentials.value;
      SortedEnumerates(c.Keys);
      HandoverSilentIff(cfg, plan, w.books.rows.Keys, c, w.repo.files, Sorted(c.Keys));
    }
  }

  lemma {:induction false} NoDriftNotes(plan: Plan, files: map<Path, Content>, paths: seq<Path>)
    requires plan.defRows == map[] && forall p :: p in paths ==> p in plan.desired
    ensures DriftNotes(plan, files, paths) == []
    decreases |paths|
  {
    if paths != [] { NoDriftNotes(plan, files, paths[1..]); }
  }

  lemma {:induction false} OnlyHandoverNotes(cfg: Wiring, plan: Plan, known: set<PipelineID>, c: map<Path, CredentialFile>,
                                             files: map<Path, Content>, paths: seq<Path>)
    requires forall p :: p in paths ==> p in c
    ensures forall n :: n in HandoverNotes(cfg, plan, known, c, files, paths) ==> n.ExternalNote?
    decreases |paths|
  {
    if paths != [] { OnlyHandoverNotes(cfg, plan, known, c, files, paths[1..]); }
  }

  /** Without the drift store an undisturbed sync reports no drift. */
  lemma UnwiredReportsNoDrift(env: Env, w: World, i: nat)
    requires Quiet(w.repo) && TableOk(w.books) && !env.wiring.drift
    requires |w.books.notes| <= i < |SyncCustomer(env, w).world.books.notes|
    ensures SyncCustomer(env, w).world.books.notes[i].ExternalNote?
  {
    var ps := Rendered(env, w.books);
    var plan := MakePlan(env, w.books, ps);
    RenderedDistinct(env, w.books);
    PlanIsWellFormed(env, w.books, ps);
    SyncIsOneConverge(env, w);
    ConvergeNotifies(env.wiring, w, plan);
    SortedEnumerates(plan.desired.Keys);
    NoDriftNotes(plan, w.repo.files, Sorted(plan.desired.Keys));
    if plan.credentials.Some? {
      var c := plan.credentials.value;
      SortedEnumerates(c.Keys);
      OnlyHandoverNotes(env.wiring, plan, w.books.rows.Keys, c, w.repo.files, Sorted(c.Keys));
    }
  }
}
