/** A converge is a fixed point: run again over fresh rows it commits nothing. */
module FixedPoint {
  import opened Basics
  import opened GitRepo
  import opened Mirror
  import opened Convergence

  /** The calls made since h were all reads. */
  ghost predicate OnlyReads(h: seq<Event>, h': seq<Event>) {
    h <= h' && forall i :: |h| <= i < |h'| ==> !IsWrite(h'[i])
  }

  /** Same files and books; at most some more reads in the log. */
  ghost predicate Idle(w: World, w': World) {
    && w'.books == w.books && w'.repo.files == w.repo.files && Quiet(w'.repo)
    && OnlyReads(w.repo.history, w'.repo.history)
  }

  lemma IdleTransitive(a: World, b: World, c: World)
    requires Idle(a, b) && Idle(b, c)
    ensures Idle(a, c)
  {
    var h, h', h'' := a.repo.history, b.repo.history, c.repo.history;
    forall i | |h| <= i < |h''| ensures !IsWrite(h''[i]) {
      if i < |h'| { assert h''[i] == h'[i]; }
    }
  }

  ghost predicate DefinitionSettled(cfg: Wiring, w: World, plan: Plan, p: Path)
    requires p in plan.desired
  {
    var df := plan.desired[p];
    && Lookup(w.repo.files, p) == Some(df.content)
    && (cfg.drift && df.id in w.books.rows ==> Recorded(plan.defRows, df.id, p, df.content))
  }

  ghost predicate CredentialSettled(w: World, plan: Plan, cf: CredentialFile, p: Path) {
    cf.external ||
    (p in w.repo.files &&
     Current(Lookup(plan.credRows, cf.id), Fingerprint(plan.recipient, cf.plaintext), ShaOf(w.repo.files[p])))
  }

  /** Nothing for a converge of this plan to do. */
  ghost predicate Settled(cfg: Wiring, w: World, plan: Plan) {
    && (forall p :: p in plan.desired ==> DefinitionSettled(cfg, w, plan, p))
    && (forall p :: p in w.repo.files && IsDefinitionPath(p) && p !in plan.desired ==> !HasHeader(w.repo.files[p]))
    && (plan.credentials.Some? ==>
          && (forall p :: p in plan.credentials.value ==> CredentialSettled(w, plan, plan.credentials.value[p], p))
          && (forall p :: p in w.repo.files && IsCredentialPath(p) ==> p in plan.credentials.value))
  }

  lemma {:induction false} UpsertFilesIdle(cfg: Wiring, w: World, paths: seq<Path>, plan: Plan, existing: map<Path, Sha>)
    requires Quiet(w.repo)
    requires forall p :: p in paths ==> p in plan.desired && DefinitionSettled(cfg, w, plan, p) && Agrees(existing, w.repo.files, p)
    ensures var s := UpsertFiles(cfg, w, paths, plan, existing);
            s.outcome.Done? && Idle(w, s.world)
    decreases |paths|
  {
    if paths != [] {
      var s := UpsertFile(cfg, w, paths[0], plan.desired[paths[0]], existing, plan.defRows);
      assert s.outcome.Done? && Idle(w, s.world);
      forall p | p in paths[1..]
        ensures p in plan.desired && DefinitionSettled(cfg, s.world, plan, p) && Agrees(existing, s.world.repo.files, p)
      {
        assert p in paths;
      }
      UpsertFilesIdle(cfg, s.world, paths[1..], plan, existing);
      IdleTransitive(w, s.world, UpsertFiles(cfg, s.world, paths[1..], plan, existing).world);
    }
  }

  lemma {:induction false} DeleteStaleRenderedIdle(w: World, paths: seq<Path>, existing: map<Path, Sha>, keep: set<Path>)
    requires Quiet(w.repo)
    requires forall p :: p in paths ==> p in existing
    requires forall p :: p in paths && p !in keep ==> p in w.repo.files && !HasHeader(w.repo.files[p])
    ensures var s := DeleteStaleRendered(w, paths, existing, keep);
            s.outcome.Done? && Idle(w, s.world)
    decreases |paths|
  {
    if paths != [] {
      var mid := if paths[0] in keep then w else DeleteRendered(w, paths[0], existing[paths[0]]).world;
      assert Idle(w, mid);
      DeleteStaleRenderedIdle(mid, paths[1..], existing, keep);
      IdleTransitive(w, mid, DeleteStaleRendered(mid, paths[1..], existing, keep).world);
    }
  }

  lemma {:induction false} UpsertCredentialFilesIdle(cfg: Wiring, w: World, paths: seq<Path>, files: map<Path, CredentialFile>,
                                                     plan: Plan, existing: map<Path, Sha>)
    requires forall p :: p in paths ==> p in files && CredentialSettled(w, plan, files[p], p) && Agrees(existing, w.repo.files, p)
    ensures UpsertCredentialFiles(cfg, w, paths, files, plan, existing) == Step(w, Done)
    decreases |paths|
  {
    if paths != [] {
      UpsertCredentialFilesIdle(cfg, w, paths[1..], files, plan, existing);
    }
  }

  lemma {:induction false} DeleteStaleIdle(w: World, paths: seq<Path>, existing: map<Path, Sha>, keep: set<Path>)
    requires forall p :: p in paths ==> p in existing && p in keep
    ensures DeleteStale(w, paths, existing, keep) == Step(w, Done)
    decreases |paths|
  {
    if paths != [] {
      DeleteStaleIdle(w, paths[1..], existing, keep);
    }
  }

  lemma ConvergeDefinitionsIdle(cfg: Wiring, w: World, plan: Plan)
    requires Quiet(w.repo) && WellPlanned(plan) && Settled(cfg, w, plan)
    ensures var s := ConvergeDefinitions(cfg, w, plan, YamlTree(Tree(w.repo.files)));
            s.outcome.Done? && Idle(w, s.world)
  {
    var yaml := YamlTree(Tree(w.repo.files));
    SortedEnumerates(plan.desired.Keys);
    SortedEnumerates(yaml.Keys);
    UpsertFilesIdle(cfg, w, Sorted(plan.desired.Keys), plan, yaml);
    var mid := UpsertFiles(cfg, w, Sorted(plan.desired.Keys), plan, yaml).world;
    DeleteStaleRenderedIdle(mid, Sorted(yaml.Keys), yaml, plan.desired.Keys);
    IdleTransitive(w, mid, DeleteStaleRendered(mid, Sorted(yaml.Keys), yaml, plan.desired.Keys).world);
  }

  /** Over a settled state a converge performs no put and no delete, and writes no
      bookkeeping row, flag or notification. */
  lemma SettledIsFixedPoint(cfg: Wiring, w: World, plan: Plan)
    requires Quiet(w.repo) && WellPlanned(plan) && Settled(cfg, w, plan)
    ensures var s := Converge(cfg, w, plan);
            s.outcome.Done? && Idle(w, s.world)
  {
    var tree := Tree(w.repo.files);
    var start := World(ListTree(w.repo).repo, w.books);
    assert Idle(w, start);
    ConvergeDefinitionsIdle(cfg, start, plan);
    var mid := ConvergeDefinitions(cfg, start, plan, YamlTree(tree)).world;
    IdleTransitive(w, start, mid);
    if plan.credentials.Some? {
      var files, age := plan.credentials.value, AgeTree(tree);
      SortedEnumerates(files.Keys);
      SortedEnumerates(age.Keys);
      UpsertCredentialFilesIdle(cfg, mid, Sorted(files.Keys), files, plan, age);
      DeleteStaleIdle(mid, Sorted(age.Keys), age, files.Keys);
    }
  }

  /** The plan's row snapshots are the current rows, wherever it looks at them. */
  ghost predicate ReadsRows(cfg: Wiring, plan: Plan, b: Books) {
    && (cfg.drift ==> plan.defRows == b.defs)
    && (plan.credentials.Some? && plan.credentials.value != map[] ==> plan.credRows == b.creds)
  }

  /** The same plan, read again after a converge: fresh bookkeeping rows, and the
      ownership flags the rows now carry. */
  ghost predicate Refreshed(cfg: Wiring, plan: Plan, plan': Plan, b: Books) {
    && plan'.desired == plan.desired && plan'.recipient == plan.recipient
    && ReadsRows(cfg, plan', b)
    && plan'.credentials.Some? == plan.credentials.Some?
    && (plan.credentials.Some? ==>
          var c, c' := plan.credentials.value, plan'.credentials.value;
          && c'.Keys == c.Keys
          && (forall p :: p in c ==>
                && c'[p].id == c[p].id && c'[p].id in b.rows
                && c'[p].external == b.rows[c[p].id].credentialsExternal
                && (!c'[p].external ==> c'[p] == c[p])))
  }

  /** The plan was made from the current rows. */
  ghost predicate Fresh(cfg: Wiring, plan: Plan, b: Books) {
    && ReadsRows(cfg, plan, b)
    && (forall p :: p in plan.desired ==> plan.desired[p].id in b.rows)
    && (plan.credentials.Some? ==>
          forall p :: p in plan.credentials.value ==>
            && plan.credentials.value[p].id in b.rows
            && plan.credentials.value[p].external == b.rows[plan.credentials.value[p].id].credentialsExternal)
  }

  lemma CredentialSettles(cfg: Wiring, plan: Plan, plan': Plan, w: World, w': World, p: Path)
    requires plan.credentials.Some? && p in plan.credentials.value
    requires Fresh(cfg, plan, w.books) && Refreshed(cfg, plan, plan', w'.books)
    requires CredentialOutcome(cfg, plan.credentials.value[p], plan, Lookup(Tree(w.repo.files), p),
                               Lookup(w.repo.files, p), Lookup(w'.repo.files, p), w'.books)
    requires Keeps(cfg, plan.credentials.value[p], plan, Lookup(Tree(w.repo.files), p)) ==>
               Lookup(w'.books.creds, plan.credentials.value[p].id) == Lookup(w.books.creds, plan.credentials.value[p].id)
    requires RowsKept(w.books, w'.books)
    ensures CredentialSettled(w', plan', plan'.credentials.value[p], p)
  {
    var cf := plan.credentials.value[p];
    if cf.external {
      assert w'.books.rows[cf.id].credentialsExternal;
    }
  }

  /** One undisturbed converge over fresh rows settles the state. */
  lemma ConvergeSettles(cfg: Wiring, w: World, plan: Plan, plan': Plan)
    requires Quiet(w.repo) && WellPlanned(plan) && Fresh(cfg, plan, w.books)
    requires Refreshed(cfg, plan, plan', Converge(cfg, w, plan).world.books)
    ensures Settled(cfg, Converge(cfg, w, plan).world, plan')
  {
    var end := Converge(cfg, w, plan).world;
    ConvergeReachesPlan(cfg, w, plan);
    ConvergeKeepsBooks(cfg, w, plan);
    forall p | p in plan'.desired ensures DefinitionSettled(cfg, end, plan', p) {
      assert Lookup(end.repo.files, p) == DefinitionGoal(plan, w.repo.files, p);
      assert cfg.drift ==> Tracked(cfg, w.books, plan, p);
    }
    forall p | p in end.repo.files && IsDefinitionPath(p) && p !in plan'.desired ensures !HasHeader(end.repo.files[p]) {
      assert Lookup(end.repo.files, p) == DefinitionGoal(plan, w.repo.files, p);
    }
    if plan.credentials.Some? {
      forall p | p in plan.credentials.value ensures CredentialSettled(end, plan', plan'.credentials.value[p], p) {
        assert IsCredentialPath(p);
        CredentialSettles(cfg, plan, plan', w, end, p);
      }
    }
  }
}
