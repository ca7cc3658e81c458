/** Repeated syncs: a second SyncCustomer commits nothing. */
module Syncing {
  import opened Basics
  import opened Domain
  import opened FileDrop
  import opened GitRepo
  import opened Mirror
  import opened Slugs
  import opened Sync
  import opened Convergence
  import opened FixedPoint

  // ---- The list and its rewrite ----

  lemma ListDistinct(b: Books)
    requires TableOk(b)
    ensures DistinctIds(List(b))
  {
    var ps := List(b);
    forall i, j | 0 <= i < j < |ps| ensures ps[i].id != ps[j].id {
      assert b.order[i] in b.order && b.order[j] in b.order;
    }
  }

  /** Every pipeline of the rewritten list comes from one of the list. */
  lemma {:induction false} ResolvedFrom(env: Env, ps: seq<Pipeline>, r: Pipeline) returns (p: Pipeline)
    requires r in ResolveAll(env, ps)
    ensures p in ps && ResolveOne(env, p) == Some(r) && p.id == r.id
  {
    var last := ResolveOne(env, ps[|ps| - 1]);
    if last == Some(r) {
      p := ps[|ps| - 1];
    } else {
      p := ResolvedFrom(env, ps[..|ps| - 1], r);
    }
  }

  lemma {:induction false} ResolvedInto(env: Env, ps: seq<Pipeline>, p: Pipeline)
    requires p in ps && ResolveOne(env, p).Some?
    ensures ResolveOne(env, p).value in ResolveAll(env, ps)
  {
    var front, last := ps[..|ps| - 1], ps[|ps| - 1];
    assert ps == front + [last];
    if p != last { ResolvedInto(env, front, p); }
  }

  lemma {:induction false} ResolvedDistinct(env: Env, ps: seq<Pipeline>)
    requires DistinctIds(ps)
    ensures DistinctIds(ResolveAll(env, ps))
  {
    if ps != [] {
      var front, last := ps[..|ps| - 1], ps[|ps| - 1];
      ResolvedDistinct(env, front);
      var rs := ResolveAll(env, front);
      forall i | 0 <= i < |rs| ensures rs[i].id != last.id {
        var p := ResolvedFrom(env, front, rs[i]);
        var j :| 0 <= j < |front| && front[j] == p;
        assert ps[j].id != ps[|ps| - 1].id;
      }
    }
  }

  lemma RenderedDistinct(env: Env, b: Books)
    requires TableOk(b)
    ensures DistinctIds(Rendered(env, b))
  {
    ListDistinct(b);
    ResolvedDistinct(env, List(b));
  }

  lemma ListedRow(b: Books, p: Pipeline)
    requires TableOk(b) && p in List(b)
    ensures p.id in b.rows && p == b.rows[p.id].(credentials := None)
  {
    var i :| 0 <= i < |b.order| && List(b)[i] == p;
    assert b.order[i] in b.order;
  }

  /** A rendered pipeline has a row, and is the rewrite of that row. */
  lemma RenderedRow(env: Env, b: Books, r: Pipeline)
    requires TableOk(b) && r in Rendered(env, b)
    ensures r.id in b.rows && r.credentialsExternal == b.rows[r.id].credentialsExternal
    ensures ResolveOne(env, b.rows[r.id].(credentials := None)) == Some(r)
  {
    var p := ResolvedFrom(env, List(b), r);
    ListedRow(b, p);
  }

  /** A pipeline is rendered unless it is an upload with nothing to load, or the storage is
      incomplete; anything but an upload is rendered as stored, its credentials aside. */
  lemma RenderedIff(env: Env, b: Books, id: PipelineID)
    requires TableOk(b)
    ensures (exists r :: r in Rendered(env, b) && r.id == id) <==>
            && id in b.rows
            && (b.rows[id].sourceType == "file_upload" ==>
                  && env.storage.bucket != "" && env.storage.accessKeyId != "" && env.storage.secretAccessKey != "" && env.storage.endpoint != ""
                  && HasUploads(b.rows[id].sourceConfig))
    ensures forall r :: r in Rendered(env, b) && r.id == id && id in b.rows && b.rows[id].sourceType != "file_upload" ==>
                          r == b.rows[id].(credentials := None)
  {
    forall r | r in Rendered(env, b) && r.id == id ensures RenderedAs(env, b, id, r) {
      RenderedRow(env, b, r);
      ResolvesIff(b.rows[id].(credentials := None), env.storage);
    }
    if id in b.rows {
      var p := b.rows[id].(credentials := None);
      var i :| 0 <= i < |b.order| && b.order[i] == id;
      assert List(b)[i] == p && p in List(b);
      ResolvesIff(p, env.storage);
      if ResolveOne(env, p).Some? {
        ResolvedInto(env, List(b), p);
        assert ResolveOne(env, p).value in Rendered(env, b);
      }
    }
  }

  ghost predicate RenderedAs(env: Env, b: Books, id: PipelineID, r: Pipeline) {
    && id in b.rows
    && if b.rows[id].sourceType == "file_upload"
       then Provisioned(env.storage) && HasUploads(b.rows[id].sourceConfig)
       else r == b.rows[id].(credentials := None)
  }

  // ---- The plan is well formed ----

  /** Where pipeline r of the list keeps its credential file. */
  function AgePath(ps: seq<Pipeline>, r: Pipeline): Path {
    CredentialPath(FileSlug(ps, r))
  }

  lemma PathShapes(slug: string)
    ensures IsDefinitionPath(DefinitionPath(slug)) && IsCredentialPath(CredentialPath(slug))
    ensures !IsCredentialPath(DefinitionPath(slug))
  {
    var d, c := DefinitionPath(slug), CredentialPath(slug);
    SuffixOfConcat("pipelines/" + slug, ".yaml");
    SuffixOfConcat("pipelines/" + slug, ".credentials.age");
    assert |d| >= 16 ==> d[|d| - 16..][15] == d[|d| - 1] == 'l';
  }

  /** Every desired definition belongs to a pipeline, at that pipeline's path. */
  lemma {:induction false} DefinitionOwner(all: seq<Pipeline>, ps: seq<Pipeline>, path: Path) returns (p: Pipeline)
    requires Renderable(ps) && path in Definitions(all, ps)
    ensures p in ps && path == DefinitionPath(FileSlug(all, p))
    ensures Definitions(all, ps)[path] == DefinitionFile(p.id, Render(p))
  {
    var last := ps[|ps| - 1];
    if path == DefinitionPath(FileSlug(all, last)) {
      p := last;
    } else {
      p := DefinitionOwner(all, ps[..|ps| - 1], path);
    }
  }

  lemma {:induction false} CredentialOwner(env: Env, b: Books, all: seq<Pipeline>, ps: seq<Pipeline>, path: Path) returns (p: Pipeline)
    requires path in CredentialFiles(env, b, all, ps)
    ensures p in ps && path == CredentialPath(FileSlug(all, p))
    ensures CredentialFileOf(env, b, p) == Some(CredentialFiles(env, b, all, ps)[path])
  {
    var last := ps[|ps| - 1];
    if CredentialFileOf(env, b, last).Some? && path == CredentialPath(FileSlug(all, last)) {
      p := last;
    } else {
      p := CredentialOwner(env, b, all, ps[..|ps| - 1], path);
    }
  }

  lemma PlanIsWellFormed(env: Env, b: Books, ps: seq<Pipeline>)
    requires DistinctIds(ps) && Renderable(ps)
    ensures WellPlanned(MakePlan(env, b, ps))
  {
    var plan := MakePlan(env, b, ps);
    forall x | x in plan.desired ensures IsDefinitionPath(x) {
      var p := DefinitionOwner(ps, ps, x);
      PathShapes(FileSlug(ps, p));
    }
    forall x, y | x in plan.desired && y in plan.desired && x != y ensures plan.desired[x].id != plan.desired[y].id {
      var p := DefinitionOwner(ps, ps, x);
      var q := DefinitionOwner(ps, ps, y);
    }
    if env.ageWired && env.ageKey.Some? {
      CredentialPlanIsWellFormed(env, b, ps);
      assert plan.credentials == Some(CredentialFiles(env, b, ps, ps));
    }
  }

  lemma CredentialPathOwned(env: Env, b: Books, ps: seq<Pipeline>, x: Path)
    requires x in CredentialFiles(env, b, ps, ps)
    ensures IsCredentialPath(x)
  {
    var p := CredentialOwner(env, b, ps, ps, x);
    PathShapes(FileSlug(ps, p));
  }

  lemma CredentialPathsDiffer(env: Env, b: Books, ps: seq<Pipeline>, x: Path, y: Path)
    requires DistinctIds(ps) && x in CredentialFiles(env, b, ps, ps) && y in CredentialFiles(env, b, ps, ps) && x != y
    ensures CredentialFiles(env, b, ps, ps)[x].id != CredentialFiles(env, b, ps, ps)[y].id
  {
    var p, i := CredentialRenderer(env, b, ps, x);
    var q, j := CredentialRenderer(env, b, ps, y);
    assert i != j;
  }

  /** The pipeline a credential file belongs to, and its place in the list. */
  lemma CredentialRenderer(env: Env, b: Books, ps: seq<Pipeline>, x: Path) returns (p: Pipeline, i: nat)
    requires x in CredentialFiles(env, b, ps, ps)
    ensures i < |ps| && p == ps[i] && CredentialFiles(env, b, ps, ps)[x].id == p.id && x == AgePath(ps, p)
  {
    p := CredentialOwner(env, b, ps, ps, x);
    i :| 0 <= i < |ps| && ps[i] == p;
  }

  lemma CredentialPlanIsWellFormed(env: Env, b: Books, ps: seq<Pipeline>)
    requires DistinctIds(ps)
    ensures var c := CredentialFiles(env, b, ps, ps);
            && (forall x :: x in c ==> IsCredentialPath(x))
            && (forall x, y :: x in c && y in c && x != y ==> c[x].id != c[y].id)
  {
    var c := CredentialFiles(env, b, ps, ps);
    forall x | x in c ensures IsCredentialPath(x) {
      CredentialPathOwned(env, b, ps, x);
    }
    forall x, y | x in c && y in c && x != y ensures c[x].id != c[y].id {
      CredentialPathsDiffer(env, b, ps, x, y);
    }
  }

  lemma PlanIsFresh(env: Env, b: Books)
    requires TableOk(b) && Renderable(Rendered(env, b))
    ensures Fresh(env.wiring, MakePlan(env, b, Rendered(env, b)), b)
  {
    var ps := Rendered(env, b);
    var plan := MakePlan(env, b, ps);
    forall x | x in plan.desired ensures plan.desired[x].id in b.rows {
      var p := DefinitionOwner(ps, ps, x);
      RenderedRow(env, b, p);
    }
    if env.ageWired && env.ageKey.Some? {
      var c := plan.credentials.value;
      forall x | x in c ensures c[x].id in b.rows && c[x].external == b.rows[c[x].id].credentialsExternal {
        var p := CredentialOwner(env, b, ps, ps, x);
        RenderedRow(env, b, p);
      }
    }
  }

  // ---- Raising ownership flags does not change what is desired ----

  ghost predicate SameButFlag(p: Pipeline, q: Pipeline) {
    q == p.(credentialsExternal := q.credentialsExternal)
  }

  ghost predicate SameListButFlags(ps: seq<Pipeline>, qs: seq<Pipeline>) {
    |ps| == |qs| && forall i :: 0 <= i < |ps| ==> SameButFlag(ps[i], qs[i])
  }

  lemma {:induction false} ResolveIgnoresFlags(env: Env, ps: seq<Pipeline>, qs: seq<Pipeline>)
    requires SameListButFlags(ps, qs)
    ensures SameListButFlags(ResolveAll(env, ps), ResolveAll(env, qs))
  {
    if ps != [] {
      ResolveIgnoresFlags(env, ps[..|ps| - 1], qs[..|qs| - 1]);
      var p, q := ps[|ps| - 1], qs[|qs| - 1];
      assert SameButFlag(p, q);
    }
  }

  ghost predicate SameIdAndName(p: Pipeline, q: Pipeline) {
    p.id == q.id && p.name == q.name
  }

  ghost predicate SameNames(ps: seq<Pipeline>, qs: seq<Pipeline>) {
    |ps| == |qs| && forall i :: 0 <= i < |ps| ==> SameIdAndName(ps[i], qs[i])
  }

  lemma SharedByName(ps: seq<Pipeline>, qs: seq<Pipeline>, p: Pipeline, q: Pipeline)
    requires SameNames(ps, qs) && SameIdAndName(p, q)
    ensures Shared(ps, p) ==> Shared(qs, q)
  {
    if Shared(ps, p) {
      var r :| r in ps && r.id != p.id && BaseSlug(r) == BaseSlug(p);
      var i :| 0 <= i < |ps| && ps[i] == r;
      assert SameIdAndName(ps[i], qs[i]);
      assert qs[i] in qs && BaseSlug(qs[i]) == BaseSlug(q);
    }
  }

  /** File slugs are a matter of ids and names alone. */
  lemma SlugByName(ps: seq<Pipeline>, qs: seq<Pipeline>, p: Pipeline, q: Pipeline)
    requires SameNames(ps, qs) && SameIdAndName(p, q)
    ensures FileSlug(ps, p) == FileSlug(qs, q)
  {
    SharedByName(ps, qs, p, q);
    SharedByName(qs, ps, q, p);
  }

  lemma SlugIgnoresFlags(ps: seq<Pipeline>, qs: seq<Pipeline>, p: Pipeline, q: Pipeline)
    requires SameListButFlags(ps, qs) && SameButFlag(p, q)
    ensures FileSlug(ps, p) == FileSlug(qs, q)
  {
    forall i | 0 <= i < |ps| ensures SameIdAndName(ps[i], qs[i]) {
      assert SameButFlag(ps[i], qs[i]);
    }
    SlugByName(ps, qs, p, q);
  }

  lemma {:induction false} DefinitionsIgnoreFlags(all: seq<Pipeline>, all': seq<Pipeline>, ps: seq<Pipeline>, qs: seq<Pipeline>)
    requires SameListButFlags(all, all') && SameListButFlags(ps, qs) && Renderable(ps)
    ensures Renderable(qs) && Definitions(all, ps) == Definitions(all', qs)
  {
    forall q | q in qs ensures ConfigFields(q.sourceConfig).Some? {
      var i :| 0 <= i < |qs| && qs[i] == q;
      assert SameButFlag(ps[i], qs[i]);
    }
    if ps != [] {
      DefinitionsIgnoreFlags(all, all', ps[..|ps| - 1], qs[..|qs| - 1]);
      assert SameButFlag(ps[|ps| - 1], qs[|qs| - 1]);
      SlugIgnoresFlags(all, all', ps[|ps| - 1], qs[|qs| - 1]);
    }
  }

  /** How a raised flag shows in the credential files: the same paths and owners, and
      every file still rendered here unchanged. */
  ghost predicate Reflagged(c: map<Path, CredentialFile>, c': map<Path, CredentialFile>) {
    c'.Keys == c.Keys && forall p :: p in c ==> c'[p].id == c[p].id && (!c'[p].external ==> c'[p] == c[p])
  }

  /** One more file, at the same path on both sides. */
  lemma ReflaggedPut(c: map<Path, CredentialFile>, c': map<Path, CredentialFile>, path: Path, cf: CredentialFile, cf': CredentialFile)
    requires Reflagged(c, c') && cf'.id == cf.id && (!cf'.external ==> cf' == cf)
    ensures Reflagged(c[path := cf], c'[path := cf'])
  {
  }

  /** A pipeline's file under raised flags. */
  lemma CredentialFileReflagged(env: Env, b: Books, b': Books, p: Pipeline, q: Pipeline)
    requires SameButFlag(p, q) && Row(b', p.id).credentials == Row(b, p.id).credentials
    requires (p.credentialsExternal ==> q.credentialsExternal) && (CredentialFileOf(env, b, p).None? ==> !q.credentialsExternal)
    ensures var cf, cf' := CredentialFileOf(env, b, p), CredentialFileOf(env, b', q);
            cf.Some? == cf'.Some? && (cf.Some? ==> cf'.value.id == cf.value.id && (!cf'.value.external ==> cf'.value == cf.value))
  {
  }

  lemma {:induction false} CredentialsReflagged(env: Env, b: Books, b': Books, all: seq<Pipeline>, all': seq<Pipeline>,
                                                ps: seq<Pipeline>, qs: seq<Pipeline>)
    requires SameListButFlags(all, all') && SameListButFlags(ps, qs)
    requires forall i :: 0 <= i < |ps| ==> Row(b', ps[i].id).credentials == Row(b, ps[i].id).credentials
    requires forall i :: 0 <= i < |ps| && ps[i].credentialsExternal ==> qs[i].credentialsExternal
    requires forall i :: 0 <= i < |ps| && CredentialFileOf(env, b, ps[i]).None? ==> !qs[i].credentialsExternal
    ensures Reflagged(CredentialFiles(env, b, all, ps), CredentialFiles(env, b', all', qs))
  {
    if ps != [] {
      var n := |ps| - 1;
      var p, q := ps[n], qs[n];
      CredentialsReflagged(env, b, b', all, all', ps[..n], qs[..n]);
      assert SameButFlag(p, q);
      SlugIgnoresFlags(all, all', p, q);
      CredentialFileReflagged(env, b, b', p, q);
      var cf, cf' := CredentialFileOf(env, b, p), CredentialFileOf(env, b', q);
      if cf.Some? {
        ReflaggedPut(CredentialFiles(env, b, all, ps[..n]), CredentialFiles(env, b', all', qs[..n]),
                     CredentialPath(FileSlug(all, p)), cf.value, cf'.value);
      }
    }
  }

  // ---- The table across converges, whatever the environment does ----

  /** All a converge may do to the database. */
  ghost predicate Evolves(b: Books, b': Books) {
    RowsKept(b, b') && b'.defs.Keys <= b.defs.Keys + b.rows.Keys && b'.creds.Keys <= b.creds.Keys + b.rows.Keys
  }

  lemma EvolvesTransitive(a: Books, b: Books, c: Books)
    requires Evolves(a, b) && Evolves(b, c)
    ensures Evolves(a, c)
  {
  }

  lemma EvolvesKeepsTable(b: Books, b': Books)
    requires TableOk(b) && Evolves(b, b')
    ensures TableOk(b')
  {
  }

  lemma UpsertFileEvolves(cfg: Wiring, w: World, path: Path, df: DefinitionFile, existing: map<Path, Sha>, defRows: map<PipelineID, DefRender>)
    ensures Evolves(w.books, UpsertFile(cfg, w, path, df, existing, defRows).world.books)
  {
    assert forall blob :: Evolves(w.books, RecordDefinition(cfg, w.books, df.id, path, blob));
  }

  lemma {:induction false} UpsertFilesEvolves(cfg: Wiring, w: World, paths: seq<Path>, plan: Plan, existing: map<Path, Sha>)
    requires forall p :: p in paths ==> p in plan.desired
    ensures Evolves(w.books, UpsertFiles(cfg, w, paths, plan, existing).world.books)
    decreases |paths|
  {
    if paths != [] {
      UpsertFileEvolves(cfg, w, paths[0], plan.desired[paths[0]], existing, plan.defRows);
      var s := UpsertFile(cfg, w, paths[0], plan.desired[paths[0]], existing, plan.defRows);
      if s.outcome.Done? {
        UpsertFilesEvolves(cfg, s.world, paths[1..], plan, existing);
        EvolvesTransitive(w.books, s.world.books, UpsertFiles(cfg, s.world, paths[1..], plan, existing).world.books);
      }
    }
  }

  lemma {:induction false} DeletesKeepBooks(w: World, paths: seq<Path>, existing: map<Path, Sha>, keep: set<Path>)
    requires forall p :: p in paths ==> p in existing
    ensures DeleteStaleRendered(w, paths, existing, keep).world.books == w.books
    ensures DeleteStale(w, paths, existing, keep).world.books == w.books
    decreases |paths|
  {
    if paths != [] {
      var s := if paths[0] in keep then Step(w, Done) else DeleteRendered(w, paths[0], existing[paths[0]]);
      if s.outcome.Done? { DeletesKeepBooks(s.world, paths[1..], existing, keep); }
      var t := if paths[0] in keep then Step(w, Done) else DeleteOne(w, paths[0], existing[paths[0]]);
      if t.outcome.Done? { DeletesKeepBooks(t.world, paths[1..], existing, keep); }
    }
  }

  lemma {:induction false} UpsertCredentialFilesEvolves(cfg: Wiring, w: World, paths: seq<Path>, files: map<Path, CredentialFile>,
                                                        plan: Plan, existing: map<Path, Sha>)
    requires forall p :: p in paths ==> p in files
    ensures Evolves(w.books, UpsertCredentialFiles(cfg, w, paths, files, plan, existing).world.books)
    decreases |paths|
  {
    if paths != [] {
      var s := UpsertCredentialFile(cfg, w, paths[0], files[paths[0]], plan.recipient, plan.credRows, existing);
      assert Evolves(w.books, s.world.books);
      if s.outcome.Done? {
        UpsertCredentialFilesEvolves(cfg, s.world, paths[1..], files, plan, existing);
        EvolvesTransitive(w.books, s.world.books, UpsertCredentialFiles(cfg, s.world, paths[1..], files, plan, existing).world.books);
      }
    }
  }

  lemma ConvergeDefinitionsEvolves(cfg: Wiring, w: World, plan: Plan, yaml: map<Path, Sha>)
    ensures Evolves(w.books, ConvergeDefinitions(cfg, w, plan, yaml).world.books)
  {
    SortedEnumerates(plan.desired.Keys);
    SortedEnumerates(yaml.Keys);
    UpsertFilesEvolves(cfg, w, Sorted(plan.desired.Keys), plan, yaml);
    var mid := UpsertFiles(cfg, w, Sorted(plan.desired.Keys), plan, yaml);
    if mid.outcome.Done? {
      DeletesKeepBooks(mid.world, Sorted(yaml.Keys), yaml, plan.desired.Keys);
    }
  }

  lemma ConvergeCredentialsEvolves(cfg: Wiring, w: World, files: map<Path, CredentialFile>, plan: Plan, age: map<Path, Sha>)
    ensures Evolves(w.books, ConvergeCredentials(cfg, w, files, plan, age).world.books)
  {
    SortedEnumerates(files.Keys);
    SortedEnumerates(age.Keys);
    UpsertCredentialFilesEvolves(cfg, w, Sorted(files.Keys), files, plan, age);
    var mid := UpsertCredentialFiles(cfg, w, Sorted(files.Keys), files, plan, age);
    if mid.outcome.Done? {
      DeletesKeepBooks(mid.world, Sorted(age.Keys), age, files.Keys);
    }
  }

  lemma ConvergeEvolves(cfg: Wiring, w: World, plan: Plan)
    ensures Evolves(w.books, Converge(cfg, w, plan).world.books)
  {
    var listed := ListTree(w.repo);
    if listed.result.Ok? {
      var tree, start := listed.result.value, World(listed.repo, w.books);
      ConvergeDefinitionsEvolves(cfg, start, plan, YamlTree(tree));
      var s := ConvergeDefinitions(cfg, start, plan, YamlTree(tree));
      if s.outcome.Done? && plan.credentials.Some? {
        ConvergeCredentialsEvolves(cfg, s.world, plan.credentials.value, plan, AgeTree(tree));
        EvolvesTransitive(w.books, s.world.books, Converge(cfg, w, plan).world.books);
      }
    }
  }

  /** Whatever happens to the repository meanwhile, a sync changes rows only by raising
      ownership flags. */
  lemma SyncEvolves(env: Env, w: World)
    ensures Evolves(w.books, SyncCustomer(env, w).world.books)
  {
    var ps := Rendered(env, w.books);
    if Renderable(ps) {
      var plan := MakePlan(env, w.books, ps);
      ConvergeEvolves(env.wiring, w, plan);
      var s := Converge(env.wiring, w, plan);
      ConvergeEvolves(env.wiring, s.world, plan);
      EvolvesTransitive(w.books, s.world.books, Converge(env.wiring, s.world, plan).world.books);
    }
  }

  // ---- The second sync ----

  lemma EvolvedList(b: Books, b': Books)
    requires TableOk(b) && RowsKept(b, b')
    ensures SameListButFlags(List(b), List(b'))
  {
    var ps, qs := List(b), List(b');
    forall i | 0 <= i < |ps| ensures SameButFlag(ps[i], qs[i]) {
      assert b.order[i] in b.order;
    }
  }

  lemma RefreshedCredentials(env: Env, b: Books, b': Books)
    requires TableOk(b) && RowsKept(b, b') && TableOk(b')
    requires forall r :: r in Rendered(env, b) && CredentialFileOf(env, b, r).None? ==> Lookup(b'.rows, r.id) == Lookup(b.rows, r.id)
    ensures var ps, qs := Rendered(env, b), Rendered(env, b');
            Reflagged(CredentialFiles(env, b, ps, ps), CredentialFiles(env, b', qs, qs))
  {
    var ps, qs := Rendered(env, b), Rendered(env, b');
    EvolvedList(b, b');
    ResolveIgnoresFlags(env, List(b), List(b'));
    forall i | 0 <= i < |ps|
      ensures Row(b', ps[i].id).credentials == Row(b, ps[i].id).credentials
      ensures ps[i].credentialsExternal ==> qs[i].credentialsExternal
      ensures CredentialFileOf(env, b, ps[i]).None? ==> !qs[i].credentialsExternal
    {
      assert SameButFlag(ps[i], qs[i]);
      RenderedRow(env, b, ps[i]);
      RenderedRow(env, b', qs[i]);
    }
    CredentialsReflagged(env, b, b', ps, qs, ps, qs);
  }

  lemma SameIdSamePipeline(ps: seq<Pipeline>, p: Pipeline, q: Pipeline)
    requires DistinctIds(ps) && p in ps && q in ps && p.id == q.id
    ensures p == q
  {
  }

  lemma NoFileNoOwner(env: Env, b: Books, ps: seq<Pipeline>, r: Pipeline)
    requires DistinctIds(ps) && r in ps && CredentialFileOf(env, b, r).None?
    ensures !Owns(CredentialFiles(env, b, ps, ps), r.id)
  {
    var c := CredentialFiles(env, b, ps, ps);
    forall path | path in c ensures c[path].id != r.id {
      var p := CredentialOwner(env, b, ps, ps, path);
      assert c[path].id == p.id;
      if p.id == r.id { SameIdSamePipeline(ps, p, r); }
    }
  }

  lemma PlanRefreshed(env: Env, w: World)
    requires Quiet(w.repo) && TableOk(w.books) && Renderable(Rendered(env, w.books))
    ensures var plan := MakePlan(env, w.books, Rendered(env, w.books));
            var b' := Converge(env.wiring, w, plan).world.books;
            && TableOk(b') && Renderable(Rendered(env, b'))
            && Refreshed(env.wiring, plan, MakePlan(env, b', Rendered(env, b')), b')
  {
    var b, ps := w.books, Rendered(env, w.books);
    var plan := MakePlan(env, b, ps);
    RenderedDistinct(env, b);
    PlanIsWellFormed(env, b, ps);
    ConvergeKeepsBooks(env.wiring, w, plan);
    ConvergeEvolves(env.wiring, w, plan);
    var b' := Converge(env.wiring, w, plan).world.books;
    EvolvesKeepsTable(b, b');
    EvolvedList(b, b');
    ResolveIgnoresFlags(env, List(b), List(b'));
    var qs := Rendered(env, b');
    DefinitionsIgnoreFlags(ps, qs, ps, qs);
    if env.ageWired && env.ageKey.Some? {
      forall r | r in ps && CredentialFileOf(env, b, r).None? ensures Lookup(b'.rows, r.id) == Lookup(b.rows, r.id) {
        NoFileNoOwner(env, b, ps, r);
        assert SameBooksAt(b, b', r.id);
      }
      RefreshedCredentials(env, b, b');
      PlanIsFresh(env, b');
    }
  }

  /** An undisturbed sync succeeds exactly when every source_config is renderable,
      without ever needing its retry. */
  lemma SyncIsOneConverge(env: Env, w: World)
    requires Quiet(w.repo) && TableOk(w.books)
    ensures SyncCustomer(env, w).outcome.Done? <==> Renderable(Rendered(env, w.books))
    ensures Renderable(Rendered(env, w.books)) ==>
              SyncCustomer(env, w) == Converge(env.wiring, w, MakePlan(env, w.books, Rendered(env, w.books)))
  {
    var ps := Rendered(env, w.books);
    if Renderable(ps) {
      RenderedDistinct(env, w.books);
      PlanIsWellFormed(env, w.books, ps);
      ConvergeReachesPlan(env.wiring, w, MakePlan(env, w.books, ps));
    }
  }

  /** After one undisturbed sync, from any repository and any bookkeeping, the next one
      makes no commit and writes no row, flag or notification. */
  lemma SyncIsFixedPoint(env: Env, w: World)
    requires Quiet(w.repo) && TableOk(w.books) && SyncCustomer(env, w).outcome.Done?
    ensures var s := SyncCustomer(env, w);
            var t := SyncCustomer(env, s.world);
            t.outcome.Done? && Idle(s.world, t.world)
  {
    var plan := MakePlan(env, w.books, Rendered(env, w.books));
    SyncIsOneConverge(env, w);
    RenderedDistinct(env, w.books);
    PlanIsWellFormed(env, w.books, Rendered(env, w.books));
    PlanIsFresh(env, w.books);
    PlanRefreshed(env, w);
    ConvergeReachesPlan(env.wiring, w, plan);
    var end := Converge(env.wiring, w, plan).world;
    var plan' := MakePlan(env, end.books, Rendered(env, end.books));
    ConvergeSettles(env.wiring, w, plan, plan');
    SyncIsOneConverge(env, end);
    RenderedDistinct(env, end.books);
    PlanIsWellFormed(env, end.books, Rendered(env, end.books));
    SettledIsFixedPoint(env.wiring, end, plan');
  }

  // ---- The conflict retry ----

  /** A first converge that ends in anything but a conflict is the whole sync. After a
      conflict the sync converges once more, and if nobody commits during that one, it ends
      well, with every definition in place over whatever the others had committed. */
  lemma ConflictIsRetried(env: Env, w: World)
    requires TableOk(w.books) && Renderable(Rendered(env, w.books))
    ensures var plan := MakePlan(env, w.books, Rendered(env, w.books));
            var one, s := Converge(env.wiring, w, plan), SyncCustomer(env, w);
            if one.outcome != Failed(FileChanged) then s == one
            else
              Quiet(one.world.repo) ==>
                && s.outcome.Done?
                && forall p :: !IsCredentialPath(p) ==> Lookup(s.world.repo.files, p) == DefinitionGoal(plan, one.world.repo.files, p)
  {
    var ps := Rendered(env, w.books);
    var plan := MakePlan(env, w.books, ps);
    var one := Converge(env.wiring, w, plan);
    RenderedDistinct(env, w.books);
    PlanIsWellFormed(env, w.books, ps);
    if Quiet(one.world.repo) { ConvergeReachesPlan(env.wiring, one.world, plan); }
  }

  /** Which credential files an undisturbed sync leaves: those there were while age is not
      wired, none while no key is deposited, and otherwise only those of rendered pipelines. */
  lemma CredentialFilesLeft(env: Env, w: World, x: Path)
    requires Quiet(w.repo) && TableOk(w.books) && Renderable(Rendered(env, w.books)) && IsCredentialPath(x)
    ensures var after := SyncCustomer(env, w).world.repo.files;
            && (!env.ageWired ==> Lookup(after, x) == Lookup(w.repo.files, x))
            && (env.ageWired && env.ageKey.None? ==> x !in after)
            && (env.ageWired && x in after ==> exists r :: r in Rendered(env, w.books) && x == AgePath(Rendered(env, w.books), r))
  {
    var ps := Rendered(env, w.books);
    var plan := MakePlan(env, w.books, ps);
    RenderedDistinct(env, w.books);
    PlanIsWellFormed(env, w.books, ps);
    SyncIsOneConverge(env, w);
    ConvergeReachesPlan(env.wiring, w, plan);
    if env.ageWired && env.ageKey.Some? && x in plan.credentials.value {
      var p := CredentialOwner(env, w.books, ps, ps, x);
      assert x == AgePath(ps, p);
    }
  }
}
