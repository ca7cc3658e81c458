/** What an undisturbed converge achieves, from any repository and any bookkeeping. */
module Convergence {
  import opened Basics
  import opened Domain
  import opened GitRepo
  import opened Mirror

  /** The tree listing still describes the file at p. */
  ghost predicate Agrees(existing: map<Path, Sha>, files: map<Path, Content>, p: Path) {
    Lookup(existing, p) == if p in files then Some(ShaOf(files[p])) else None
  }

  /** Desired definitions sit at definition paths, credentials at credential paths,
      and no pipeline owns two of either. */
  ghost predicate WellPlanned(plan: Plan) {
    && (forall p :: p in plan.desired ==> IsDefinitionPath(p))
    && (forall p, q :: p in plan.desired && q in plan.desired && p != q ==> plan.desired[p].id != plan.desired[q].id)
    && (plan.credentials.Some? ==>
          var c := plan.credentials.value;
          && (forall p :: p in c ==> IsCredentialPath(p))
          && (forall p, q :: p in c && q in c && p != q ==> c[p].id != c[q].id))
  }

  ghost predicate SameBesidesDefs(b: Books, b': Books) {
    b'.rows == b.rows && b'.order == b.order && b'.creds == b.creds && b'.nonce == b.nonce
  }

  // ---- Definition files ----

  ghost predicate Recorded(defs: map<PipelineID, DefRender>, id: PipelineID, path: Path, c: Content) {
    id in defs && defs[id].path == path && defs[id].blob == ShaOf(c)
  }

  lemma UpsertFileQuiet(cfg: Wiring, w: World, path: Path, df: DefinitionFile,
                        existing: map<Path, Sha>, defRows: map<PipelineID, DefRender>)
    requires Quiet(w.repo) && Agrees(existing, w.repo.files, path)
    ensures var s := UpsertFile(cfg, w, path, df, existing, defRows);
            && s.outcome.Done? && Quiet(s.world.repo)
            && s.world.repo.files == w.repo.files[path := df.content]
            && SameBesidesDefs(w.books, s.world.books)
            && (forall id :: id != df.id ==> Lookup(s.world.books.defs, id) == Lookup(w.books.defs, id))
            && (cfg.drift && df.id in w.books.rows && Lookup(defRows, df.id) == Lookup(w.books.defs, df.id)
                ==> Recorded(s.world.books.defs, df.id, path, df.content))
  {
  }

  /** Drift bookkeeping is on, and the plan read this pipeline's row afresh. */
  ghost predicate Tracked(cfg: Wiring, b: Books, plan: Plan, p: Path)
    requires p in plan.desired
  {
    var id := plan.desired[p].id;
    cfg.drift && id in b.rows && Lookup(plan.defRows, id) == Lookup(b.defs, id)
  }

  lemma {:induction false} UpsertFilesQuiet(cfg: Wiring, w: World, paths: seq<Path>, plan: Plan, existing: map<Path, Sha>)
    requires Quiet(w.repo) && NoDuplicates(paths)
    requires forall p :: p in paths ==> p in plan.desired && Agrees(existing, w.repo.files, p)
    requires forall p, q :: p in plan.desired && q in plan.desired && p != q ==> plan.desired[p].id != plan.desired[q].id
    ensures var s := UpsertFiles(cfg, w, paths, plan, existing);
            && s.outcome.Done? && Quiet(s.world.repo)
            && (forall p :: Lookup(s.world.repo.files, p) ==
                  if p in paths then Some(plan.desired[p].content) else Lookup(w.repo.files, p))
            && SameBesidesDefs(w.books, s.world.books)
            && (forall id :: (forall p :: p in paths ==> plan.desired[p].id != id)
                  ==> Lookup(s.world.books.defs, id) == Lookup(w.books.defs, id))
            && (forall p :: p in paths && Tracked(cfg, w.books, plan, p)
                  ==> Recorded(s.world.books.defs, plan.desired[p].id, p, plan.desired[p].content))
    decreases |paths|
  {
    if paths != [] {
      var p0, rest := paths[0], paths[1..];
      var df := plan.desired[p0];
      UpsertFileQuiet(cfg, w, p0, df, existing, plan.defRows);
      var mid := UpsertFile(cfg, w, p0, df, existing, plan.defRows).world;
      assert forall p :: p in paths <==> p == p0 || p in rest;
      assert p0 !in rest;
      forall p | p in rest ensures Agrees(existing, mid.repo.files, p) {}
      UpsertFilesQuiet(cfg, mid, rest, plan, existing);
    }
  }

  lemma DeleteRenderedQuiet(w: World, path: Path, treeSha: Sha)
    requires Quiet(w.repo) && path in w.repo.files && treeSha == ShaOf(w.repo.files[path])
    ensures var s := DeleteRendered(w, path, treeSha);
            && s.outcome.Done? && Quiet(s.world.repo) && s.world.books == w.books
            && s.world.repo.files == if HasHeader(w.repo.files[path]) then w.repo.files - {path} else w.repo.files
  {
  }

  lemma {:induction false} DeleteStaleRenderedQuiet(w: World, paths: seq<Path>, existing: map<Path, Sha>, keep: set<Path>)
    requires Quiet(w.repo) && NoDuplicates(paths)
    requires forall p :: p in paths ==> p in existing
    requires forall p :: p in paths && p !in keep ==> Agrees(existing, w.repo.files, p)
    ensures var s := DeleteStaleRendered(w, paths, existing, keep);
            && s.outcome.Done? && Quiet(s.world.repo) && s.world.books == w.books
            && (forall p :: Lookup(s.world.repo.files, p) ==
                  if p in paths && p !in keep && p in w.repo.files && HasHeader(w.repo.files[p]) then None
                  else Lookup(w.repo.files, p))
    decreases |paths|
  {
    if paths != [] {
      var p0, rest := paths[0], paths[1..];
      var mid := w;
      if p0 !in keep {
        DeleteRenderedQuiet(w, p0, existing[p0]);
        mid := DeleteRendered(w, p0, existing[p0]).world;
      }
      assert forall p :: p in paths <==> p == p0 || p in rest;
      assert p0 !in rest;
      forall p | p in rest && p !in keep ensures Agrees(existing, mid.repo.files, p) {}
      DeleteStaleRenderedQuiet(mid, rest, existing, keep);
    }
  }

  /** Where the definition half of a converge leaves every path. */
  ghost function DefinitionGoal(plan: Plan, files: map<Path, Content>, p: Path): Option<Content> {
    if p in plan.desired then Some(plan.desired[p].content)
    else if IsDefinitionPath(p) && p in files && HasHeader(files[p]) then None
    else Lookup(files, p)
  }

  lemma ConvergeDefinitionsQuiet(cfg: Wiring, w: World, plan: Plan)
    requires Quiet(w.repo) && WellPlanned(plan)
    ensures var s := ConvergeDefinitions(cfg, w, plan, YamlTree(Tree(w.repo.files)));
            && s.outcome.Done? && Quiet(s.world.repo)
            && (forall p :: Lookup(s.world.repo.files, p) == DefinitionGoal(plan, w.repo.files, p))
            && SameBesidesDefs(w.books, s.world.books)
            && (forall p :: p in plan.desired && Tracked(cfg, w.books, plan, p)
                  ==> Recorded(s.world.books.defs, plan.desired[p].id, p, plan.desired[p].content))
  {
    var yaml := YamlTree(Tree(w.repo.files));
    var paths, stale := Sorted(plan.desired.Keys), Sorted(yaml.Keys);
    SortedEnumerates(plan.desired.Keys);
    SortedEnumerates(yaml.Keys);
    UpsertFilesQuiet(cfg, w, paths, plan, yaml);
    var mid := UpsertFiles(cfg, w, paths, plan, yaml).world;
    forall p | p in stale && p !in plan.desired.Keys ensures Agrees(yaml, mid.repo.files, p) {
      assert Lookup(mid.repo.files, p) == Lookup(w.repo.files, p);
    }
    DeleteStaleRenderedQuiet(mid, stale, yaml, plan.desired.Keys);
    var s := DeleteStaleRendered(mid, stale, yaml, plan.desired.Keys);
    forall p ensures Lookup(s.world.repo.files, p) == DefinitionGoal(plan, w.repo.files, p) {
      assert Lookup(mid.repo.files, p) == if p in paths then Some(plan.desired[p].content) else Lookup(w.repo.files, p);
    }
  }

  // ---- Credential files ----

  /** The converge leaves this credential file alone. */
  ghost predicate Keeps(cfg: Wiring, cf: CredentialFile, plan: Plan, treeSha: Option<Sha>) {
    cf.external ||
    (treeSha.Some? &&
     var row := Lookup(plan.credRows, cf.id);
     Current(row, Fingerprint(plan.recipient, cf.plaintext), treeSha.value) || Foreign(cfg, row, treeSha.value))
  }

  /** ... because somebody else committed it. */
  ghost predicate HandsOver(cfg: Wiring, cf: CredentialFile, plan: Plan, treeSha: Option<Sha>) {
    && !cf.external && treeSha.Some?
    && !Current(Lookup(plan.credRows, cf.id), Fingerprint(plan.recipient, cf.plaintext), treeSha.value)
    && Foreign(cfg, Lookup(plan.credRows, cf.id), treeSha.value)
  }

  ghost predicate Encrypts(c: Option<Content>, plan: Plan, cf: CredentialFile) {
    c.Some? && c.value.Age? && c.value.recipient == plan.recipient && c.value.plaintext == cf.plaintext
  }

  /** Rows change in nothing but the ownership flag, which is only ever raised. */
  ghost predicate OnlyFlagsRaised(b: Books, b': Books) {
    && b'.order == b.order && b'.defs == b.defs && b'.rows.Keys == b.rows.Keys
    && (forall id :: id in b.rows ==>
          b'.rows[id] == b.rows[id] || b'.rows[id] == b.rows[id].(credentialsExternal := true))
  }

  /** What one credential file's turn leaves behind, in the file and in the books. */
  ghost predicate CredentialOutcome(cfg: Wiring, cf: CredentialFile, plan: Plan, treeSha: Option<Sha>,
                                    before: Option<Content>, after: Option<Content>, b: Books)
  {
    && (if Keeps(cfg, cf, plan, treeSha) then after == before else Encrypts(after, plan, cf))
    && (cf.id in b.rows && HandsOver(cfg, cf, plan, treeSha) ==> b.rows[cf.id].credentialsExternal)
    && (cf.id in b.rows && !Keeps(cfg, cf, plan, treeSha) ==>
          && after.Some?
          && Lookup(b.creds, cf.id) == Some(CredRender(Fingerprint(plan.recipient, cf.plaintext), ShaOf(after.value))))
  }

  ghost predicate SameBooksAt(b: Books, b': Books, id: PipelineID) {
    Lookup(b'.creds, id) == Lookup(b.creds, id) && Lookup(b'.rows, id) == Lookup(b.rows, id)
  }

  lemma UpsertCredentialFileQuiet(cfg: Wiring, w: World, path: Path, cf: CredentialFile, plan: Plan,
                                  existing: map<Path, Sha>)
    requires Quiet(w.repo) && Agrees(existing, w.repo.files, path)
    ensures var s := UpsertCredentialFile(cfg, w, path, cf, plan.recipient, plan.credRows, existing);
            && s.outcome.Done? && Quiet(s.world.repo)
            && (forall p :: p != path ==> Lookup(s.world.repo.files, p) == Lookup(w.repo.files, p))
            && CredentialOutcome(cfg, cf, plan, Lookup(existing, path), Lookup(w.repo.files, path),
                                 Lookup(s.world.repo.files, path), s.world.books)
            && OnlyFlagsRaised(w.books, s.world.books)
            && (forall id :: id != cf.id ==> SameBooksAt(w.books, s.world.books, id))
            && (Keeps(cfg, cf, plan, Lookup(existing, path)) ==> s.world.books.creds == w.books.creds)
  {
  }

  lemma {:induction false} UpsertCredentialFilesFrame(cfg: Wiring, w: World, paths: seq<Path>, files: map<Path, CredentialFile>,
                                                      plan: Plan, existing: map<Path, Sha>)
    requires Quiet(w.repo) && NoDuplicates(paths)
    requires forall p :: p in paths ==> p in files && Agrees(existing, w.repo.files, p)
    ensures var s := UpsertCredentialFiles(cfg, w, paths, files, plan, existing);
            && s.outcome.Done? && Quiet(s.world.repo)
            && (forall p :: p !in paths ==> Lookup(s.world.repo.files, p) == Lookup(w.repo.files, p))
            && OnlyFlagsRaised(w.books, s.world.books)
            && (forall id :: (forall p :: p in paths ==> files[p].id != id) ==> SameBooksAt(w.books, s.world.books, id))
    decreases |paths|
  {
    if paths != [] {
      var p0, rest := paths[0], paths[1..];
      UpsertCredentialFileQuiet(cfg, w, p0, files[p0], plan, existing);
      var mid := UpsertCredentialFile(cfg, w, p0, files[p0], plan.recipient, plan.credRows, existing).world;
      assert forall p :: p in paths <==> p == p0 || p in rest;
      assert p0 !in rest;
      forall p | p in rest ensures Agrees(existing, mid.repo.files, p) {
        assert Lookup(mid.repo.files, p) == Lookup(w.repo.files, p);
      }
      UpsertCredentialFilesFrame(cfg, mid, rest, files, plan, existing);
      var end := UpsertCredentialFiles(cfg, mid, rest, files, plan, existing).world;
      forall id | forall p :: p in paths ==> files[p].id != id ensures SameBooksAt(w.books, end.books, id) {
        assert SameBooksAt(w.books, mid.books, id) && SameBooksAt(mid.books, end.books, id);
      }
    }
  }

  lemma {:induction false} UpsertCredentialFilesAt(cfg: Wiring, w: World, paths: seq<Path>, files: map<Path, CredentialFile>,
                                                   plan: Plan, existing: map<Path, Sha>, p: Path)
    requires Quiet(w.repo) && NoDuplicates(paths)
    requires forall p :: p in paths ==> p in files && Agrees(existing, w.repo.files, p)
    requires forall p, q :: p in files && q in files && p != q ==> files[p].id != files[q].id
    requires p in paths
    ensures var s := UpsertCredentialFiles(cfg, w, paths, files, plan, existing);
            && CredentialOutcome(cfg, files[p], plan, Lookup(existing, p), Lookup(w.repo.files, p),
                                 Lookup(s.world.repo.files, p), s.world.books)
            && (Keeps(cfg, files[p], plan, Lookup(existing, p)) ==>
                  Lookup(s.world.books.creds, files[p].id) == Lookup(w.books.creds, files[p].id))
    decreases |paths|
  {
    var p0, rest := paths[0], paths[1..];
    UpsertCredentialFileQuiet(cfg, w, p0, files[p0], plan, existing);
    var mid := UpsertCredentialFile(cfg, w, p0, files[p0], plan.recipient, plan.credRows, existing).world;
    assert forall p :: p in paths <==> p == p0 || p in rest;
    assert p0 !in rest;
    forall p | p in rest ensures Agrees(existing, mid.repo.files, p) {
      assert Lookup(mid.repo.files, p) == Lookup(w.repo.files, p);
    }
    UpsertCredentialFilesFrame(cfg, mid, rest, files, plan, existing);
    if p == p0 {
      var end := UpsertCredentialFiles(cfg, mid, rest, files, plan, existing).world;
      assert SameBooksAt(mid.books, end.books, files[p0].id);
    } else {
      UpsertCredentialFilesAt(cfg, mid, rest, files, plan, existing, p);
      assert SameBooksAt(w.books, mid.books, files[p].id);
    }
  }

  lemma {:induction false} DeleteStaleQuiet(w: World, paths: seq<Path>, existing: map<Path, Sha>, keep: set<Path>)
    requires Quiet(w.repo) && NoDuplicates(paths)
    requires forall p :: p in paths ==> p in existing
    requires forall p :: p in paths && p !in keep ==> Agrees(existing, w.repo.files, p)
    ensures var s := DeleteStale(w, paths, existing, keep);
            && s.outcome.Done? && Quiet(s.world.repo) && s.world.books == w.books
            && (forall p :: Lookup(s.world.repo.files, p) ==
                  if p in paths && p !in keep then None else Lookup(w.repo.files, p))
    decreases |paths|
  {
    if paths != [] {
      var p0, rest := paths[0], paths[1..];
      var mid := if p0 in keep then w else DeleteOne(w, p0, existing[p0]).world;
      assert forall p :: p in paths <==> p == p0 || p in rest;
      assert p0 !in rest;
      forall p | p in rest && p !in keep ensures Agrees(existing, mid.repo.files, p) {}
      DeleteStaleQuiet(mid, rest, existing, keep);
    }
  }

  lemma ConvergeCredentialsQuiet(cfg: Wiring, w: World, files: map<Path, CredentialFile>, plan: Plan, age: map<Path, Sha>)
    requires Quiet(w.repo)
    requires forall p :: p in files ==> IsCredentialPath(p)
    requires forall p, q :: p in files && q in files && p != q ==> files[p].id != files[q].id
    requires forall p :: IsCredentialPath(p) ==> Agrees(age, w.repo.files, p)
    requires forall p :: p in age ==> IsCredentialPath(p)
    ensures var s := ConvergeCredentials(cfg, w, files, plan, age);
            && s.outcome.Done? && Quiet(s.world.repo)
            && (forall p :: !IsCredentialPath(p) ==> Lookup(s.world.repo.files, p) == Lookup(w.repo.files, p))
            && (forall p :: IsCredentialPath(p) && p !in files ==> p !in s.world.repo.files)
            && (forall p :: p in files ==>
                  CredentialOutcome(cfg, files[p], plan, Lookup(age, p), Lookup(w.repo.files, p),
                                    Lookup(s.world.repo.files, p), s.world.books))
            && (forall p :: p in files && Keeps(cfg, files[p], plan, Lookup(age, p)) ==>
                  Lookup(s.world.books.creds, files[p].id) == Lookup(w.books.creds, files[p].id))
            && OnlyFlagsRaised(w.books, s.world.books)
            && (forall id :: (forall p :: p in files ==> files[p].id != id) ==> SameBooksAt(w.books, s.world.books, id))
  {
    var paths, stale := Sorted(files.Keys), Sorted(age.Keys);
    SortedEnumerates(files.Keys);
    SortedEnumerates(age.Keys);
    UpsertCredentialFilesFrame(cfg, w, paths, files, plan, age);
    var mid := UpsertCredentialFiles(cfg, w, paths, files, plan, age).world;
    forall p | p in files
      ensures CredentialOutcome(cfg, files[p], plan, Lookup(age, p), Lookup(w.repo.files, p), Lookup(mid.repo.files, p), mid.books)
      ensures Keeps(cfg, files[p], plan, Lookup(age, p)) ==>
                Lookup(mid.books.creds, files[p].id) == Lookup(w.books.creds, files[p].id)
    {
      UpsertCredentialFilesAt(cfg, w, paths, files, plan, age, p);
    }
    forall p | p in stale && p !in files.Keys ensures Agrees(age, mid.repo.files, p) {
      assert Lookup(mid.repo.files, p) == Lookup(w.repo.files, p);
    }
    DeleteStaleQuiet(mid, stale, age, files.Keys);
    var s := DeleteStale(mid, stale, age, files.Keys);
    forall p | IsCredentialPath(p) && p !in files ensures p !in s.world.repo.files {
      assert Lookup(mid.repo.files, p) == Lookup(w.repo.files, p);
      assert Lookup(s.world.repo.files, p) == None;
    }
    forall p | p in files ensures Lookup(s.world.repo.files, p) == Lookup(mid.repo.files, p) {}
  }

  /** Whatever the repository and the bookkeeping held before, an undisturbed converge
      succeeds and leaves
      - every desired definition path holding exactly its render,
      - no other definition file that opens with the rendered header, and every one
        that does not, untouched,
      - credential files the plan does not name gone, the ones it leaves to the box or
        finds current untouched, and the rest freshly encrypted to the recipient,
      - everything outside those two shapes as it was. */
  lemma ConvergeReachesPlan(cfg: Wiring, w: World, plan: Plan)
    requires Quiet(w.repo) && WellPlanned(plan)
    ensures var s := Converge(cfg, w, plan);
            var before, after := w.repo.files, s.world.repo.files;
            && s.outcome.Done? && Quiet(s.world.repo)
            && (forall p :: !IsCredentialPath(p) ==> Lookup(after, p) == DefinitionGoal(plan, before, p))
            && (plan.credentials.None? ==> forall p :: IsCredentialPath(p) ==> Lookup(after, p) == Lookup(before, p))
            && (plan.credentials.Some? ==> forall p :: IsCredentialPath(p) ==>
                  if p !in plan.credentials.value then p !in after
                  else CredentialOutcome(cfg, plan.credentials.value[p], plan, Lookup(Tree(before), p),
                                         Lookup(before, p), Lookup(after, p), s.world.books))
  {
    var tree := Tree(w.repo.files);
    var start := World(ListTree(w.repo).repo, w.books);
    ConvergeDefinitionsQuiet(cfg, start, plan);
    var mid := ConvergeDefinitions(cfg, start, plan, YamlTree(tree)).world;
    assert Lookup(Tree(w.repo.files), "") == Lookup(tree, "");
    forall p | IsCredentialPath(p) ensures Lookup(mid.repo.files, p) == Lookup(w.repo.files, p) {
      assert Lookup(mid.repo.files, p) == DefinitionGoal(plan, w.repo.files, p);
    }
    if plan.credentials.Some? {
      var files, age := plan.credentials.value, AgeTree(tree);
      forall p | IsCredentialPath(p) ensures Agrees(age, mid.repo.files, p) {
        assert Lookup(mid.repo.files, p) == Lookup(w.repo.files, p);
      }
      ConvergeCredentialsQuiet(cfg, mid, files, plan, age);
      forall p | IsCredentialPath(p) ensures Lookup(age, p) == Lookup(tree, p) {}
    }
  }

  /** Rows change in nothing but a raised ownership flag. */
  ghost predicate RowsKept(b: Books, b': Books) {
    && b'.order == b.order && b'.rows.Keys == b.rows.Keys
    && (forall id :: id in b.rows ==>
          b'.rows[id] == b.rows[id] || b'.rows[id] == b.rows[id].(credentialsExternal := true))
  }

  /** Some credential file of the plan belongs to the pipeline. */
  ghost predicate Owns(c: map<Path, CredentialFile>, id: PipelineID) {
    exists p :: p in c && c[p].id == id
  }

  /** The bookkeeping side of the same converge: renders recorded, rows kept, and the
      credential row of every file left alone as it was. */
  lemma ConvergeKeepsBooks(cfg: Wiring, w: World, plan: Plan)
    requires Quiet(w.repo) && WellPlanned(plan)
    ensures var b := Converge(cfg, w, plan).world.books;
            && RowsKept(w.books, b)
            && (forall p :: p in plan.desired && Tracked(cfg, w.books, plan, p)
                  ==> Recorded(b.defs, plan.desired[p].id, p, plan.desired[p].content))
            && (plan.credentials.Some? ==>
                  var c := plan.credentials.value;
                  forall p :: p in c && Keeps(cfg, c[p], plan, Lookup(Tree(w.repo.files), p)) ==>
                    Lookup(b.creds, c[p].id) == Lookup(w.books.creds, c[p].id))
            && (plan.credentials.None? ==> b.creds == w.books.creds && b.rows == w.books.rows)
            && (forall id :: plan.credentials.Some? && !Owns(plan.credentials.value, id) ==> SameBooksAt(w.books, b, id))
  {
    var tree := Tree(w.repo.files);
    var start := World(ListTree(w.repo).repo, w.books);
    ConvergeDefinitionsQuiet(cfg, start, plan);
    if plan.credentials.Some? {
      var mid := ConvergeDefinitions(cfg, start, plan, YamlTree(tree)).world;
      var files, age := plan.credentials.value, AgeTree(tree);
      forall p | IsCredentialPath(p) ensures Agrees(age, mid.repo.files, p) && Lookup(age, p) == Lookup(tree, p) {
        assert Lookup(mid.repo.files, p) == DefinitionGoal(plan, w.repo.files, p);
      }
      ConvergeCredentialsQuiet(cfg, mid, files, plan, age);
      var end := ConvergeCredentials(cfg, mid, files, plan, age).world;
      forall id | !Owns(files, id) ensures SameBooksAt(w.books, end.books, id) {
        assert SameBooksAt(w.books, mid.books, id) && SameBooksAt(mid.books, end.books, id);
      }
    }
  }

  /** A definition file nobody wants goes exactly if it is marked as rendered, whether it
      still decodes or not. */
  lemma StaleGoesIff(cfg: Wiring, w: World, plan: Plan, p: Path)
    requires Quiet(w.repo) && WellPlanned(plan) && IsDefinitionPath(p) && p in w.repo.files && p !in plan.desired
    ensures p in Converge(cfg, w, plan).world.repo.files <==>
            match w.repo.files[p]
            case Doc(header, _, _) => !header
            case Junk(marked, _) => !marked
            case Age(_, _, _) => true
  {
    ConvergeReachesPlan(cfg, w, plan);
    assert Lookup(Converge(cfg, w, plan).world.repo.files, p) == DefinitionGoal(plan, w.repo.files, p);
  }
}
