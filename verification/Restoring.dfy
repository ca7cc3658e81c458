/** Why blobs must not come back: exactly when a converge deletes a definition file that
    does not carry the rendered header. */
module Restoring {
  import opened Basics
  import opened Domain
  import opened GitRepo
  import opened Mirror
  import opened Convergence
  import opened Interleaving
  import opened Rebuild

  // ---- Deleting what was not rendered ----

  ghost predicate IsUnmarkedDelete(e: Event) {
    e.Deleted? && IsDefinitionPath(e.path) && !HasHeader(e.gone)
  }

  /** Between the two logs the mirror deleted a headerless definition. */
  ghost predicate DeletesUnmarked(h: seq<Event>, h': seq<Event>) {
    exists i :: |h| <= i < |h'| && IsUnmarkedDelete(h'[i])
  }

  lemma UnmarkedSplit(a: seq<Event>, b: seq<Event>, c: seq<Event>)
    requires a <= b <= c
    ensures DeletesUnmarked(a, c) <==> DeletesUnmarked(a, b) || DeletesUnmarked(b, c)
  {
    if DeletesUnmarked(a, b) {
      var i :| |a| <= i < |b| && IsUnmarkedDelete(b[i]);
      assert IsUnmarkedDelete(c[i]);
    }
    if DeletesUnmarked(b, c) {
      var i :| |b| <= i < |c| && IsUnmarkedDelete(c[i]);
      assert |a| <= i < |c| && IsUnmarkedDelete(c[i]);
    }
    if DeletesUnmarked(a, c) {
      var i :| |a| <= i < |c| && IsUnmarkedDelete(c[i]);
      if i < |b| { assert IsUnmarkedDelete(b[i]); }
    }
  }

  lemma ForeignOnly(h: seq<Event>, h': seq<Event>)
    requires OnlyForeign(h, h')
    ensures !DeletesUnmarked(h, h')
  {
  }

  lemma LogsOne(h: seq<Event>, now: seq<Event>, e: Event)
    requires OnlyForeign(h, now)
    ensures h <= now + [e] && (DeletesUnmarked(h, now + [e]) <==> IsUnmarkedDelete(e))
  {
    ForeignOnly(h, now);
    UnmarkedSplit(h, now, now + [e]);
    assert (now + [e])[|now|] == e;
  }

  lemma CallsLog(r: Repo, q: Path, content: Content, guard: Option<Sha>, sha: Sha)
    ensures r.history <= ListTree(r).repo.history && !DeletesUnmarked(r.history, ListTree(r).repo.history)
    ensures r.history <= GetContents(r, q).repo.history && !DeletesUnmarked(r.history, GetContents(r, q).repo.history)
    ensures var h := PutContents(r, q, content, guard).repo.history; r.history <= h && !DeletesUnmarked(r.history, h)
    ensures var del := DeleteContents(r, q, sha);
            && r.history <= del.repo.history
            && (DeletesUnmarked(r.history, del.repo.history) <==>
                del.result.Ok? && IsDefinitionPath(q) && !HasHeader(BlobOf(sha)))
  {
    var now := Arrive(r);
    ArriveFrame(r);
    ForeignOnly(r.history, now.history);
    LogsOne(r.history, now.history, Listed(Tree(now.files)));
    LogsOne(r.history, now.history, Put(q, Lookup(now.files, q), content));
    if q in now.files {
      LogsOne(r.history, now.history, Got(q, now.files[q]));
      LogsOne(r.history, now.history, Deleted(q, now.files[q]));
    }
  }

  // ---- One stale turn ----

  lemma {:induction false} EditsIgnoreLog(r: Repo, log: seq<Event>, edits: seq<Edit>)
    ensures ApplyEdits(r.(history := log), edits).files == ApplyEdits(r, edits).files
    ensures ApplyEdits(r.(history := log), edits).schedule == ApplyEdits(r, edits).schedule
    decreases |edits|
  {
    if edits != [] {
      var one, two := ApplyEdit(r, edits[0]), ApplyEdit(r.(history := log), edits[0]);
      assert two == one.(history := two.history);
      EditsIgnoreLog(one, two.history, edits[1..]);
    }
  }

  /** What others do next does not depend on what the mirror logged. */
  lemma ArriveIgnoresLog(r: Repo, log: seq<Event>)
    ensures Arrive(r.(history := log)).files == Arrive(r).files
  {
    if r.schedule != [] { EditsIgnoreLog(r.(schedule := r.schedule[1..]), log, r.schedule[0].edits); }
  }

  /** The listed blob has no header; when the file is read it holds one that has; and when
      it is deleted it holds the listed blob again. */
  ghost predicate Fooled(r: Repo, path: Path, treeSha: Sha) {
    var read := Arrive(r);
    && !Unreachable(r) && !Unreachable(read) && IsDefinitionPath(path) && !HasHeader(BlobOf(treeSha))
    && path in read.files && HasHeader(read.files[path])
    && Lookup(Arrive(read).files, path) == Some(BlobOf(treeSha))
  }

  /** A stale turn deletes a headerless definition if and only if it is fooled. */
  lemma StaleTurnIff(w: World, path: Path, treeSha: Sha)
    ensures w.repo.history <= DeleteRendered(w, path, treeSha).world.repo.history
    ensures DeletesUnmarked(w.repo.history, DeleteRendered(w, path, treeSha).world.repo.history) <==> Fooled(w.repo, path, treeSha)
  {
    var read, got := Arrive(w.repo), GetContents(w.repo, path);
    CallsLog(w.repo, path, BlobOf(treeSha), None, treeSha);
    if got.result.Ok? && HasHeader(got.result.value) {
      var del := DeleteContents(got.repo, path, treeSha);
      CallsLog(got.repo, path, BlobOf(treeSha), None, treeSha);
      UnmarkedSplit(w.repo.history, got.repo.history, del.repo.history);
      assert got.repo == read.(history := got.repo.history);
      ArriveIgnoresLog(read, got.repo.history);
    }
  }

  // ---- A whole converge ----

  /** Some stale turn of the deletion loop is fooled. */
  ghost predicate FooledIn(w: World, paths: seq<Path>, existing: map<Path, Sha>, keep: set<Path>)
    requires forall p :: p in paths ==> p in existing
    decreases |paths|
  {
    paths != [] &&
      var s := if paths[0] in keep then Step(w, Done) else DeleteRendered(w, paths[0], existing[paths[0]]);
      || (paths[0] !in keep && Fooled(w.repo, paths[0], existing[paths[0]]))
      || (s.outcome.Done? && FooledIn(s.world, paths[1..], existing, keep))
  }

  lemma {:induction false} StaleTurnsIff(w: World, paths: seq<Path>, existing: map<Path, Sha>, keep: set<Path>)
    requires forall p :: p in paths ==> p in existing
    ensures var h := DeleteStaleRendered(w, paths, existing, keep).world.repo.history;
            w.repo.history <= h && (DeletesUnmarked(w.repo.history, h) <==> FooledIn(w, paths, existing, keep))
    decreases |paths|
  {
    if paths != [] {
      StaleTurnIff(w, paths[0], existing[paths[0]]);
      var s := if paths[0] in keep then Step(w, Done) else DeleteRendered(w, paths[0], existing[paths[0]]);
      if s.outcome.Done? {
        StaleTurnsIff(s.world, paths[1..], existing, keep);
        UnmarkedSplit(w.repo.history, s.world.repo.history, DeleteStaleRendered(s.world, paths[1..], existing, keep).world.repo.history);
      }
    }
  }

  lemma UpsertDeletesNothing(cfg: Wiring, w: World, path: Path, df: DefinitionFile, existing: map<Path, Sha>, defRows: map<PipelineID, DefRender>)
    ensures var h := UpsertFile(cfg, w, path, df, existing, defRows).world.repo.history;
            w.repo.history <= h && !DeletesUnmarked(w.repo.history, h)
  {
    CallsLog(w.repo, path, df.content, None, ShaOf(df.content));
    var got := GetContents(w.repo, path);
    if got.result.Ok? {
      var guard := Some(ShaOf(got.result.value));
      CallsLog(got.repo, path, df.content, guard, ShaOf(df.content));
      UnmarkedSplit(w.repo.history, got.repo.history, PutContents(got.repo, path, df.content, guard).repo.history);
    }
  }

  lemma {:induction false} UpsertsDeleteNothing(cfg: Wiring, w: World, paths: seq<Path>, plan: Plan, existing: map<Path, Sha>)
    requires forall p :: p in paths ==> p in plan.desired
    ensures var h := UpsertFiles(cfg, w, paths, plan, existing).world.repo.history;
            w.repo.history <= h && !DeletesUnmarked(w.repo.history, h)
    decreases |paths|
  {
    if paths != [] {
      var df := plan.desired[paths[0]];
      UpsertDeletesNothing(cfg, w, paths[0], df, existing, plan.defRows);
      var s := UpsertFile(cfg, w, paths[0], df, existing, plan.defRows);
      if s.outcome.Done? {
        UpsertsDeleteNothing(cfg, s.world, paths[1..], plan, existing);
        UnmarkedSplit(w.repo.history, s.world.repo.history, UpsertFiles(cfg, s.world, paths[1..], plan, existing).world.repo.history);
      }
    }
  }

  lemma {:induction false} CredentialUpsertsDeleteNothing(cfg: Wiring, w: World, paths: seq<Path>, files: map<Path, CredentialFile>, plan: Plan,
                                                          existing: map<Path, Sha>)
    requires forall p :: p in paths ==> p in files
    ensures var h := UpsertCredentialFiles(cfg, w, paths, files, plan, existing).world.repo.history;
            w.repo.history <= h && !DeletesUnmarked(w.repo.history, h)
    decreases |paths|
  {
    if paths != [] {
      var cf := files[paths[0]];
      var cipher := Age(w.books.nonce, plan.recipient, cf.plaintext);
      CallsLog(w.repo, paths[0], cipher, Lookup(existing, paths[0]), ShaOf(cipher));
      var s := UpsertCredentialFile(cfg, w, paths[0], cf, plan.recipient, plan.credRows, existing);
      if s.outcome.Done? {
        CredentialUpsertsDeleteNothing(cfg, s.world, paths[1..], files, plan, existing);
        UnmarkedSplit(w.repo.history, s.world.repo.history,
                      UpsertCredentialFiles(cfg, s.world, paths[1..], files, plan, existing).world.repo.history);
      }
    }
  }

  lemma {:induction false} CredentialDeletesSpareDefinitions(w: World, paths: seq<Path>, existing: map<Path, Sha>, keep: set<Path>)
    requires forall p :: p in paths ==> p in existing && IsCredentialPath(p)
    ensures var h := DeleteStale(w, paths, existing, keep).world.repo.history;
            w.repo.history <= h && !DeletesUnmarked(w.repo.history, h)
    decreases |paths|
  {
    if paths != [] {
      assert paths[0] in existing && IsCredentialPath(paths[0]);
      var sha := existing[paths[0]];
      CallsLog(w.repo, paths[0], BlobOf(sha), None, sha);
      var s := if paths[0] in keep then Step(w, Done) else DeleteOne(w, paths[0], sha);
      if s.outcome.Done? {
        CredentialDeletesSpareDefinitions(s.world, paths[1..], existing, keep);
        UnmarkedSplit(w.repo.history, s.world.repo.history, DeleteStale(s.world, paths[1..], existing, keep).world.repo.history);
      }
    }
  }

  lemma CredentialsDeleteNothing(cfg: Wiring, w: World, files: map<Path, CredentialFile>, plan: Plan, age: map<Path, Sha>)
    requires forall p :: p in age ==> IsCredentialPath(p)
    ensures var h := ConvergeCredentials(cfg, w, files, plan, age).world.repo.history;
            w.repo.history <= h && !DeletesUnmarked(w.repo.history, h)
  {
    SortedEnumerates(files.Keys);
    SortedEnumerates(age.Keys);
    CredentialUpsertsDeleteNothing(cfg, w, Sorted(files.Keys), files, plan, age);
    var s := UpsertCredentialFiles(cfg, w, Sorted(files.Keys), files, plan, age);
    if s.outcome.Done? {
      CredentialDeletesSpareDefinitions(s.world, Sorted(age.Keys), age, files.Keys);
      UnmarkedSplit(w.repo.history, s.world.repo.history, DeleteStale(s.world, Sorted(age.Keys), age, files.Keys).world.repo.history);
    }
  }

  /** The state in which a converge starts deleting, if it gets that far. */
  ghost function AfterUpserts(cfg: Wiring, w: World, plan: Plan): Step {
    var listed := ListTree(w.repo);
    if listed.result.Err? then Step(World(listed.repo, w.books), Failed(listed.result.error))
    else
      SortedEnumerates(plan.desired.Keys);
      UpsertFiles(cfg, World(listed.repo, w.books), Sorted(plan.desired.Keys), plan, YamlTree(listed.result.value))
  }

  ghost predicate ConvergeFooled(cfg: Wiring, w: World, plan: Plan) {
    var s, yaml := AfterUpserts(cfg, w, plan), YamlTree(Tree(Arrive(w.repo).files));
    SortedEnumerates(yaml.Keys);
    s.outcome.Done? && FooledIn(s.world, Sorted(yaml.Keys), yaml, plan.desired.Keys)
  }

  lemma DefinitionsDeleteIff(cfg: Wiring, w: World, plan: Plan, yaml: map<Path, Sha>)
    ensures (forall p :: p in Sorted(plan.desired.Keys) ==> p in plan.desired) && (forall p :: p in Sorted(yaml.Keys) ==> p in yaml)
    ensures var s, h := UpsertFiles(cfg, w, Sorted(plan.desired.Keys), plan, yaml), ConvergeDefinitions(cfg, w, plan, yaml).world.repo.history;
            && w.repo.history <= h
            && (DeletesUnmarked(w.repo.history, h) <==>
                s.outcome.Done? && FooledIn(s.world, Sorted(yaml.Keys), yaml, plan.desired.Keys))
  {
    SortedEnumerates(plan.desired.Keys);
    SortedEnumerates(yaml.Keys);
    UpsertsDeleteNothing(cfg, w, Sorted(plan.desired.Keys), plan, yaml);
    var s := UpsertFiles(cfg, w, Sorted(plan.desired.Keys), plan, yaml);
    if s.outcome.Done? {
      StaleTurnsIff(s.world, Sorted(yaml.Keys), yaml, plan.desired.Keys);
      UnmarkedSplit(w.repo.history, s.world.repo.history,
                    DeleteStaleRendered(s.world, Sorted(yaml.Keys), yaml, plan.desired.Keys).world.repo.history);
    }
  }

  /** Under any schedule, a converge deletes a definition without the header if and only if
      one of its stale turns is fooled by a blob that came back. */
  lemma ConvergeDeletesUnmarkedIff(cfg: Wiring, w: World, plan: Plan)
    ensures DeletesUnmarked(w.repo.history, Converge(cfg, w, plan).world.repo.history) <==> ConvergeFooled(cfg, w, plan)
  {
    var listed := ListTree(w.repo);
    CallsLog(w.repo, "", Junk(false, ""), None, ShaOf(Junk(false, "")));
    if listed.result.Ok? {
      var tree, start := listed.result.value, World(listed.repo, w.books);
      DefinitionsDeleteIff(cfg, start, plan, YamlTree(tree));
      var s := ConvergeDefinitions(cfg, start, plan, YamlTree(tree));
      UnmarkedSplit(w.repo.history, start.repo.history, s.world.repo.history);
      if s.outcome.Done? && plan.credentials.Some? {
        CredentialsDeleteNothing(cfg, s.world, plan.credentials.value, plan, AgeTree(tree));
        UnmarkedSplit(w.repo.history, s.world.repo.history,
                      ConvergeCredentials(cfg, s.world, plan.credentials.value, plan, AgeTree(tree)).world.repo.history);
      }
    }
  }

  // ---- Such a schedule ----

  const NOTHING_PLANNED := Plan(map[], None, "", map[], map[])

  /** The file at x is `kept` when it is listed, `marked` when its header is checked, and
      `kept` again when it is deleted. */
  function ThereAndBack(x: Path, kept: Content, marked: Content): World {
    World(Repo(map[x := kept], [],
               [Turn([], false), Turn([Edit(x, Some(marked))], false), Turn([Edit(x, Some(kept))], false)],
               {(x, kept)}, true),
          NO_BOOKS)
  }

  lemma ArriveWithOne(r: Repo, e: Edit, down: bool, rest: seq<Turn>)
    requires r.schedule == [Turn([e], down)] + rest
    ensures Arrive(r) == ApplyEdit(r.(schedule := rest), e) && (Unreachable(r) <==> down)
  {
    assert r.schedule[1..] == rest && r.schedule[0].edits == [e];
    assert [e][1..] == [];
    var one := ApplyEdit(r.(schedule := rest), e);
    assert ApplyEdits(one, []) == one;
  }

  lemma ListedThere(x: Path, kept: Content, marked: Content)
    requires IsDefinitionPath(x)
    ensures var w := ThereAndBack(x, kept, marked);
            var listed := ListTree(w.repo);
            && listed.result == Ok(map[x := kept]) && listed.repo.files == map[x := kept]
            && listed.repo.schedule == [Turn([Edit(x, Some(marked))], false)] + [Turn([Edit(x, Some(kept))], false)]
            && YamlTree(Tree(Arrive(w.repo).files)) == map[x := kept]
  {
    var r := ThereAndBack(x, kept, marked).repo;
    assert r.schedule[1..] == [Turn([Edit(x, Some(marked))], false), Turn([Edit(x, Some(kept))], false)];
    assert ApplyEdits(r.(schedule := r.schedule[1..]), []) == r.(schedule := r.schedule[1..]);
    assert Arrive(r) == r.(schedule := r.schedule[1..]);
  }

  lemma FooledThere(r: Repo, x: Path, kept: Content, marked: Content)
    requires IsDefinitionPath(x) && !HasHeader(kept) && HasHeader(marked) && r.files == map[x := kept]
    requires r.schedule == [Turn([Edit(x, Some(marked))], false)] + [Turn([Edit(x, Some(kept))], false)]
    ensures Fooled(r, x, ShaOf(kept))
  {
    ArriveWithOne(r, Edit(x, Some(marked)), false, [Turn([Edit(x, Some(kept))], false)]);
    var read := Arrive(r);
    assert read.schedule == [Turn([Edit(x, Some(kept))], false)] + [];
    ArriveWithOne(read, Edit(x, Some(kept)), false, []);
  }

  /** A commit that restores an earlier blob defeats the header check: a whole converge
      deletes the headerless file. */
  lemma RestoredBlobIsDeleted(cfg: Wiring, x: Path, kept: Content, marked: Content)
    requires IsDefinitionPath(x) && !HasHeader(kept) && HasHeader(marked)
    ensures var w := ThereAndBack(x, kept, marked);
            DeletesUnmarked(w.repo.history, Converge(cfg, w, NOTHING_PLANNED).world.repo.history)
  {
    var w := ThereAndBack(x, kept, marked);
    ListedThere(x, kept, marked);
    var s, yaml := AfterUpserts(cfg, w, NOTHING_PLANNED), YamlTree(Tree(Arrive(w.repo).files));
    assert NOTHING_PLANNED.desired.Keys == {};
    assert s == Step(World(ListTree(w.repo).repo, w.books), Done);
    assert yaml.Keys == {x};
    SortedEnumerates(yaml.Keys);
    assert Sorted({x}) == [x] by { assert First({x}) == x && {x} - {x} == {}; }
    FooledThere(s.world.repo, x, kept, marked);
    ConvergeDeletesUnmarkedIff(cfg, w, NOTHING_PLANNED);
  }

  lemma UnmarkedUnsound(h: seq<Event>, n: nat, i: nat)
    requires n <= i < |h| && IsUnmarkedDelete(h[i])
    ensures !SoundFrom(h, n)
  {
    assert !Justified(h[..i], h[i]);
  }

  /** Only a commit that brings an old blob back can fool a converge. */
  lemma FooledIsUnclean(cfg: Wiring, w: World, plan: Plan)
    requires WellPlanned(plan) && HeldCovers(w.repo) && ConvergeFooled(cfg, w, plan)
    ensures !Converge(cfg, w, plan).world.repo.clean
  {
    var r' := Converge(cfg, w, plan).world.repo;
    ConvergeDeletesUnmarkedIff(cfg, w, plan);
    ConvergeSound(cfg, w, plan);
    var i :| |w.repo.history| <= i < |r'.history| && IsUnmarkedDelete(r'.history[i]);
    UnmarkedUnsound(r'.history, |w.repo.history|, i);
  }
}
