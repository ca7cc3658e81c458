/** The mirror as it runs: PipelineMirror drives the repository client and the workspace
    tables in place, loop by loop. Every method is proved to compute the function of the
    whole state that the theorems are about. */
module Engine {
  import opened Basics
  import opened Domain
  import opened FileDrop
  import opened GitRepo
  import opened Mirror
  import opened Slugs
  import opened Sync
  import opened Adopt
  import opened Syncing
  import opened Saves

  class PipelineMirror {
    const env: Env
    var repo: Repo
    var rows: map<PipelineID, Pipeline>
    var order: seq<PipelineID>
    var defs: map<PipelineID, DefRender>
    var creds: map<PipelineID, CredRender>
    var notes: seq<Note>
    var nonce: nat

    ghost function Tables(): Books
      reads this
    {
      Books(rows, order, defs, creds, notes, nonce)
    }

    ghost function State(): World
      reads this
    {
      World(repo, Tables())
    }

    constructor (e: Env, w: World)
      ensures env == e && State() == w
    {
      env, repo := e, w.repo;
      rows, order, defs := w.books.rows, w.books.order, w.books.defs;
      creds, notes, nonce := w.books.creds, w.books.notes, w.books.nonce;
    }

    // ---- The repository client ----

    /** What others commit before the next call. */
    method Interfere()
      modifies this`repo
      ensures repo == Arrive(old(repo))
    {
      if repo.schedule == [] { return; }
      var edits := repo.schedule[0].edits;
      repo := repo.(schedule := repo.schedule[1..]);
      for i := 0 to |edits|
        invariant ApplyEdits(repo, edits[i..]) == Arrive(old(repo))
      {
        assert edits[i..][0] == edits[i] && edits[i..][1..] == edits[i + 1..];
        var path := edits[i].path;
        if Lookup(repo.files, path) != edits[i].content {
          repo := repo.(history := repo.history + [ForeignCommit(path, edits[i].content)]);
          if edits[i].content.None? {
            repo := repo.(files := repo.files - {path});
          } else {
            var blob := edits[i].content.value;
            repo := repo.(files := repo.files[path := blob], held := repo.held + {(path, blob)},
                          clean := repo.clean && (path, blob) !in repo.held);
          }
        }
      }
    }

    /** The listing is the tree others left, in full. */
    method ListTree() returns (tree: Result<map<Path, Sha>>)
      modifies this`repo
      ensures repo == GitRepo.ListTree(old(repo)).repo && tree == GitRepo.ListTree(old(repo)).result
      ensures repo.files == Arrive(old(repo)).files
      ensures tree.Ok? <==> !Unreachable(old(repo))
      ensures tree.Ok? ==> forall p :: Lookup(tree.value, p) == Lookup(repo.files, p)
    {
      var down := Unreachable(repo);
      Interfere();
      if down { return Err(Unavailable); }
      tree := Ok(repo.files);
      repo := repo.(history := repo.history + [Listed(repo.files)]);
    }

    /** What is read is what the path holds now, and only a missing file is not found. */
    method GetContents(path: Path) returns (content: Result<Content>)
      modifies this`repo
      ensures repo == GitRepo.GetContents(old(repo), path).repo && content == GitRepo.GetContents(old(repo), path).result
      ensures repo.files == Arrive(old(repo)).files
      ensures !Unreachable(old(repo)) ==> if path in repo.files then content == Ok(repo.files[path]) else content == Err(NotFound)
    {
      var down := Unreachable(repo);
      Interfere();
      if down { return Err(Unavailable); }
      if path !in repo.files { return Err(NotFound); }
      content := Ok(repo.files[path]);
      repo := repo.(history := repo.history + [Got(path, repo.files[path])]);
    }

    /** A put that succeeds replaces exactly the guarded blob, or creates where nothing is;
        one that fails leaves every file as others left it. */
    method PutContents(path: Path, content: Content, guard: Option<Sha>) returns (sha: Result<Sha>)
      modifies this`repo
      ensures repo == GitRepo.PutContents(old(repo), path, content, guard).repo
      ensures sha == GitRepo.PutContents(old(repo), path, content, guard).result
      ensures sha.Ok? <==> !Unreachable(old(repo)) && Lookup(Arrive(old(repo)).files, path) == guard
      ensures repo.files == if sha.Ok? then Arrive(old(repo)).files[path := content] else Arrive(old(repo)).files
    {
      var down := Unreachable(repo);
      Interfere();
      if down { return Err(Unavailable); }
      if guard.None? && path in repo.files { return Err(FileChanged); }
      if guard.Some? && path !in repo.files { return Err(NotFound); }
      if guard.Some? && ShaOf(repo.files[path]) != guard.value { return Err(FileChanged); }
      repo := repo.(files := repo.files[path := content], history := repo.history + [Put(path, Lookup(repo.files, path), content)],
                    held := repo.held + {(path, content)});
      sha := Ok(ShaOf(content));
    }

    /** A delete that succeeds removes exactly the guarded blob; one that fails leaves every
        file as others left it. */
    method DeleteContents(path: Path, guard: Sha) returns (gone: Result<()>)
      modifies this`repo
      ensures repo == GitRepo.DeleteContents(old(repo), path, guard).repo
      ensures gone == GitRepo.DeleteContents(old(repo), path, guard).result
      ensures gone.Ok? <==> !Unreachable(old(repo)) && Lookup(Arrive(old(repo)).files, path) == Some(BlobOf(guard))
      ensures repo.files == if gone.Ok? then Arrive(old(repo)).files - {path} else Arrive(old(repo)).files
    {
      var down := Unreachable(repo);
      Interfere();
      if down { return Err(Unavailable); }
      if path !in repo.files { return Err(NotFound); }
      if ShaOf(repo.files[path]) != guard { return Err(FileChanged); }
      repo := repo.(files := repo.files - {path}, history := repo.history + [Deleted(path, repo.files[path])]);
      gone := Ok(());
    }

    // ---- Bookkeeping ----

    method RecordDefinitionRender(id: PipelineID, path: Path, blob: Sha)
      modifies this`defs
      ensures Tables() == RecordDefinition(env.wiring, old(Tables()), id, path, blob)
    {
      if env.wiring.drift && id in rows {
        defs := defs[id := DefRender(path, blob, None)];
      }
    }

    method MarkCredentialsExternal(path: Path, id: PipelineID)
      modifies this`rows, this`notes
      ensures Tables() == MarkExternal(old(Tables()), path, id)
    {
      if id in rows {
        rows := rows[id := rows[id].(credentialsExternal := true)];
        notes := notes + [ExternalNote(path, id)];
      }
    }

    // ---- Converge ----

    method UpsertFile(path: Path, df: DefinitionFile, existing: map<Path, Sha>, defRows: map<PipelineID, DefRender>)
      returns (outcome: Outcome)
      modifies this`repo, this`defs, this`notes
      ensures Step(State(), outcome) == Mirror.UpsertFile(env.wiring, old(State()), path, df, existing, defRows)
    {
      if path !in existing {
        var created := PutContents(path, df.content, None);
        if created.Err? { return Failed(created.error); }
        RecordDefinitionRender(df.id, path, created.value);
        return Done;
      }
      var current := GetContents(path);
      if current.Err? { return Failed(current.error); }
      var row := Lookup(defRows, df.id);
      if current.value == df.content {
        if row.None? || row.value.blob != existing[path] || row.value.path != path {
          RecordDefinitionRender(df.id, path, existing[path]);
        }
        return Done;
      }
      var drifted := Drifted(row, path, existing[path]);
      var put := PutContents(path, df.content, Some(ShaOf(current.value)));
      if put.Err? { return Failed(put.error); }
      RecordDefinitionRender(df.id, path, put.value);
      if drifted {
        notes := notes + [DriftNote(path, df.id)];
      }
      return Done;
    }

    /** One stale definition: it goes only if it still opens with the header. */
    method DeleteIfRendered(path: Path, treeSha: Sha) returns (outcome: Outcome)
      modifies this`repo
      ensures Step(State(), outcome) == DeleteRendered(old(State()), path, treeSha)
    {
      var content := GetContents(path);
      if content.Err? { return Failed(content.error); }
      if !HasHeader(content.value) { return Done; }
      var gone := DeleteContents(path, treeSha);
      if gone.Err? { return Failed(gone.error); }
      return Done;
    }

    method DeleteStaleRendered(paths: seq<Path>, existing: map<Path, Sha>, keep: set<Path>) returns (outcome: Outcome)
      requires forall p :: p in paths ==> p in existing
      modifies this`repo
      ensures Step(State(), outcome) == Mirror.DeleteStaleRendered(old(State()), paths, existing, keep)
    {
      for i := 0 to |paths|
        invariant Mirror.DeleteStaleRendered(State(), paths[i..], existing, keep) ==
                  Mirror.DeleteStaleRendered(old(State()), paths, existing, keep)
      {
        assert paths[i..][0] == paths[i] && paths[i..][1..] == paths[i + 1..];
        if paths[i] !in keep {
          var turn := DeleteIfRendered(paths[i], existing[paths[i]]);
          if turn.Failed? { return turn; }
        }
      }
      return Done;
    }

    method UpsertCredentialFile(path: Path, cf: CredentialFile, recipient: string, renders: map<PipelineID, CredRender>,
                                existing: map<Path, Sha>) returns (outcome: Outcome)
      modifies this`repo, this`rows, this`creds, this`notes, this`nonce
      ensures Step(State(), outcome) == Mirror.UpsertCredentialFile(env.wiring, old(State()), path, cf, recipient, renders, existing)
    {
      if cf.external { return Done; }
      var fp, row := Fingerprint(recipient, cf.plaintext), Lookup(renders, cf.id);
      if path in existing && row.Some? {
        if row.value.fingerprint == fp && row.value.blob == existing[path] { return Done; }
        if row.value.blob != existing[path] && env.wiring.ownership {
          MarkCredentialsExternal(path, cf.id);
          return Done;
        }
      }
      var cipher := Age(nonce, recipient, cf.plaintext);
      nonce := nonce + 1;
      var put := PutContents(path, cipher, Lookup(existing, path));
      if put.Err? { return Failed(put.error); }
      if cf.id in rows {
        creds := creds[cf.id := CredRender(fp, put.value)];
      }
      return Done;
    }

    method DeleteStale(paths: seq<Path>, existing: map<Path, Sha>, keep: set<Path>) returns (outcome: Outcome)
      requires forall p :: p in paths ==> p in existing
      modifies this`repo
      ensures Step(State(), outcome) == Mirror.DeleteStale(old(State()), paths, existing, keep)
    {
      for i := 0 to |paths|
        invariant Mirror.DeleteStale(State(), paths[i..], existing, keep) == Mirror.DeleteStale(old(State()), paths, existing, keep)
      {
        assert paths[i..][0] == paths[i] && paths[i..][1..] == paths[i + 1..];
        if paths[i] !in keep {
          var gone := DeleteContents(paths[i], existing[paths[i]]);
          if gone.Err? { return Failed(gone.error); }
        }
      }
      return Done;
    }

    method UpsertFiles(paths: seq<Path>, plan: Plan, existing: map<Path, Sha>) returns (outcome: Outcome)
      requires forall p :: p in paths ==> p in plan.desired
      modifies this`repo, this`defs, this`notes
      ensures Step(State(), outcome) == Mirror.UpsertFiles(env.wiring, old(State()), paths, plan, existing)
    {
      for i := 0 to |paths|
        invariant Mirror.UpsertFiles(env.wiring, State(), paths[i..], plan, existing) ==
                  Mirror.UpsertFiles(env.wiring, old(State()), paths, plan, existing)
      {
        assert paths[i..][0] == paths[i] && paths[i..][1..] == paths[i + 1..];
        var turn := UpsertFile(paths[i], plan.desired[paths[i]], existing, plan.defRows);
        if turn.Failed? { return turn; }
      }
      return Done;
    }

    /** converge. */
    method Converge(plan: Plan) returns (outcome: Outcome)
      modifies this`repo, this`rows, this`defs, this`creds, this`notes, this`nonce
      ensures Step(State(), outcome) == Mirror.Converge(env.wiring, old(State()), plan)
    {
      var listed := ListTree();
      if listed.Err? { return Failed(listed.error); }
      var yaml, age := YamlTree(listed.value), AgeTree(listed.value);
      SortedEnumerates(plan.desired.Keys);
      var paths := SortedPaths(plan.desired.Keys);
      outcome := UpsertFiles(paths, plan, yaml);
      if outcome.Failed? { return outcome; }
      SortedEnumerates(yaml.Keys);
      var stale := SortedPaths(yaml.Keys);
      outcome := DeleteStaleRendered(stale, yaml, plan.desired.Keys);
      if outcome.Failed? || plan.credentials.None? { return outcome; }
      outcome := ConvergeCredentialFiles(plan.credentials.value, plan, age);
    }

    method ConvergeCredentialFiles(files: map<Path, CredentialFile>, plan: Plan, age: map<Path, Sha>) returns (outcome: Outcome)
      modifies this`repo, this`rows, this`creds, this`notes, this`nonce
      ensures Step(State(), outcome) == ConvergeCredentials(env.wiring, old(State()), files, plan, age)
    {
      SortedEnumerates(files.Keys);
      var paths := SortedPaths(files.Keys);
      outcome := UpsertCredentialFiles(paths, files, plan, age);
      if outcome.Failed? { return outcome; }
      SortedEnumerates(age.Keys);
      var stale := SortedPaths(age.Keys);
      outcome := DeleteStale(stale, age, files.Keys);
    }

    method UpsertCredentialFiles(paths: seq<Path>, files: map<Path, CredentialFile>, plan: Plan, age: map<Path, Sha>)
      returns (outcome: Outcome)
      requires forall p :: p in paths ==> p in files
      modifies this`repo, this`rows, this`creds, this`notes, this`nonce
      ensures Step(State(), outcome) == Mirror.UpsertCredentialFiles(env.wiring, old(State()), paths, files, plan, age)
    {
      for i := 0 to |paths|
        invariant Mirror.UpsertCredentialFiles(env.wiring, State(), paths[i..], files, plan, age) ==
                  Mirror.UpsertCredentialFiles(env.wiring, old(State()), paths, files, plan, age)
      {
        assert paths[i..][0] == paths[i] && paths[i..][1..] == paths[i + 1..];
        var turn := UpsertCredentialFile(paths[i], files[paths[i]], plan.recipient, plan.credRows, age);
        if turn.Failed? { return turn; }
      }
      return Done;
    }

    // ---- SyncCustomer ----

    /** ListPipelinesByCustomer. */
    method ListPipelines() returns (ps: seq<Pipeline>)
      ensures ps == List(Tables())
    {
      ps := [];
      for i := 0 to |order|
        invariant ps == List(Tables())[..i]
      {
        ps := ps + [Row(Books(rows, order, defs, creds, notes, nonce), order[i]).(credentials := None)];
      }
    }

    /** resolveFileUploads. */
    method ResolveFileUploads(ps: seq<Pipeline>) returns (out: seq<Pipeline>)
      ensures out == ResolveAll(env, ps)
    {
      out := [];
      for i := 0 to |ps|
        invariant out == ResolveAll(env, ps[..i])
      {
        assert ps[..i + 1][..i] == ps[..i];
        if ps[i].sourceType != FILE_UPLOAD {
          out := out + [ps[i]];
        } else if Provisioned(env.storage) {
          var resolved := ResolveFileUploadPipeline(ps[i], env.storage);
          if resolved.Some? {
            out := out + [resolved.value];
          }
        }
      }
      assert ps[..|ps|] == ps;
    }

    /** renderPipelineFiles. */
    method RenderPipelineFiles(ps: seq<Pipeline>, slugs: map<PipelineID, string>) returns (files: Option<map<Path, DefinitionFile>>)
      requires forall j :: 0 <= j < |ps| ==> SlugAt(ps, slugs, j)
      ensures files == if Renderable(ps) then Some(Definitions(ps, ps)) else None
    {
      var out: map<Path, DefinitionFile> := map[];
      for i := 0 to |ps|
        invariant Renderable(ps[..i]) && out == Definitions(ps, ps[..i])
      {
        var p := ps[i];
        assert SlugAt(ps, slugs, i);
        assert ps[..i + 1][..i] == ps[..i];
        if ConfigFields(p.sourceConfig).None? { return None; }
        out := out[DefinitionPath(slugs[p.id]) := DefinitionFile(p.id, Render(p))];
      }
      assert ps[..|ps|] == ps;
      return Some(out);
    }

    /** buildCredentialFiles. */
    method BuildCredentialFiles(ps: seq<Pipeline>, slugs: map<PipelineID, string>) returns (files: map<Path, CredentialFile>)
      requires forall j :: 0 <= j < |ps| ==> SlugAt(ps, slugs, j)
      ensures files == CredentialFiles(env, Tables(), ps, ps)
    {
      files := map[];
      for i := 0 to |ps|
        invariant files == CredentialFiles(env, Tables(), ps, ps[..i])
      {
        var p := ps[i];
        assert SlugAt(ps, slugs, i);
        assert ps[..i + 1][..i] == ps[..i];
        var path := CredentialPath(slugs[p.id]);
        if p.credentialsExternal {
          files := files[path := CredentialFile(p.id, Null, true)];
          continue;
        }
        var raw := if p.credentials.Some? then p.credentials else if p.id in rows then rows[p.id].credentials else None;
        if !IsEmptyJson(raw) {
          files := files[path := CredentialFile(p.id, env.serve(p.sourceType, raw.value), false)];
        }
      }
      assert ps[..|ps|] == ps;
    }

    /** SyncCustomer, with its single retry on a conflict. */
    method SyncCustomer() returns (outcome: Outcome)
      requires TableOk(Tables())
      modifies this`repo, this`rows, this`defs, this`creds, this`notes, this`nonce
      ensures Step(State(), outcome) == Sync.SyncCustomer(env, old(State()))
    {
      var listed := ListPipelines();
      var ps := ResolveFileUploads(listed);
      RenderedDistinct(env, Tables());
      var slugs := PipelineFileSlugs(ps);
      var desired := RenderPipelineFiles(ps, slugs);
      if desired.None? { return Failed(Unrenderable); }
      var files: Option<map<Path, CredentialFile>> := None;
      if env.ageWired {
        if env.ageKey.None? {
          files := Some(map[]);
        } else {
          var built := BuildCredentialFiles(ps, slugs);
          files := Some(built);
        }
      }
      var plan := Plan(desired.value, files, if env.ageKey.Some? then env.ageKey.value else "",
                       if env.wiring.drift then defs else map[], if env.ageKey.Some? then creds else map[]);
      assert plan == MakePlan(env, Tables(), ps);
      outcome := Converge(plan);
      if outcome == Failed(FileChanged) {
        outcome := Converge(plan);
      }
    }

    // ---- AdoptCustomer ----

    /** UpdatePipeline of the row store: every column but the ownership flag. */
    method UpdateRow(p: Pipeline) returns (refused: Option<MirrorError>)
      modifies this`rows
      ensures var r := Adopt.UpdateRow(old(Tables()), p);
              if r.Ok? then refused.None? && Tables() == r.value else refused == Some(r.error) && Tables() == old(Tables())
    {
      if p.id !in rows { return Some(NotFound); }
      if p.sourceConfig.None? { return Some(NotStorable); }
      if !NameFree(Books(rows, order, defs, creds, notes, nonce), p) { return Some(NameTaken); }
      rows := rows[p.id := p.(credentialsExternal := rows[p.id].credentialsExternal)];
      return None;
    }

    /** adoptDefinition and refuseAdoption. */
    method AdoptDefinition(p: Pipeline, renders: map<PipelineID, DefRender>, yaml: map<Path, Sha>) returns (outcome: Outcome)
      modifies this`repo, this`rows, this`defs, this`notes
      ensures Step(State(), outcome) == Adopt.AdoptDefinition(env, old(State()), p, renders, yaml)
    {
      if p.id !in renders { return Done; }
      var row := renders[p.id];
      if row.path !in yaml || yaml[row.path] == row.blob || row.refused == Some(yaml[row.path]) { return Done; }
      var treeSha := yaml[row.path];
      var content := GetContents(row.path);
      if content.Err? { return Failed(content.error); }
      var adopted := ParseAdoptable(env, content.value, p);
      if adopted.None? {
        if p.id in defs {
          defs := defs[p.id := defs[p.id].(refused := Some(treeSha))];
        }
        notes := notes + [RefusedNote(row.path, p.id)];
        return Done;
      }
      var refused := UpdateRow(adopted.value);
      if refused.Some? { return Failed(refused.value); }
      RecordDefinitionRender(p.id, row.path, treeSha);
      notes := notes + [AdoptedNote(row.path, p.id)];
      return Done;
    }

    method AdoptDefinitions(ps: seq<Pipeline>, renders: map<PipelineID, DefRender>, yaml: map<Path, Sha>) returns (outcome: Outcome)
      modifies this`repo, this`rows, this`defs, this`notes
      ensures Step(State(), outcome) == Adopt.AdoptDefinitions(env, old(State()), ps, renders, yaml)
    {
      for i := 0 to |ps|
        invariant Adopt.AdoptDefinitions(env, State(), ps[i..], renders, yaml) ==
                  Adopt.AdoptDefinitions(env, old(State()), ps, renders, yaml)
      {
        assert ps[i..][0] == ps[i] && ps[i..][1..] == ps[i + 1..];
        var turn := AdoptDefinition(ps[i], renders, yaml);
        if turn.Failed? { return turn; }
      }
      return Done;
    }

    /** importFile; the ids and names taken so far travel with the batch. */
    method ImportFile(path: Path, yaml: map<Path, Sha>, age: map<Path, Sha>, before: Taken) returns (taken: Taken, outcome: Outcome)
      requires path in yaml
      modifies this`repo, this`rows, this`order, this`defs
      ensures ImportStep(State(), taken, outcome) == Adopt.ImportFile(env, old(State()), path, yaml, age, before)
    {
      taken := before;
      var content := GetContents(path);
      if content.Err? { return taken, Failed(content.error); }
      var parsed := ParseImportable(env, content.value, taken.ids, taken.names);
      if parsed.None? { return taken, Done; }
      var p := parsed.value.(credentialsExternal := CredentialPathFor(path) in age);
      if !Storable(p) { return taken, Failed(NotStorable); }
      if p.id in rows || !NameFree(Books(rows, order, defs, creds, notes, nonce), p) { return taken, Done; }
      rows := rows[p.id := p.(credentials := Some(EMPTY_OBJECT))];
      order := order + [p.id];
      RecordDefinitionRender(p.id, path, yaml[path]);
      taken := Taken(taken.ids + {p.id}, taken.names + {p.name});
      return taken, Done;
    }

    /** importUnrendered. */
    method ImportUnrendered(ps: seq<Pipeline>, renders: map<PipelineID, DefRender>, yaml: map<Path, Sha>, age: map<Path, Sha>)
      returns (outcome: Outcome)
      modifies this`repo, this`rows, this`order, this`defs
      ensures Step(State(), outcome) == Adopt.ImportUnrendered(env, old(State()), ps, renders, yaml, age)
    {
      if !env.importer { return Done; }
      SortedEnumerates(yaml.Keys);
      var paths := SortedPaths(yaml.Keys);
      outcome := ImportFiles(paths, TrackedPaths(renders), yaml, age, TakenBy(ps));
    }

    method ImportFiles(paths: seq<Path>, tracked: set<Path>, yaml: map<Path, Sha>, age: map<Path, Sha>, before: Taken)
      returns (outcome: Outcome)
      requires forall p :: p in paths ==> p in yaml
      modifies this`repo, this`rows, this`order, this`defs
      ensures var s := Adopt.ImportFiles(env, old(State()), paths, tracked, yaml, age, before);
              State() == s.world && outcome == s.outcome
    {
      var taken := before;
      for i := 0 to |paths|
        invariant Adopt.ImportFiles(env, State(), paths[i..], tracked, yaml, age, taken) ==
                  Adopt.ImportFiles(env, old(State()), paths, tracked, yaml, age, before)
      {
        assert paths[i..][0] == paths[i] && paths[i..][1..] == paths[i + 1..];
        if paths[i] !in tracked {
          var turn;
          taken, turn := ImportFile(paths[i], yaml, age, taken);
          if turn.Failed? { return turn; }
        }
      }
      return Done;
    }

    /** flagForeignCredentialFiles. */
    method FlagForeignCredentialFiles(ps: seq<Pipeline>, age: map<Path, Sha>)
      requires DistinctIds(ps)
      modifies this`rows, this`notes
      ensures Tables() == FlagForeign(old(Tables()), ps, ps, old(creds), age)
    {
      var slugs := PipelineFileSlugs(ps);
      for i := 0 to |ps|
        invariant FlagForeign(Tables(), ps, ps[i..], creds, age) == FlagForeign(old(Tables()), ps, ps, creds, age)
      {
        var p := ps[i];
        assert SlugAt(ps, slugs, i);
        assert ps[i..][0] == p && ps[i..][1..] == ps[i + 1..];
        var path := CredentialPath(slugs[p.id]);
        if !p.credentialsExternal && p.id in creds && path in age && age[path] != creds[p.id].blob {
          MarkCredentialsExternal(path, p.id);
        }
      }
    }

    method AdoptCustomer() returns (outcome: Outcome)
      requires TableOk(Tables())
      modifies this`repo, this`rows, this`order, this`defs, this`notes
      ensures Step(State(), outcome) == Adopt.AdoptCustomer(env, old(State()))
    {
      if !env.wiring.drift { return Done; }
      ListDistinct(Tables());
      var ps := ListPipelines();
      var renders := defs;
      var listed := ListTree();
      if listed.Err? { return Failed(listed.error); }
      var yaml, age := YamlTree(listed.value), AgeTree(listed.value);
      outcome := ImportUnrendered(ps, renders, yaml, age);
      if outcome.Failed? { return outcome; }
      outcome := AdoptDefinitions(ps, renders, yaml);
      if outcome.Failed? { return outcome; }
      if env.ageWired && env.wiring.ownership {
        FlagForeignCredentialFiles(ps, age);
      }
    }

    // ---- Saves ----

    method Reclaim(id: PipelineID)
      modifies this`rows, this`creds
      ensures Tables() == Ownership.Reclaim(env, old(Tables()), id)
    {
      if env.wiring.ownership && id in rows {
        rows := rows[id := rows[id].(credentialsExternal := false)];
        creds := creds - {id};
      }
    }

    method UpdatePipeline(p: Pipeline, clear: bool) returns (outcome: Outcome)
      requires TableOk(Tables())
      modifies this`repo, this`rows, this`defs, this`creds, this`notes, this`nonce
      ensures Step(State(), outcome) == Saves.UpdatePipeline(env, old(State()), p, clear)
    {
      if clear && !IsEmptyJson(p.credentials) { return Failed(Invalid); }
      if p.id !in rows { return Failed(NotFound); }
      if !env.valid(p.sourceType, p.sourceConfig) { return Failed(Invalid); }
      var existing := rows[p.id];
      var provided := !IsEmptyJson(p.credentials);
      var refused := UpdateRow(p.(credentials := if clear then None else if provided then p.credentials else existing.credentials));
      if refused.Some? { return Failed(refused.value); }
      if (provided || clear) && existing.credentialsExternal {
        Reclaim(p.id);
      }
      assert UpdatedBooks(env, old(Tables()), p, clear) == Ok(Tables());
      UpdateTableOk(env, old(Tables()), p, clear);
      outcome := CommitOrRestore(existing);
    }

    /** commitOrCompensate with the update's compensation. */
    method CommitOrRestore(existing: Pipeline) returns (outcome: Outcome)
      requires TableOk(Tables())
      modifies this`repo, this`rows, this`defs, this`creds, this`notes, this`nonce
      ensures Step(State(), outcome) == FinishUpdate(Sync.SyncCustomer(env, old(State())), existing)
    {
      outcome := SyncCustomer();
      if outcome.Failed? {
        var undone := UpdateRow(existing);
      }
    }

    method CreatePipeline(p: Pipeline) returns (outcome: Outcome)
      requires TableOk(Tables())
      modifies this`repo, this`rows, this`order, this`defs, this`creds, this`notes, this`nonce
      ensures Step(State(), outcome) == Saves.CreatePipeline(env, old(State()), p)
    {
      if !env.valid(p.sourceType, p.sourceConfig) { return Failed(Invalid); }
      if p.sourceConfig.None? { return Failed(NotStorable); }
      if p.id in rows || !NameFree(Books(rows, order, defs, creds, notes, nonce), p) { return Failed(NameTaken); }
      rows := rows[p.id := p.(enabled := true, credentialsExternal := false,
                              writeDisposition := if p.writeDisposition == "" then "append" else p.writeDisposition)];
      order := order + [p.id];
      CreateTableOk(old(Tables()), p);
      assert CreateRow(old(Tables()), p) == Ok(Tables());
      outcome := CommitOrDrop(p.id);
    }

    /** commitOrCompensate with the create's compensation. */
    method CommitOrDrop(id: PipelineID) returns (outcome: Outcome)
      requires TableOk(Tables())
      modifies this`repo, this`rows, this`order, this`defs, this`creds, this`notes, this`nonce
      ensures Step(State(), outcome) == FinishCreate(Sync.SyncCustomer(env, old(State())), id)
    {
      outcome := SyncCustomer();
      if outcome.Failed? {
        rows, order, defs, creds := rows - {id}, Without(order, id), defs - {id}, creds - {id};
      }
    }
  }
}
