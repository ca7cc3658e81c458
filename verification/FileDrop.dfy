/** File-drop pipelines: the rewrite of a file_upload pipeline into the
    "filesystem" form the worker loads (workspace/filedrop.go), and its reversal
    on import (workspace/pipelinemirror_import.go). */
module FileDrop {
  import opened Basics
  import opened Domain

  // ---- path.Join and path.Clean ----

  /** strings.Split(s, "/"). */
  function Segments(s: string): (segs: seq<string>)
    ensures segs != []
  {
    if s == "" then [""]
    else if s[0] == '/' then [""] + Segments(s[1..])
    else
      var rest := Segments(s[1..]);
      [[s[0]] + rest[0]] + rest[1..]
  }

  function Slashed(segs: seq<string>): string {
    if segs == [] then ""
    else if |segs| == 1 then segs[0]
    else segs[0] + "/" + Slashed(segs[1..])
  }

  /** The element stack path.Clean keeps while it reads the segments. */
  function CleanStack(rooted: bool, segs: seq<string>): seq<string> {
    if segs == [] then []
    else
      var stack, seg := CleanStack(rooted, segs[..|segs| - 1]), segs[|segs| - 1];
      if seg == "" || seg == "." then stack
      else if seg != ".." then stack + [seg]
      else if stack != [] && stack[|stack| - 1] != ".." then stack[..|stack| - 1]
      else if rooted then stack
      else stack + [seg]
  }

  function PathClean(s: string): string {
    var rooted := s != "" && s[0] == '/';
    var cleaned := (if rooted then "/" else "") + Slashed(CleanStack(rooted, Segments(s)));
    if cleaned == "" then "." else cleaned
  }

  /** The buffer path.Join cleans: elements joined by "/", leading empties dropped. */
  function JoinBuffer(elems: seq<string>): string {
    if elems == [] then ""
    else
      var buf, e := JoinBuffer(elems[..|elems| - 1]), elems[|elems| - 1];
      if buf != "" then buf + "/" + e else e
  }

  function PathJoin(elems: seq<string>): string {
    if JoinBuffer(elems) == "" then "" else PathClean(JoinBuffer(elems))
  }

  // ---- Storage and the upload prefix ----

  datatype S3Config = S3Config(
    bucket: string, keyPrefix: string, endpoint: string, region: string,
    accessKeyId: string, secretAccessKey: string)

  /** uploadStorage: usable only once bucket, keys and endpoint are all there. */
  predicate Provisioned(s3: S3Config) {
    s3.bucket != "" && s3.accessKeyId != "" && s3.secretAccessKey != "" && s3.endpoint != ""
  }

  function BucketUrl(s3: S3Config, id: PipelineID): string {
    "s3://" + PathJoin([s3.bucket, s3.keyPrefix, "uploads", id]) + "/"
  }

  function UploadPrefix(id: PipelineID): string {
    "/uploads/" + id + "/"
  }

  lemma {:induction false} SegmentsAppend(a: string, b: string)
    ensures Segments(a + "/" + b) == Segments(a) + Segments(b)
  {
    var s := a + "/" + b;
    if a == "" {
      assert s[1..] == b;
    } else {
      assert s[1..] == a[1..] + "/" + b;
      SegmentsAppend(a[1..], b);
    }
  }

  lemma {:induction false} SegmentsWhole(s: string)
    requires '/' !in s
    ensures Segments(s) == [s]
  {
    if s != "" {
      SegmentsWhole(s[1..]);
      assert s == [s[0]] + s[1..];
    }
  }

  predicate PlainSegment(s: string) {
    '/' !in s && s != "" && s != "." && s != ".."
  }

  lemma StackPush(rooted: bool, segs: seq<string>, seg: string)
    requires PlainSegment(seg)
    ensures CleanStack(rooted, segs + [seg]) == CleanStack(rooted, segs) + [seg]
  {
    assert (segs + [seg])[..|segs|] == segs;
  }

  lemma {:induction false} SlashedTail(segs: seq<string>, a: string, b: string)
    ensures Slashed(segs + [a, b]) == (if segs == [] then "" else Slashed(segs) + "/") + (a + "/" + b)
  {
    if segs == [] {
      assert [a, b][1..] == [b];
    } else {
      assert (segs + [a, b])[1..] == segs[1..] + [a, b];
      SlashedTail(segs[1..], a, b);
    }
  }

  lemma Reassociate(a: string, b: string, c: string)
    ensures a + (b + c) == a + b + c
  {
  }

  /** A cleaned path keeps its last two plain elements, whatever precedes them. */
  lemma CleanKeepsTail(s: string, segs: seq<string>, a: string, b: string) returns (head: string)
    requires PlainSegment(a) && PlainSegment(b)
    requires Segments(s) == segs + [a] + [b]
    ensures PathClean(s) == head + (a + "/" + b)
    ensures head == "" || head[|head| - 1] == '/'
  {
    var rooted := s != "" && s[0] == '/';
    var stack := CleanStack(rooted, segs);
    StackPush(rooted, segs, a);
    StackPush(rooted, segs + [a], b);
    head := TailOf(if rooted then "/" else "", stack, a, b);
  }

  lemma TailOf(root: string, stack: seq<string>, a: string, b: string) returns (head: string)
    requires root == "" || root == "/"
    ensures root + Slashed(stack + [a] + [b]) == head + (a + "/" + b)
    ensures head == "" || head[|head| - 1] == '/'
  {
    assert stack + [a] + [b] == stack + [a, b];
    SlashedTail(stack, a, b);
    var front := if stack == [] then "" else Slashed(stack) + "/";
    Reassociate(root, front, a + "/" + b);
    head := root + front;
  }

  lemma UploadSegments(s3: S3Config, id: PipelineID) returns (segs: seq<string>)
    requires PlainSegment(id)
    ensures JoinBuffer([s3.bucket, s3.keyPrefix, "uploads", id]) != ""
    ensures Segments(JoinBuffer([s3.bucket, s3.keyPrefix, "uploads", id])) == segs + ["uploads"] + [id]
  {
    var elems := [s3.bucket, s3.keyPrefix, "uploads", id];
    assert elems[..3] == [s3.bucket, s3.keyPrefix, "uploads"];
    assert elems[..3][..2] == [s3.bucket, s3.keyPrefix];
    var head := JoinBuffer([s3.bucket, s3.keyPrefix]);
    var front := JoinBuffer(elems[..3]);
    SegmentsWhole("uploads");
    SegmentsWhole(id);
    SegmentsAppend(front, id);
    if head == "" {
      segs := [];
    } else {
      SegmentsAppend(head, "uploads");
      segs := Segments(head);
    }
  }

  lemma PrefixAfter(before: string, id: PipelineID)
    requires before != "" && before[|before| - 1] == '/'
    ensures HasSuffix(before + ("uploads" + "/" + id) + "/", UploadPrefix(id))
  {
    var cut := before[..|before| - 1];
    assert before == cut + "/";
    assert before + ("uploads" + "/" + id) + "/" == cut + UploadPrefix(id);
    SuffixOfConcat(cut, UploadPrefix(id));
  }

  /** Every storage config sends a pipeline's uploads under …/uploads/<id>/. */
  lemma BucketUrlEndsInPrefix(s3: S3Config, id: PipelineID)
    requires PlainSegment(id)
    ensures HasSuffix(BucketUrl(s3, id), UploadPrefix(id))
  {
    var segs := UploadSegments(s3, id);
    var buffer := JoinBuffer([s3.bucket, s3.keyPrefix, "uploads", id]);
    var head := CleanKeepsTail(buffer, segs, "uploads", id);
    PrefixAfter("s3://" + head, id);
    Reassociate("s3://", head, "uploads" + "/" + id);
  }

  // ---- The file_upload config ----

  datatype UploadedFile = UploadedFile(name: string, file: string, sizeBytes: int, uploadedAt: string)

  function ParseFile(j: Json): Option<UploadedFile> {
    match j
    case Null => Some(UploadedFile("", "", 0, ""))
    case Obj(m) =>
      var name, file, at := StringMember(m, "name"), StringMember(m, "file"), StringMember(m, "uploaded_at");
      var size := if "size_bytes" !in m || m["size_bytes"] == Null then Some(0)
                  else if m["size_bytes"].Num? then Some(m["size_bytes"].n) else None;
      if name.None? || file.None? || at.None? || size.None? then None
      else Some(UploadedFile(name.value, file.value, size.value, at.value))
    case _ => None
  }

  function ParseFiles(elems: seq<Json>): (fs: Option<seq<UploadedFile>>)
    ensures fs.Some? ==> |fs.value| == |elems|
  {
    if elems == [] then Some([])
    else
      var rest, last := ParseFiles(elems[..|elems| - 1]), ParseFile(elems[|elems| - 1]);
      if rest.None? || last.None? then None else Some(rest.value + [last.value])
  }

  /** parseFileUploadConfig: None is a parse error, an empty config has no files. */
  function ParseUploadConfig(raw: RawJson): Option<seq<UploadedFile>> {
    if IsEmptyJson(raw) then Some([])
    else if !raw.value.Obj? then None
    else
      var m := raw.value.fields;
      if "files" !in m || m["files"] == Null then Some([])
      else if m["files"].Arr? then ParseFiles(m["files"].elems)
      else None
  }

  // ---- The rewritten filesystem config ----

  /** One warehouse table of a filesystem source; file_glob is omitted when empty. */
  function EncodeTable(f: UploadedFile): Json {
    if f.file == "" then Obj(map["name" := Str(f.name)])
    else Obj(map["name" := Str(f.name), "file_glob" := Str(f.file)])
  }

  function EncodeTables(fs: seq<UploadedFile>): seq<Json> {
    if fs == [] then [] else EncodeTables(fs[..|fs| - 1]) + [EncodeTable(fs[|fs| - 1])]
  }

  function FilesystemConfig(url: string, fs: seq<UploadedFile>): Json {
    Obj(map["bucket_url" := Str(url), "file_glob" := Str(""), "tables" := Arr(EncodeTables(fs))])
  }

  function StorageCredentials(s3: S3Config): Json {
    Obj(map["access_key_id" := Str(s3.accessKeyId), "secret_access_key" := Str(s3.secretAccessKey),
            "endpoint_url" := Str(s3.endpoint), "region" := Str(s3.region)])
  }

  /** What the rewrite leaves of a file_upload pipeline; None when it is dropped
      (unreadable config, or no files yet). */
  function Resolve(p: Pipeline, s3: S3Config): Option<Pipeline> {
    var fs := ParseUploadConfig(p.sourceConfig);
    if fs.None? || fs.value == [] then None
    else Some(p.(sourceType := FILESYSTEM,
                 sourceConfig := Some(FilesystemConfig(BucketUrl(s3, p.id), fs.value)),
                 credentials := Some(StorageCredentials(s3))))
  }

  /** resolveFileUploadPipeline. */
  method ResolveFileUploadPipeline(p: Pipeline, s3: S3Config) returns (resolved: Option<Pipeline>)
    ensures resolved == Resolve(p, s3)
  {
    var cfg := ParseUploadConfig(p.sourceConfig);
    if cfg.None? || |cfg.value| == 0 {
      return None;
    }
    var tables: seq<Json> := [];
    for i := 0 to |cfg.value|
      invariant tables == EncodeTables(cfg.value[..i])
    {
      assert cfg.value[..i + 1][..i] == cfg.value[..i];
      tables := tables + [EncodeTable(cfg.value[i])];
    }
    assert cfg.value[..|cfg.value|] == cfg.value;
    var url := BucketUrl(s3, p.id);
    resolved := Some(p.(
      sourceType := FILESYSTEM,
      sourceConfig := Some(Obj(map["bucket_url" := Str(url), "file_glob" := Str(""), "tables" := Arr(tables)])),
      credentials := Some(StorageCredentials(s3))));
  }

  // ---- Reversal ----

  datatype Table = Table(name: string, fileGlob: string)

  predicate StringArray(j: Json) {
    j == Null || (j.Arr? && forall e :: e in j.elems ==> e == Null || e.Str?)
  }

  function ParseTable(j: Json): Option<Table> {
    match j
    case Null => Some(Table("", ""))
    case Obj(m) =>
      var name, glob := StringMember(m, "name"), StringMember(m, "file_glob");
      if name.None? || glob.None? || ("files" in m && !StringArray(m["files"])) then None
      else Some(Table(name.value, glob.value))
    case _ => None
  }

  function ParseTables(elems: seq<Json>): (ts: Option<seq<Table>>)
    ensures ts.Some? ==> |ts.value| == |elems|
  {
    if elems == [] then Some([])
    else
      var rest, last := ParseTables(elems[..|elems| - 1]), ParseTable(elems[|elems| - 1]);
      if rest.None? || last.None? then None else Some(rest.value + [last.value])
  }

  datatype FilesystemSource = FilesystemSource(bucketUrl: string, tables: seq<Table>)

  /** json.Unmarshal into the filesystem config; None is a decode error. */
  function ParseFilesystem(raw: RawJson): Option<FilesystemSource> {
    if raw.None? then None
    else if raw.value == Null then Some(FilesystemSource("", []))
    else if !raw.value.Obj? then None
    else
      var m := raw.value.fields;
      var url, glob := StringMember(m, "bucket_url"), StringMember(m, "file_glob");
      var tables := if "tables" !in m || m["tables"] == Null then Some([])
                    else if m["tables"].Arr? then ParseTables(m["tables"].elems) else None;
      if url.None? || glob.None? || tables.None? then None
      else Some(FilesystemSource(url.value, tables.value))
  }

  /** The exact marker of the rewrite: a filesystem source over the pipeline's own
      upload prefix. */
  predicate PointsAtOwnUploads(p: Pipeline) {
    && p.sourceType == FILESYSTEM
    && ParseFilesystem(p.sourceConfig).Some?
    && HasSuffix(ParseFilesystem(p.sourceConfig).value.bucketUrl, UploadPrefix(p.id))
  }

  function EncodeFile(t: Table): Json {
    Obj(map["name" := Str(t.name), "file" := Str(t.fileGlob)])
  }

  function EncodeFiles(ts: seq<Table>): seq<Json> {
    if ts == [] then [] else EncodeFiles(ts[..|ts| - 1]) + [EncodeFile(ts[|ts| - 1])]
  }

  /** A file_upload config holding only names and files; omitted when empty. */
  function UploadConfig(ts: seq<Table>): Json {
    if ts == [] then EMPTY_OBJECT else Obj(map["files" := Arr(EncodeFiles(ts))])
  }

  function Restore(p: Pipeline): Pipeline {
    if PointsAtOwnUploads(p) then
      p.(sourceType := FILE_UPLOAD,
         sourceConfig := Some(UploadConfig(ParseFilesystem(p.sourceConfig).value.tables)))
    else p
  }

  /** restoreFileUpload. */
  method RestoreFileUpload(p: Pipeline) returns (r: Pipeline)
    ensures r == Restore(p)
  {
    r := p;
    if p.sourceType != FILESYSTEM { return; }
    var cfg := ParseFilesystem(p.sourceConfig);
    if cfg.None? { return; }
    if !HasSuffix(cfg.value.bucketUrl, "/uploads/" + p.id + "/") { return; }
    var ts := cfg.value.tables;
    var files: seq<Json> := [];
    for i := 0 to |ts|
      invariant files == EncodeFiles(ts[..i])
    {
      assert ts[..i + 1][..i] == ts[..i];
      files := files + [EncodeFile(ts[i])];
    }
    assert ts[..|ts|] == ts;
    r := p.(sourceType := FILE_UPLOAD,
            sourceConfig := Some(if |ts| == 0 then EMPTY_OBJECT else Obj(map["files" := Arr(files)])));
  }

  // ---- The round trip ----

  /** What survives of a file entry: its table name and its object name. */
  function Entry(f: UploadedFile): Table {
    Table(f.name, f.file)
  }

  function Entries(fs: seq<UploadedFile>): (ts: seq<Table>)
    ensures |ts| == |fs| && forall i :: 0 <= i < |fs| ==> ts[i] == Entry(fs[i])
  {
    seq(|fs|, i requires 0 <= i < |fs| => Entry(fs[i]))
  }

  lemma TableReadsBack(f: UploadedFile)
    ensures ParseTable(EncodeTable(f)) == Some(Entry(f))
  {
  }

  lemma EntriesAppend(fs: seq<UploadedFile>, f: UploadedFile)
    ensures Entries(fs + [f]) == Entries(fs) + [Entry(f)]
  {
  }

  lemma {:induction false} ParseEncodedTables(fs: seq<UploadedFile>)
    ensures ParseTables(EncodeTables(fs)) == Some(Entries(fs))
  {
    if fs == [] {
      assert Entries(fs) == [];
    } else {
      var front, last := fs[..|fs| - 1], fs[|fs| - 1];
      ParseEncodedTables(front);
      var js := EncodeTables(fs);
      assert js[..|js| - 1] == EncodeTables(front) && js[|js| - 1] == EncodeTable(last);
      TableReadsBack(last);
      EntriesAppend(front, last);
      assert fs == front + [last];
    }
  }

  lemma FileReadsBack(t: Table)
    ensures ParseFile(EncodeFile(t)) == Some(UploadedFile(t.name, t.fileGlob, 0, ""))
  {
  }

  lemma {:induction false} ParseEncodedFiles(ts: seq<Table>)
    ensures ParseFiles(EncodeFiles(ts)).Some?
    ensures Entries(ParseFiles(EncodeFiles(ts)).value) == ts
  {
    if ts != [] {
      var front, last := ts[..|ts| - 1], ts[|ts| - 1];
      ParseEncodedFiles(front);
      var js := EncodeFiles(ts);
      assert js[..|js| - 1] == EncodeFiles(front) && js[|js| - 1] == EncodeFile(last);
      FileReadsBack(last);
      EntriesAppend(ParseFiles(EncodeFiles(front)).value, UploadedFile(last.name, last.fileGlob, 0, ""));
      assert ts == front + [last];
    }
  }

  lemma {:induction false} EncodeTablesOfEntries(fs: seq<UploadedFile>, gs: seq<UploadedFile>)
    requires Entries(fs) == Entries(gs)
    ensures EncodeTables(fs) == EncodeTables(gs)
  {
    assert |fs| == |Entries(fs)| == |gs|;
    if fs != [] {
      var n := |fs| - 1;
      assert Entries(fs[..n]) == Entries(fs)[..n] == Entries(gs)[..n] == Entries(gs[..n]);
      EncodeTablesOfEntries(fs[..n], gs[..n]);
      assert Entry(fs[n]) == Entries(fs)[n] == Entries(gs)[n] == Entry(gs[n]);
    }
  }

  lemma ParseEncodedConfig(url: string, fs: seq<UploadedFile>)
    ensures ParseFilesystem(Some(FilesystemConfig(url, fs))) == Some(FilesystemSource(url, Entries(fs)))
  {
    ParseEncodedTables(fs);
  }

  lemma ParseUploadEncoded(ts: seq<Table>)
    ensures ParseUploadConfig(Some(UploadConfig(ts))).Some?
    ensures Entries(ParseUploadConfig(Some(UploadConfig(ts))).value) == ts
  {
    ParseEncodedFiles(ts);
    if ts != [] {
      assert "files" in UploadConfig(ts).fields;
    }
  }

  /** Restoring a rewritten pipeline gives back its source type and its ordered
      (table, file) list, for every storage config; sizes and upload times are
      dropped, and nothing else of the row moves except the injected credentials. */
  lemma RestoreUndoesResolve(p: Pipeline, s3: S3Config)
    requires p.sourceType == FILE_UPLOAD && PlainSegment(p.id)
    requires Resolve(p, s3).Some?
    ensures var fs := ParseUploadConfig(p.sourceConfig).value;
            Restore(Resolve(p, s3).value) ==
            p.(sourceConfig := Some(UploadConfig(Entries(fs))), credentials := Some(StorageCredentials(s3)))
    ensures var back := ParseUploadConfig(Restore(Resolve(p, s3).value).sourceConfig);
            back.Some? && Entries(back.value) == Entries(ParseUploadConfig(p.sourceConfig).value)
  {
    var fs := ParseUploadConfig(p.sourceConfig).value;
    ParseEncodedConfig(BucketUrl(s3, p.id), fs);
    BucketUrlEndsInPrefix(s3, p.id);
    ParseUploadEncoded(Entries(fs));
  }

  /** Rendering a restored pipeline again yields the very form it was restored from. */
  lemma ResolveAfterRestore(p: Pipeline, s3: S3Config)
    requires p.sourceType == FILE_UPLOAD && PlainSegment(p.id)
    requires Resolve(p, s3).Some?
    ensures Resolve(Restore(Resolve(p, s3).value), s3) == Resolve(p, s3)
  {
    var fs := ParseUploadConfig(p.sourceConfig).value;
    var back := Restore(Resolve(p, s3).value);
    RestoreUndoesResolve(p, s3);
    var gs := ParseUploadConfig(back.sourceConfig).value;
    EncodeTablesOfEntries(fs, gs);
    assert |gs| == |Entries(gs)| == |fs|;
  }

  // ---- What is restored, member by member ----

  ghost predicate TextOrNull(m: map<string, Json>, key: string) {
    key in m ==> m[key].Null? || m[key].Str?
  }

  /** A member read as text; absent or null is "". */
  ghost function TextOf(j: Json, key: string): string {
    if j.Obj? && key in j.fields && j.fields[key].Str? then j.fields[key].s else ""
  }

  ghost function ElemsOf(j: Json, key: string): seq<Json> {
    if j.Obj? && key in j.fields && j.fields[key].Arr? then j.fields[key].elems else []
  }

  ghost predicate IsTable(j: Json) {
    j.Null? ||
    (j.Obj? && TextOrNull(j.fields, "name") && TextOrNull(j.fields, "file_glob") && ("files" in j.fields ==> StringArray(j.fields["files"])))
  }

  /** A config the filesystem source reads. */
  ghost predicate IsFilesystem(raw: RawJson) {
    raw.Some? &&
    (raw.value.Null? ||
     (raw.value.Obj? && TextOrNull(raw.value.fields, "bucket_url") && TextOrNull(raw.value.fields, "file_glob")
      && ("tables" in raw.value.fields ==>
            raw.value.fields["tables"].Null? ||
            (raw.value.fields["tables"].Arr? &&
             var ts := raw.value.fields["tables"].elems; forall i :: 0 <= i < |ts| ==> IsTable(ts[i])))))
  }

  ghost predicate TableIs(t: Table, j: Json) {
    t.name == TextOf(j, "name") && t.fileGlob == TextOf(j, "file_glob")
  }

  lemma ParseTableIff(j: Json)
    ensures ParseTable(j).Some? <==> IsTable(j)
    ensures ParseTable(j).Some? ==> TableIs(ParseTable(j).value, j)
  {
  }

  lemma {:induction false} ParseTablesIff(es: seq<Json>)
    ensures ParseTables(es).Some? <==> forall i :: 0 <= i < |es| ==> IsTable(es[i])
    ensures ParseTables(es).Some? ==> forall i :: 0 <= i < |es| ==> TableIs(ParseTables(es).value[i], es[i])
    decreases |es|
  {
    if es != [] {
      var front, last := es[..|es| - 1], es[|es| - 1];
      ParseTablesIff(front);
      ParseTableIff(last);
      assert forall i :: 0 <= i < |front| ==> es[i] == front[i];
      assert (forall i :: 0 <= i < |es| ==> IsTable(es[i])) <==> IsTable(last) && forall i :: 0 <= i < |front| ==> IsTable(front[i]);
    }
  }

  lemma FilesystemIff(raw: RawJson)
    ensures ParseFilesystem(raw).Some? <==> IsFilesystem(raw)
    ensures ParseFilesystem(raw).Some? ==>
              var s, es := ParseFilesystem(raw).value, ElemsOf(raw.value, "tables");
              s.bucketUrl == TextOf(raw.value, "bucket_url") && |s.tables| == |es| && forall i :: 0 <= i < |es| ==> TableIs(s.tables[i], es[i])
  {
    if raw.Some? && raw.value.Obj? { ParseTablesIff(ElemsOf(raw.value, "tables")); }
  }

  /** The upload config with one named file per table, nothing at all without any. */
  ghost predicate ListsTables(raw: RawJson, es: seq<Json>) {
    && raw.Some? && raw.value.Obj?
    && if es == [] then raw.value.fields == map[]
       else
         && raw.value.fields.Keys == {"files"} && |ElemsOf(raw.value, "files")| == |es|
         && forall i :: 0 <= i < |es| ==>
              ElemsOf(raw.value, "files")[i] == Obj(map["name" := Str(TextOf(es[i], "name")), "file" := Str(TextOf(es[i], "file_glob"))])
  }

  lemma {:induction false} EncodedFileAt(ts: seq<Table>, i: nat)
    requires i < |ts|
    ensures |EncodeFiles(ts)| == |ts| && EncodeFiles(ts)[i] == EncodeFile(ts[i])
    decreases |ts|
  {
    if |ts| > 1 { EncodedFileAt(ts[..|ts| - 1], if i < |ts| - 1 then i else 0); }
  }

  /** The restore changes a row exactly when it is a filesystem source over the row's own
      upload prefix, and then makes it the upload that lists its tables, and nothing else. */
  lemma RestoreChangesOnlyOwnUploads(p: Pipeline)
    ensures Restore(p) != p <==>
            && p.sourceType == "filesystem" && IsFilesystem(p.sourceConfig)
            && HasSuffix(TextOf(p.sourceConfig.value, "bucket_url"), "/uploads/" + p.id + "/")
    ensures Restore(p) != p ==>
              && Restore(p) == p.(sourceType := "file_upload", sourceConfig := Restore(p).sourceConfig)
              && ListsTables(Restore(p).sourceConfig, ElemsOf(p.sourceConfig.value, "tables"))
  {
    FilesystemIff(p.sourceConfig);
    if PointsAtOwnUploads(p) {
      assert Restore(p).sourceType != p.sourceType;
      var ts := ParseFilesystem(p.sourceConfig).value.tables;
      forall i | 0 <= i < |ts| ensures |EncodeFiles(ts)| == |ts| && EncodeFiles(ts)[i] == EncodeFile(ts[i]) { EncodedFileAt(ts, i); }
    }
  }

  // ---- The bucket URL spelled out ----

  ghost predicate AllPlain(segs: seq<string>) {
    forall i :: 0 <= i < |segs| ==> PlainSegment(segs[i])
  }

  lemma {:induction false} PlainStack(rooted: bool, segs: seq<string>)
    requires AllPlain(segs)
    ensures CleanStack(rooted, segs) == segs
  {
    if segs != [] {
      PlainStack(rooted, segs[..|segs| - 1]);
      assert segs == segs[..|segs| - 1] + [segs[|segs| - 1]];
    }
  }

  lemma {:induction false} SlashedSegments(segs: seq<string>)
    requires AllPlain(segs) && segs != []
    ensures Segments(Slashed(segs)) == segs && Slashed(segs) != "" && Slashed(segs)[0] != '/'
    decreases |segs|
  {
    SegmentsWhole(segs[0]);
    if |segs| > 1 {
      SlashedSegments(segs[1..]);
      SegmentsAppend(segs[0], Slashed(segs[1..]));
      assert [segs[0]] + segs[1..] == segs;
    }
  }

  /** A path of plain elements is clean already. */
  lemma CleanPath(segs: seq<string>)
    requires AllPlain(segs) && segs != []
    ensures PathClean(Slashed(segs)) == Slashed(segs)
  {
    SlashedSegments(segs);
    PlainStack(false, segs);
    assert "" + Slashed(segs) == Slashed(segs);
  }

  lemma {:induction false} SlashedAppend(segs: seq<string>, last: string)
    requires segs != []
    ensures Slashed(segs + [last]) == Slashed(segs) + "/" + last
    decreases |segs|
  {
    if |segs| == 1 {
      assert (segs + [last])[1..] == [last];
    } else {
      assert (segs + [last])[1..] == segs[1..] + [last];
      SlashedAppend(segs[1..], last);
      assert segs[0] + "/" + (Slashed(segs[1..]) + "/" + last) == (segs[0] + "/" + Slashed(segs[1..])) + "/" + last;
    }
  }

  lemma JoinSnoc(elems: seq<string>, e: string)
    requires JoinBuffer(elems) != ""
    ensures JoinBuffer(elems + [e]) == JoinBuffer(elems) + "/" + e
  {
    assert (elems + [e])[..|elems|] == elems;
  }

  lemma JoinFour(a: string, b: string, c: string, d: string)
    requires a != ""
    ensures JoinBuffer([a, b, c, d]) == a + "/" + b + "/" + c + "/" + d
  {
    assert [a][..0] == [] && JoinBuffer([a]) == a;
    JoinSnoc([a], b);
    JoinSnoc([a] + [b], c);
    JoinSnoc([a] + [b] + [c], d);
    assert [a, b, c, d] == [a] + [b] + [c] + [d];
  }

  lemma UploadsUnder(x: string, id: string)
    ensures x + "/" + "uploads" + "/" + id == x + "/uploads/" + id
  {
  }

  lemma JoinedUploads(bucket: string, prefix: seq<string>, id: string)
    requires PlainSegment(bucket) && AllPlain(prefix) && prefix != [] && PlainSegment(id)
    ensures JoinBuffer([bucket, Slashed(prefix), "uploads", id]) == Slashed([bucket] + prefix + ["uploads"] + [id])
    ensures Slashed([bucket] + prefix + ["uploads"] + [id]) == bucket + "/" + Slashed(prefix) + "/uploads/" + id
  {
    var segs := [bucket] + prefix;
    assert segs[1..] == prefix;
    assert Slashed(segs) == bucket + "/" + Slashed(prefix);
    SlashedAppend(segs, "uploads");
    SlashedAppend(segs + ["uploads"], id);
    JoinFour(bucket, Slashed(prefix), "uploads", id);
    UploadsUnder(bucket + "/" + Slashed(prefix), id);
  }

  /** For a bucket and a key prefix of plain elements, the uploads of a pipeline lie at
      s3://bucket/prefix/uploads/id/. */
  lemma BucketUrlSpelled(s3: S3Config, id: PipelineID, prefix: seq<string>)
    requires PlainSegment(s3.bucket) && AllPlain(prefix) && prefix != [] && s3.keyPrefix == Slashed(prefix) && PlainSegment(id)
    ensures BucketUrl(s3, id) == "s3://" + (s3.bucket + "/" + s3.keyPrefix + "/uploads/" + id) + "/"
  {
    JoinedUploads(s3.bucket, prefix, id);
    var whole := [s3.bucket] + prefix + ["uploads"] + [id];
    assert AllPlain(whole);
    CleanPath(whole);
    SlashedSegments(whole);
  }

  lemma StackSnoc(segs: seq<string>, seg: string)
    ensures seg == "" ==> CleanStack(false, segs + [seg]) == CleanStack(false, segs)
    ensures PlainSegment(seg) ==> CleanStack(false, segs + [seg]) == CleanStack(false, segs) + [seg]
  {
    assert (segs + [seg])[..|segs|] == segs;
  }

  lemma StackSkips(bucket: string, id: string)
    requires PlainSegment(bucket) && PlainSegment(id)
    ensures CleanStack(false, [bucket, "", "uploads", id]) == [bucket, "uploads", id]
  {
    assert CleanStack(false, []) == [];
    StackSnoc([], bucket);
    StackSnoc([] + [bucket], "");
    StackSnoc([] + [bucket] + [""], "uploads");
    StackSnoc([] + [bucket] + [""] + ["uploads"], id);
    assert [bucket, "", "uploads", id] == [] + [bucket] + [""] + ["uploads"] + [id];
    assert [] + [bucket] + ["uploads"] + [id] == [bucket, "uploads", id];
  }

  lemma UnprefixedSegments(bucket: string, id: string)
    requires PlainSegment(bucket) && PlainSegment(id)
    ensures Segments(bucket + "/" + "" + "/" + "uploads" + "/" + id) == [bucket, "", "uploads", id]
  {
    SegmentsAppend(bucket + "/" + "" + "/" + "uploads", id);
    SegmentsAppend(bucket + "/" + "", "uploads");
    SegmentsAppend(bucket, "");
    SegmentsWhole(bucket);
    SegmentsWhole("uploads");
    SegmentsWhole(id);
  }

  lemma SlashedThree(a: string, b: string, c: string)
    ensures Slashed([a, b, c]) == a + "/" + (b + "/" + c)
  {
    assert [a, b, c][1..] == [b, c];
    assert [b, c][1..] == [c];
    assert Slashed([c]) == c;
    assert Slashed([b, c]) == b + "/" + c;
    assert a + "/" + (b + "/" + c) == a + ("/" + (b + "/" + c));
  }

  /** Without a key prefix they lie at s3://bucket/uploads/id/. */
  lemma BucketUrlUnprefixed(s3: S3Config, id: PipelineID)
    requires PlainSegment(s3.bucket) && s3.keyPrefix == "" && PlainSegment(id)
    ensures BucketUrl(s3, id) == "s3://" + (s3.bucket + "/uploads/" + id) + "/"
  {
    var buffer := s3.bucket + "/" + "" + "/" + "uploads" + "/" + id;
    JoinFour(s3.bucket, "", "uploads", id);
    UnprefixedSegments(s3.bucket, id);
    StackSkips(s3.bucket, id);
    SlashedThree(s3.bucket, "uploads", id);
    assert buffer[0] == s3.bucket[0];
    assert s3.bucket + "/" + ("uploads" + "/" + id) == s3.bucket + "/uploads/" + id;
    assert PathClean(buffer) == "" + Slashed([s3.bucket, "uploads", id]);
  }

  /** One entry of a stored upload config. */
  ghost predicate IsUpload(j: Json) {
    j.Null? ||
    (j.Obj? && TextOrNull(j.fields, "name") && TextOrNull(j.fields, "file") && TextOrNull(j.fields, "uploaded_at")
     && ("size_bytes" in j.fields ==> j.fields["size_bytes"].Null? || j.fields["size_bytes"].Num?))
  }

  /** A stored upload config with something to load. */
  ghost predicate HasUploads(raw: RawJson) {
    && raw.Some? && raw.value.Obj? && "files" in raw.value.fields && raw.value.fields["files"].Arr?
    && var es := raw.value.fields["files"].elems; es != [] && forall i :: 0 <= i < |es| ==> IsUpload(es[i])
  }

  lemma {:induction false} ParseFilesIff(es: seq<Json>)
    ensures ParseFiles(es).Some? <==> forall i :: 0 <= i < |es| ==> IsUpload(es[i])
    decreases |es|
  {
    if es != [] {
      var front, last := es[..|es| - 1], es[|es| - 1];
      ParseFilesIff(front);
      assert es == front + [last];
      assert ParseFile(last).Some? <==> IsUpload(last);
    }
  }

  /** An upload has a filesystem form exactly if its config is well-formed and lists a file. */
  lemma ResolvesIff(p: Pipeline, s3: S3Config)
    ensures Resolve(p, s3).Some? <==> HasUploads(p.sourceConfig)
  {
    if !IsEmptyJson(p.sourceConfig) && p.sourceConfig.value.Obj? {
      var m := p.sourceConfig.value.fields;
      if "files" in m && m["files"].Arr? { ParseFilesIff(m["files"].elems); }
    }
  }

  /** A rewritten pipeline is a filesystem source over its upload prefix, one table per file,
      and carries the workspace's storage credentials, each under its own name. */
  lemma ResolvedPipeline(p: Pipeline, s3: S3Config)
    requires Resolve(p, s3).Some?
    ensures var r, fs := Resolve(p, s3).value, ParseUploadConfig(p.sourceConfig).value;
            && r == p.(sourceType := "filesystem", sourceConfig := r.sourceConfig, credentials := r.credentials)
            && ParseFilesystem(r.sourceConfig) == Some(FilesystemSource(BucketUrl(s3, p.id), Entries(fs)))
            && r.credentials.Some? && r.credentials.value.Obj?
            && var c := r.credentials.value.fields;
               && c.Keys == {"access_key_id", "secret_access_key", "endpoint_url", "region"}
               && c["access_key_id"] == Str(s3.accessKeyId) && c["secret_access_key"] == Str(s3.secretAccessKey)
               && c["endpoint_url"] == Str(s3.endpoint) && c["region"] == Str(s3.region)
  {
    ParseEncodedConfig(BucketUrl(s3, p.id), ParseUploadConfig(p.sourceConfig).value);
  }
}
