/** Google-backed credentials (workspace/pipeline_schema.go) and the memoising resolver
    that serves them (workspace/pipeline.go). */
module OAuth {
  import opened Basics
  import opened Domain

  const SHEETS := "google_sheets"
  const DUCKDB := "duckdb"

  predicate IsGoogle(sourceType: string) {
    sourceType == SHEETS || sourceType == DUCKDB
  }

  // ---- The oauth member ----

  /** googleOAuthCredential; "" is an absent field. */
  datatype Token = Token(grantId: string, connectionId: string, refreshToken: string, email: string,
                         clientId: string, clientSecret: string)

  function ParseToken(j: Json): Option<Token> {
    if !j.Obj? then None
    else
      var m := j.fields;
      var grant, conn := StringMember(m, "grant_id"), StringMember(m, "connection_id");
      var refresh, email := StringMember(m, "refresh_token"), StringMember(m, "email");
      var id, secret := StringMember(m, "client_id"), StringMember(m, "client_secret");
      if grant.None? || conn.None? || refresh.None? || email.None? || id.None? || secret.None? then None
      else Some(Token(grant.value, conn.value, refresh.value, email.value, id.value, secret.value))
  }

  /** A member written with omitempty. */
  function Optional(m: map<string, Json>, key: string, value: string): map<string, Json> {
    if value == "" then m else m[key := Str(value)]
  }

  function EncodeToken(t: Token): Json {
    Obj(Optional(Optional(Optional(Optional(Optional(Optional(map[],
      "grant_id", t.grantId), "connection_id", t.connectionId), "refresh_token", t.refreshToken),
      "email", t.email), "client_id", t.clientId), "client_secret", t.clientSecret))
  }

  lemma TokenRoundTrip(t: Token)
    ensures ParseToken(EncodeToken(t)) == Some(t)
  {
  }

  /** The oauth member of a credential, whatever the source type. */
  function AnyToken(raw: RawJson): Option<Token> {
    if IsEmptyJson(raw) || !raw.value.Obj? then None
    else if "oauth" !in raw.value.fields || raw.value.fields["oauth"] == Null then None
    else ParseToken(raw.value.fields["oauth"])
  }

  /** parseGoogleOAuth. */
  function ParseOAuth(sourceType: string, raw: RawJson): Option<Token> {
    if IsGoogle(sourceType) then AnyToken(raw) else None
  }

  /** storeGoogleOAuth: the member replaced, every sibling kept; None is an error. */
  function StoreOAuth(sourceType: string, raw: RawJson, t: Token): Option<Json> {
    if !IsGoogle(sourceType) then None
    else if IsEmptyJson(raw) then Some(Obj(map["oauth" := EncodeToken(t)]))
    else if !raw.value.Obj? then None
    else Some(Obj(raw.value.fields["oauth" := EncodeToken(t)]))
  }

  /** googleConnectionRef: an embedded refresh token wins over a reference. */
  function ConnectionRef(sourceType: string, raw: RawJson): Option<string> {
    var t := ParseOAuth(sourceType, raw);
    if t.None? || t.value.connectionId == "" || t.value.refreshToken != "" then None else Some(t.value.connectionId)
  }

  function GrantRef(sourceType: string, raw: RawJson): Option<string> {
    var t := ParseOAuth(sourceType, raw);
    if t.None? || t.value.grantId == "" then None else Some(t.value.grantId)
  }

  // ---- The DuckDB secret ----

  predicate IsText(j: Json) {
    j == Null || j.Str?
  }

  /** A map of plain strings; null values read as "". None is a type error. */
  function StringMap(m: map<string, Json>, key: string): Option<map<string, Json>> {
    if key !in m || m[key] == Null then Some(map[])
    else if !m[key].Obj? then None
    else
      var o := m[key].fields;
      if exists k :: k in o && !IsText(o[k]) then None
      else Some(o + map k | k in o && o[k] == Null :: Str(""))
  }

  function Defaulted(m: map<string, Json>, key: string, value: string): map<string, Json> {
    if key in m && m[key] != Str("") then m else m[key := Str(value)]
  }

  function GDriveSecret(secret: map<string, Json>, t: Token): map<string, Json> {
    Defaulted(Defaulted(secret, "type", "gdrive"), "PROVIDER", "config")
      ["REFRESH_TOKEN" := Str(t.refreshToken)]["CLIENT_ID" := Str(t.clientId)]["CLIENT_SECRET" := Str(t.clientSecret)]
  }

  /** renderDuckDBGoogleSecret: the token flattened into the secret, the oauth member gone. */
  function RenderDuckDB(raw: RawJson, t: Token): Option<Json> {
    if !IsEmptyJson(raw) && !raw.value.Obj? then None
    else
      var m: map<string, Json> := if IsEmptyJson(raw) then map[] else raw.value.fields;
      var attach, secret := StringMap(m, "attach_params"), StringMap(m, "secret");
      var oauthOk := "oauth" !in m || m["oauth"] == Null || ParseToken(m["oauth"]).Some?;
      if attach.None? || secret.None? || !oauthOk then None
      else
        var out := map["secret" := Obj(GDriveSecret(secret.value, t))];
        Some(Obj(if attach.value == map[] then out else out["attach_params" := Obj(attach.value)]))
  }

  // ---- Serving without memory ----

  /** A usable Google connection's credentials. */
  datatype GoogleCreds = GoogleCreds(refreshToken: string, email: string, clientId: string)

  /** What a batch can look up: connections by id (None when missing, of another type or
      without a refresh token) and the workspace's OAuth app ("" when not connected). */
  datatype Stores = Stores(connectionsWired: bool, connection: string -> Option<GoogleCreds>, clientId: string, clientSecret: string)

  /** resolveConnectionCredential. */
  function Expand(st: Stores, sourceType: string, raw: RawJson): Option<Json> {
    var ref := ConnectionRef(sourceType, raw);
    if ref.None? || !st.connectionsWired then None
    else
      var gc := st.connection(ref.value);
      if gc.None? then None
      else StoreOAuth(sourceType, raw, Token("", "", gc.value.refreshToken, gc.value.email, gc.value.clientId, ""))
  }

  /** injectGoogleOAuthClient; None leaves the credential as it is. */
  function InjectClient(sourceType: string, raw: RawJson, clientId: string, clientSecret: string): Option<Json> {
    var t := ParseOAuth(sourceType, raw);
    if t.None? || t.value.refreshToken == "" || t.value.clientId != clientId then None
    else
      var full := t.value.(clientSecret := clientSecret);
      if sourceType == DUCKDB then RenderDuckDB(raw, full) else StoreOAuth(sourceType, raw, full)
  }

  /** serveGoogleOAuthCredential. */
  function ServeBare(sourceType: string, raw: Json): Json {
    if sourceType != DUCKDB then raw
    else
      var t := ParseOAuth(sourceType, Some(raw));
      if t.None? then raw
      else
        var rendered := RenderDuckDB(Some(raw), t.value);
        if rendered.None? then raw else rendered.value
  }

  /** inject, as one uncached lookup; None leaves the credential as it is. */
  function Inject(st: Stores, sourceType: string, raw: RawJson): Option<Json> {
    if !IsGoogle(sourceType) then None
    else
      var expanded := Expand(st, sourceType, raw);
      var current := if expanded.Some? then Some(expanded.value) else raw;
      var bare := if expanded.Some? then Some(ServeBare(sourceType, expanded.value)) else None;
      if st.clientId == "" || st.clientSecret == "" then bare
      else
        var injected := InjectClient(sourceType, current, st.clientId, st.clientSecret);
        if injected.Some? then injected else bare
  }

  /** staleClientID, uncached. */
  function StaleClient(st: Stores, sourceType: string, raw: RawJson): bool {
    var expanded := Expand(st, sourceType, raw);
    var t := ParseOAuth(sourceType, if expanded.Some? then Some(expanded.value) else raw);
    t.Some? && t.value.refreshToken != "" && st.clientId != "" && t.value.clientId != st.clientId
  }

  /** What the worker is given for a stored credential, by the poll and by the render. */
  function Served(st: Stores, sourceType: string, raw: Json): Json {
    var injected := Inject(st, sourceType, Some(raw));
    if injected.Some? then injected.value else raw
  }

  // ---- The memoising resolver ----

  /** oauthClientResolver's own fields; a cached None is a failed lookup. */
  datatype Memo = Memo(resolved: bool, clientId: string, clientSecret: string, connections: map<string, Option<GoogleCreds>>)

  const FRESH_MEMO := Memo(false, "", "", map[])

  /** Whatever the memo holds is what the stores say. */
  ghost predicate Consistent(st: Stores, m: Memo) {
    && (m.resolved ==> m.clientId == st.clientId && m.clientSecret == st.clientSecret)
    && (forall id :: id in m.connections ==> m.connections[id] == st.connection(id))
  }

  datatype Request = InjectRequest(sourceType: string, raw: RawJson) | StaleRequest(sourceType: string, raw: RawJson)

  datatype Reply = Injected(json: Option<Json>) | IsStale(stale: bool)

  /** The answer without any memory. */
  function Answer(st: Stores, r: Request): Reply {
    match r
    case InjectRequest(t, raw) => Injected(Inject(st, t, raw))
    case StaleRequest(t, raw) => IsStale(StaleClient(st, t, raw))
  }

  class Resolver {
    const stores: Stores
    var resolved: bool
    var clientId: string
    var clientSecret: string
    var connCache: map<string, Option<GoogleCreds>>

    ghost function State(): Memo
      reads this
    {
      Memo(resolved, clientId, clientSecret, connCache)
    }

    ghost predicate Valid()
      reads this
    {
      Consistent(stores, State()) && (!resolved ==> clientId == "" && clientSecret == "")
    }

    constructor (st: Stores)
      ensures Valid() && stores == st && State() == FRESH_MEMO
    {
      stores, resolved, clientId, clientSecret, connCache := st, false, "", "", map[];
    }

    method ResolveConnectionCredential(sourceType: string, raw: RawJson) returns (expanded: Option<Json>)
      requires Valid()
      modifies this`connCache
      ensures Valid() && expanded == Expand(stores, sourceType, raw)
    {
      var ref := ConnectionRef(sourceType, raw);
      if ref.None? || !stores.connectionsWired { return None; }
      if ref.value !in connCache {
        connCache := connCache[ref.value := stores.connection(ref.value)];
      }
      var gc := connCache[ref.value];
      if gc.None? { return None; }
      expanded := StoreOAuth(sourceType, raw, Token("", "", gc.value.refreshToken, gc.value.email, gc.value.clientId, ""));
    }

    method Load()
      requires Valid()
      modifies this`resolved, this`clientId, this`clientSecret
      ensures Valid() && resolved && clientId == stores.clientId && clientSecret == stores.clientSecret
    {
      if resolved { return; }
      resolved := true;
      clientId, clientSecret := stores.clientId, stores.clientSecret;
    }

    method InjectInto(sourceType: string, raw: RawJson) returns (injected: Option<Json>)
      requires Valid()
      modifies this
      ensures Valid() && injected == Inject(stores, sourceType, raw)
    {
      if !IsGoogle(sourceType) { return None; }
      var expanded := ResolveConnectionCredential(sourceType, raw);
      var current := if expanded.Some? then Some(expanded.value) else raw;
      Load();
      if clientId == "" || clientSecret == "" {
        if expanded.Some? { return Some(ServeBare(sourceType, expanded.value)); }
        return None;
      }
      injected := InjectClient(sourceType, current, clientId, clientSecret);
      if injected.None? && expanded.Some? {
        injected := Some(ServeBare(sourceType, expanded.value));
      }
    }

    method StaleClientID(sourceType: string, raw: RawJson) returns (stale: bool)
      requires Valid()
      modifies this
      ensures Valid() && stale == StaleClient(stores, sourceType, raw)
    {
      var expanded := ResolveConnectionCredential(sourceType, raw);
      var t := ParseOAuth(sourceType, if expanded.Some? then Some(expanded.value) else raw);
      if t.None? || t.value.refreshToken == "" { return false; }
      Load();
      if clientId == "" { return false; }
      return t.value.clientId != clientId;
    }

    /** A batch, in any order and mix of questions, answered from one memo: each answer is
        the uncached one. */
    method AnswerBatch(requests: seq<Request>) returns (replies: seq<Reply>)
      requires Valid()
      modifies this
      ensures Valid() && |replies| == |requests|
      ensures forall i :: 0 <= i < |requests| ==> replies[i] == Answer(stores, requests[i])
    {
      replies := [];
      for i := 0 to |requests|
        invariant Valid() && |replies| == i
        invariant forall j :: 0 <= j < i ==> replies[j] == Answer(stores, requests[j])
      {
        match requests[i] {
          case InjectRequest(t, raw) =>
            var injected := InjectInto(t, raw);
            replies := replies + [Injected(injected)];
          case StaleRequest(t, raw) =>
            var stale := StaleClientID(t, raw);
            replies := replies + [IsStale(stale)];
        }
      }
    }
  }

  /** The worker poll: whatever the batch, each served credential is Served. */
  method PollCredentials(st: Stores, ps: seq<(string, Json)>) returns (served: seq<Json>)
    ensures |served| == |ps| && forall i :: 0 <= i < |ps| ==> served[i] == Served(st, ps[i].0, ps[i].1)
  {
    var oauth := new Resolver(st);
    served := [];
    for i := 0 to |ps|
      invariant oauth.Valid() && oauth.stores == st && fresh(oauth) && |served| == i
      invariant forall j :: 0 <= j < i ==> served[j] == Served(st, ps[j].0, ps[j].1)
    {
      var injected := oauth.InjectInto(ps[i].0, Some(ps[i].1));
      served := served + [if injected.Some? then injected.value else ps[i].1];
    }
  }

  /** The .age render: the same credential inside another batch, between staleness probes. */
  method RenderCredential(oauth: Resolver, sourceType: string, raw: Json) returns (plaintext: Json, stale: bool)
    requires oauth.Valid()
    modifies oauth
    ensures oauth.Valid() && plaintext == Served(oauth.stores, sourceType, raw) && stale == StaleClient(oauth.stores, sourceType, Some(raw))
  {
    var injected := oauth.InjectInto(sourceType, Some(raw));
    plaintext := if injected.Some? then injected.value else raw;
    stale := oauth.StaleClientID(sourceType, Some(raw));
  }

  // ---- A reference serves what an embedded token would ----

  /** The credential with these siblings and this oauth member. */
  function WithToken(siblings: map<string, Json>, t: Token): Json {
    Obj(siblings["oauth" := EncodeToken(t)])
  }

  function Reference(id: string): Token { Token("", id, "", "", "", "") }

  function Embedded(gc: GoogleCreds): Token { Token("", "", gc.refreshToken, gc.email, gc.clientId, "") }

  lemma WithTokenParses(sourceType: string, siblings: map<string, Json>, t: Token)
    requires IsGoogle(sourceType)
    ensures ParseOAuth(sourceType, Some(WithToken(siblings, t))) == Some(t)
  {
    TokenRoundTrip(t);
    assert "oauth" in WithToken(siblings, t).fields;
  }

  lemma ReferenceExpands(st: Stores, sourceType: string, siblings: map<string, Json>, id: string, gc: GoogleCreds)
    requires IsGoogle(sourceType) && id != "" && gc.refreshToken != ""
    requires st.connectionsWired && st.connection(id) == Some(gc)
    ensures Expand(st, sourceType, Some(WithToken(siblings, Reference(id)))) == Some(WithToken(siblings, Embedded(gc)))
    ensures Expand(st, sourceType, Some(WithToken(siblings, Embedded(gc)))) == None
  {
    WithTokenParses(sourceType, siblings, Reference(id));
    WithTokenParses(sourceType, siblings, Embedded(gc));
    var raw := WithToken(siblings, Reference(id));
    assert "oauth" in raw.fields;
    assert raw.fields["oauth" := EncodeToken(Embedded(gc))] == siblings["oauth" := EncodeToken(Embedded(gc))];
  }

  // ---- What renders as a DuckDB secret, and as which ----

  /** Absent, null, or an object of strings and nulls. */
  ghost predicate TextMember(m: map<string, Json>, key: string) {
    key in m && m[key] != Null ==> m[key].Obj? && forall k :: k in m[key].fields ==> m[key].fields[k] == Null || m[key].fields[k].Str?
  }

  /** Absent, null, or a string. */
  ghost predicate TextField(m: map<string, Json>, key: string) {
    key in m ==> m[key] == Null || m[key].Str?
  }

  /** Absent, null, or an object whose six known members are strings. */
  ghost predicate TokenMember(m: map<string, Json>) {
    "oauth" in m && m["oauth"] != Null ==>
      && m["oauth"].Obj?
      && var t := m["oauth"].fields;
         && TextField(t, "grant_id") && TextField(t, "connection_id") && TextField(t, "refresh_token")
         && TextField(t, "email") && TextField(t, "client_id") && TextField(t, "client_secret")
  }

  /** A document the DuckDB credential type reads. */
  ghost predicate Renders(raw: RawJson) {
    IsEmptyJson(raw) ||
    (raw.value.Obj? && TextMember(raw.value.fields, "attach_params") && TextMember(raw.value.fields, "secret") && TokenMember(raw.value.fields))
  }

  /** What the document says at key of its member; null reads as "". */
  ghost function TextAt(raw: RawJson, member: string, key: string): Option<string> {
    if IsEmptyJson(raw) || !raw.value.Obj? || member !in raw.value.fields || !raw.value.fields[member].Obj? then None
    else
      var o := raw.value.fields[member].fields;
      if key !in o then None else if o[key].Str? then Some(o[key].s) else Some("")
  }

  ghost predicate MemberKept(out: map<string, Json>, raw: RawJson, member: string, key: string) {
    Lookup(out, key) == match TextAt(raw, member, key) case None => None case Some(s) => Some(Str(s))
  }

  /** Its own value unless that is absent or empty. */
  ghost predicate Defaults(out: map<string, Json>, raw: RawJson, key: string, value: string) {
    var own := TextAt(raw, "secret", key);
    Lookup(out, key) == Some(Str(if own.Some? && own.value != "" then own.value else value))
  }

  const TOKEN_KEYS := {"REFRESH_TOKEN", "CLIENT_ID", "CLIENT_SECRET"}
  const DEFAULTED_KEYS := {"type", "PROVIDER"}

  /** The secret carries the token, names its type and provider, and keeps every other key;
      attach parameters are kept, and nothing else is in the document. */
  ghost predicate SecretOf(out: Json, raw: RawJson, t: Token) {
    && out.Obj? && out.fields.Keys <= {"secret", "attach_params"} && "secret" in out.fields && out.fields["secret"].Obj?
    && (var secret := out.fields["secret"].fields;
        && Lookup(secret, "REFRESH_TOKEN") == Some(Str(t.refreshToken)) && Lookup(secret, "CLIENT_ID") == Some(Str(t.clientId))
        && Lookup(secret, "CLIENT_SECRET") == Some(Str(t.clientSecret))
        && Defaults(secret, raw, "type", "gdrive") && Defaults(secret, raw, "PROVIDER", "config")
        && (forall k :: k !in TOKEN_KEYS && k !in DEFAULTED_KEYS ==> MemberKept(secret, raw, "secret", k)))
    && (if "attach_params" in out.fields
        then out.fields["attach_params"].Obj? && forall k :: MemberKept(out.fields["attach_params"].fields, raw, "attach_params", k)
        else forall k :: TextAt(raw, "attach_params", k).None?)
  }

  lemma TokenMemberIff(m: map<string, Json>)
    ensures TokenMember(m) <==> "oauth" !in m || m["oauth"] == Null || ParseToken(m["oauth"]).Some?
  {
  }

  lemma StringMapIff(m: map<string, Json>, key: string)
    ensures StringMap(m, key).Some? <==> TextMember(m, key)
  {
  }

  lemma StringMapAt(m: map<string, Json>, member: string, k: string)
    requires StringMap(m, member).Some?
    ensures MemberKept(StringMap(m, member).value, Some(Obj(m)), member, k)
  {
    if member in m && m[member].Obj? {
      var o := m[member].fields;
      assert k in o ==> IsText(o[k]);
    }
  }

  lemma RendersIff(raw: RawJson, t: Token)
    ensures RenderDuckDB(raw, t).Some? <==> Renders(raw)
  {
    if !IsEmptyJson(raw) && raw.value.Obj? {
      StringMapIff(raw.value.fields, "attach_params");
      StringMapIff(raw.value.fields, "secret");
      TokenMemberIff(raw.value.fields);
    } else if IsEmptyJson(raw) {
      assert StringMap(map[], "attach_params") == Some(map[]) && StringMap(map[], "secret") == Some(map[]);
    }
  }

  lemma DefaultedAt(m: map<string, Json>, key: string, value: string, k: string)
    ensures Lookup(Defaulted(m, key, value), k) ==
            if k == key && (key !in m || m[key] == Str("")) then Some(Str(value)) else Lookup(m, k)
  {
  }

  lemma GDriveSecretAt(secret: map<string, Json>, t: Token, k: string)
    ensures var out := GDriveSecret(secret, t);
            Lookup(out, k) ==
            if k == "REFRESH_TOKEN" then Some(Str(t.refreshToken))
            else if k == "CLIENT_ID" then Some(Str(t.clientId))
            else if k == "CLIENT_SECRET" then Some(Str(t.clientSecret))
            else if k == "type" && (k !in secret || secret[k] == Str("")) then Some(Str("gdrive"))
            else if k == "PROVIDER" && (k !in secret || secret[k] == Str("")) then Some(Str("config"))
            else Lookup(secret, k)
  {
    DefaultedAt(secret, "type", "gdrive", k);
    DefaultedAt(Defaulted(secret, "type", "gdrive"), "PROVIDER", "config", k);
  }

  /** The member of the document the rendering starts from. */
  lemma MemberOf(raw: RawJson, member: string, k: string)
    requires Renders(raw) && member in {"secret", "attach_params"}
    ensures var m: map<string, Json> := if IsEmptyJson(raw) then map[] else raw.value.fields;
            StringMap(m, member).Some? && MemberKept(StringMap(m, member).value, raw, member, k)
  {
    if !IsEmptyJson(raw) {
      StringMapIff(raw.value.fields, member);
      StringMapAt(raw.value.fields, member, k);
    }
  }

  lemma RenderedSecret(raw: RawJson, t: Token)
    requires Renders(raw)
    ensures RenderDuckDB(raw, t).Some? && SecretOf(RenderDuckDB(raw, t).value, raw, t)
  {
    RendersIff(raw, t);
    var m: map<string, Json> := if IsEmptyJson(raw) then map[] else raw.value.fields;
    var attach, own := StringMap(m, "attach_params").value, StringMap(m, "secret").value;
    var secret := GDriveSecret(own, t);
    forall k
      ensures MemberKept(attach, raw, "attach_params", k) && MemberKept(own, raw, "secret", k)
      ensures k !in TOKEN_KEYS && k !in DEFAULTED_KEYS ==> MemberKept(secret, raw, "secret", k)
    {
      MemberOf(raw, "attach_params", k);
      MemberOf(raw, "secret", k);
      GDriveSecretAt(own, t, k);
    }
    GDriveSecretAt(own, t, "REFRESH_TOKEN");
    GDriveSecretAt(own, t, "CLIENT_ID");
    GDriveSecretAt(own, t, "CLIENT_SECRET");
    RenderedDefaults(own, raw, t);
  }

  lemma RenderedDefaults(own: map<string, Json>, raw: RawJson, t: Token)
    requires forall k :: MemberKept(own, raw, "secret", k)
    ensures Defaults(GDriveSecret(own, t), raw, "type", "gdrive") && Defaults(GDriveSecret(own, t), raw, "PROVIDER", "config")
  {
    assert MemberKept(own, raw, "secret", "type") && MemberKept(own, raw, "secret", "PROVIDER");
    GDriveSecretAt(own, t, "type");
    GDriveSecretAt(own, t, "PROVIDER");
  }

  lemma RenderedHasNoOAuth(raw: RawJson, t: Token)
    ensures RenderDuckDB(raw, t).Some? ==> RenderDuckDB(raw, t).value.Obj? && "oauth" !in RenderDuckDB(raw, t).value.fields
  {
  }

  /** The workspace's own app minted the token. */
  ghost predicate ClientMatches(st: Stores, gc: GoogleCreds) {
    st.clientId != "" && st.clientSecret != "" && gc.clientId == st.clientId
  }

  /** A connection reference and an embedded token with the same siblings are served the
      same credential if and only if the source is google_sheets, or the workspace's app
      minted the token, or the siblings do not render at all: otherwise the reference is
      flattened into a DuckDB secret and the embedded token is not. */
  lemma ReferenceServesAsEmbeddedIff(st: Stores, sourceType: string, siblings: map<string, Json>, id: string, gc: GoogleCreds)
    requires IsGoogle(sourceType) && id != "" && gc.refreshToken != ""
    requires st.connectionsWired && st.connection(id) == Some(gc)
    ensures Served(st, sourceType, WithToken(siblings, Reference(id))) == Served(st, sourceType, WithToken(siblings, Embedded(gc)))
            <==> sourceType == SHEETS || ClientMatches(st, gc)
                 || !TextMember(siblings, "attach_params") || !TextMember(siblings, "secret")
  {
    ReferenceExpands(st, sourceType, siblings, id, gc);
    var embedded := WithToken(siblings, Embedded(gc));
    WithTokenParses(sourceType, siblings, Embedded(gc));
    RenderedHasNoOAuth(Some(embedded), Embedded(gc));
    assert "oauth" in embedded.fields;
    RendersIff(Some(embedded), Embedded(gc));
    RendersIff(Some(embedded), Embedded(gc).(clientSecret := st.clientSecret));
    SiblingsRender(siblings, Embedded(gc));
  }

  /** With a token in place, only the siblings decide whether a document renders. */
  lemma SiblingsRender(siblings: map<string, Json>, t: Token)
    ensures Renders(Some(WithToken(siblings, t))) <==> TextMember(siblings, "attach_params") && TextMember(siblings, "secret")
  {
    var m := WithToken(siblings, t).fields;
    TokenRoundTrip(t);
    TokenMemberIff(m);
    assert "oauth" in m && m["oauth"] == EncodeToken(t);
    assert forall key :: key != "oauth" ==> Lookup(m, key) == Lookup(siblings, key);
  }

  // ---- Where the client secret goes ----

  /** The stored credential with its connection expanded, if it names one. */
  function Expanded(st: Stores, sourceType: string, raw: Json): Json {
    var expanded := Expand(st, sourceType, Some(raw));
    if expanded.Some? then expanded.value else raw
  }

  /** The token it stands for. */
  function Effective(st: Stores, sourceType: string, raw: Json): Option<Token> {
    ParseOAuth(sourceType, Some(Expanded(st, sourceType, raw)))
  }

  /** Served depends on the workspace's app only when that app minted the token: for any
      other token it is what a workspace without an app would serve. */
  lemma SecretOnlyForItsClient(st: Stores, sourceType: string, raw: Json)
    ensures var t := Effective(st, sourceType, raw);
            Served(st, sourceType, raw) != Served(st.(clientId := "", clientSecret := ""), sourceType, raw) ==>
              t.Some? && t.value.refreshToken != "" && t.value.clientId == st.clientId && st.clientId != "" && st.clientSecret != ""
  {
    var none := st.(clientId := "", clientSecret := "");
    assert Expand(none, sourceType, Some(raw)) == Expand(st, sourceType, Some(raw));
  }

  ghost predicate Minted(st: Stores, t: Option<Token>) {
    t.Some? && t.value.refreshToken != "" && t.value.clientId == st.clientId && st.clientId != "" && st.clientSecret != ""
  }

  lemma StoredTokenReads(sourceType: string, raw: RawJson, t: Token)
    requires StoreOAuth(sourceType, raw, t).Some?
    ensures AnyToken(Some(StoreOAuth(sourceType, raw, t).value)) == Some(t)
  {
    TokenRoundTrip(t);
    assert "oauth" in StoreOAuth(sourceType, raw, t).value.fields;
  }

  /** And a token the app minted does get it: in the oauth member of a google_sheets
      credential, and in the secret of a duckdb one exactly if its siblings render; if they
      do not, the credential is served without it. */
  lemma SecretReachesItsClient(st: Stores, sourceType: string, raw: Json)
    requires Minted(st, Effective(st, sourceType, raw))
    ensures var t, served, current := Effective(st, sourceType, raw).value, Served(st, sourceType, raw), Expanded(st, sourceType, raw);
            && (sourceType == SHEETS ==> AnyToken(Some(served)) == Some(t.(clientSecret := st.clientSecret)))
            && (sourceType == DUCKDB ==>
                  if Renders(Some(current)) then SecretOf(served, Some(current), t.(clientSecret := st.clientSecret)) else served == current)
  {
    var t, current := Effective(st, sourceType, raw).value, Expanded(st, sourceType, raw);
    var full := t.(clientSecret := st.clientSecret);
    if sourceType == SHEETS {
      assert InjectClient(sourceType, Some(current), st.clientId, st.clientSecret) == StoreOAuth(sourceType, Some(current), full);
      StoredTokenReads(sourceType, Some(current), full);
    } else {
      assert InjectClient(sourceType, Some(current), st.clientId, st.clientSecret) == RenderDuckDB(Some(current), full);
      RendersIff(Some(current), full);
      RendersIff(Some(current), t);
      if Renders(Some(current)) { RenderedSecret(Some(current), full); }
    }
  }

  /** The oauth member is the token, and every other member is the document's. */
  ghost predicate TokenPutIn(out: Json, raw: Json, t: Token) {
    && AnyToken(Some(out)) == Some(t) && out.Obj? && raw.Obj?
    && forall k :: k != "oauth" ==> Lookup(out.fields, k) == Lookup(raw.fields, k)
  }

  lemma StoredPutsIn(sourceType: string, raw: Json, t: Token)
    requires IsGoogle(sourceType) && raw.Obj?
    ensures StoreOAuth(sourceType, Some(raw), t).Some? && TokenPutIn(StoreOAuth(sourceType, Some(raw), t).value, raw, t)
  {
    StoredTokenReads(sourceType, Some(raw), t);
  }

  lemma ServedElsewhere(st: Stores, sourceType: string, raw: Json)
    requires Effective(st, sourceType, raw).None?
    ensures Served(st, sourceType, raw) == Expanded(st, sourceType, raw)
  {
  }

  lemma ServedSheet(st: Stores, raw: Json)
    requires Effective(st, SHEETS, raw).Some?
    ensures var t, current := Effective(st, SHEETS, raw), Expanded(st, SHEETS, raw);
            if Minted(st, t) then TokenPutIn(Served(st, SHEETS, raw), current, t.value.(clientSecret := st.clientSecret))
            else Served(st, SHEETS, raw) == current
  {
    var t, current := Effective(st, SHEETS, raw).value, Expanded(st, SHEETS, raw);
    assert current.Obj?;
    StoredPutsIn(SHEETS, current, t.(clientSecret := st.clientSecret));
  }

  lemma ServedDuckDB(st: Stores, raw: Json)
    requires Effective(st, DUCKDB, raw).Some?
    ensures var t, current := Effective(st, DUCKDB, raw), Some(Expanded(st, DUCKDB, raw));
            Served(st, DUCKDB, raw) ==
            if Minted(st, t) && RenderDuckDB(current, t.value.(clientSecret := st.clientSecret)).Some?
            then RenderDuckDB(current, t.value.(clientSecret := st.clientSecret)).value
            else if Expand(st, DUCKDB, Some(raw)).Some? && RenderDuckDB(current, t.value).Some? then RenderDuckDB(current, t.value).value
            else current.value
  {
  }

  /** All that is ever served. A source of another type gets its credential as stored. A
      google_sheets one gets the token with the secret of the app that minted it, and
      otherwise the stored credential with its connection expanded. A duckdb one gets the
      DuckDB secret when the app minted the token or a connection was expanded, if the
      document renders, and otherwise the expanded credential. */
  lemma ServedShape(st: Stores, sourceType: string, raw: Json)
    ensures var served, current, t := Served(st, sourceType, raw), Expanded(st, sourceType, raw), Effective(st, sourceType, raw);
            && (!IsGoogle(sourceType) ==> served == raw)
            && (sourceType == SHEETS ==>
                  if Minted(st, t) then TokenPutIn(served, current, t.value.(clientSecret := st.clientSecret)) else served == current)
            && (sourceType == DUCKDB ==>
                  if Minted(st, t) && Renders(Some(current)) then SecretOf(served, Some(current), t.value.(clientSecret := st.clientSecret))
                  else if Expand(st, sourceType, Some(raw)).Some? && t.Some? && Renders(Some(current)) then SecretOf(served, Some(current), t.value)
                  else served == current)
  {
    var current, t := Some(Expanded(st, sourceType, raw)), Effective(st, sourceType, raw);
    if t.None? {
      ServedElsewhere(st, sourceType, raw);
    } else if sourceType == SHEETS {
      ServedSheet(st, raw);
    } else {
      var full := t.value.(clientSecret := st.clientSecret);
      ServedDuckDB(st, raw);
      RendersIff(current, full);
      RendersIff(current, t.value);
      if Renders(current) {
        RenderedSecret(current, full);
        RenderedSecret(current, t.value);
      }
    }
  }

  /** A reference is expanded if and only if the stored token is one to a known connection,
      without a refresh token of its own; the expanded credential then holds that
      connection's token, and every sibling. */
  lemma ExpandedIff(st: Stores, sourceType: string, raw: Json)
    ensures var t, expanded := AnyToken(Some(raw)), Expand(st, sourceType, Some(raw));
            && (expanded.Some? <==>
                  && IsGoogle(sourceType) && st.connectionsWired && t.Some? && t.value.connectionId != "" && t.value.refreshToken == ""
                  && st.connection(t.value.connectionId).Some?)
            && (expanded.Some? ==>
                  var gc := st.connection(t.value.connectionId).value;
                  TokenPutIn(expanded.value, raw, Token("", "", gc.refreshToken, gc.email, gc.clientId, "")))
  {
    var t := AnyToken(Some(raw));
    if IsGoogle(sourceType) && t.Some? && st.connection(t.value.connectionId).Some? {
      var gc := st.connection(t.value.connectionId).value;
      StoredPutsIn(sourceType, raw, Token("", "", gc.refreshToken, gc.email, gc.clientId, ""));
    }
  }

  /** A usable token is called stale exactly when the workspace has an app and another one
      minted it; it is then served as a workspace without an app would serve it. */
  lemma StaleIff(st: Stores, sourceType: string, raw: Json)
    ensures var t, stale := Effective(st, sourceType, raw), StaleClient(st, sourceType, Some(raw));
            && (stale <==> t.Some? && t.value.refreshToken != "" && st.clientId != "" && t.value.clientId != st.clientId)
            && (stale ==> Served(st, sourceType, raw) == Served(st.(clientId := "", clientSecret := ""), sourceType, raw))
  {
    if StaleClient(st, sourceType, Some(raw)) { SecretOnlyForItsClient(st, sourceType, raw); }
  }
}
