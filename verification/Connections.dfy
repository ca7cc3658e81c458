/** Workspace connections (workspace/connection.go) and the saves that refer to them
    (workspace/pipeline.go). */
module Connections {
  import opened Basics
  import opened Domain
  import opened OAuth

  const GOOGLE := "google"

  /** The Drive scope's name; nothing depends on its spelling. */
  const DRIVE_SCOPE := "drive.file"

  /** A redeemed consent, and the credentials of the connection made from it. */
  datatype Grant = Grant(refreshToken: string, email: string, clientId: string, scopes: seq<string>)

  datatype Connection = Connection(id: string, kind: string, name: string, token: Grant)

  datatype Stored = Stored(sourceType: string, credentials: RawJson)

  /** One workspace: connections as listed, pipeline credentials, unspent grants. */
  datatype Workspace = Workspace(conns: seq<Connection>, rows: map<PipelineID, Stored>, grants: map<string, Grant>)

  datatype Refusal = GrantNotFound | NameTaken | ConnectionInUse | ConnectionNotFound | ScopeMissing | PipelineNotFound | BadCredentials
  datatype Outcome = Done | Refused(why: Refusal)
  datatype Step = Step(ws: Workspace, outcome: Outcome)

  // ---- Strings ----

  /** White space as strings.TrimSpace sees it in ASCII. */
  predicate IsSpace(c: char) {
    c == ' ' || '\t' <= c <= '\r'
  }

  function TrimLeft(s: string): string {
    if s != "" && IsSpace(s[0]) then TrimLeft(s[1..]) else s
  }

  function TrimRight(s: string): string {
    if s != "" && IsSpace(s[|s| - 1]) then TrimRight(s[..|s| - 1]) else s
  }

  function Trim(s: string): string {
    TrimRight(TrimLeft(s))
  }

  predicate IsTrimmed(s: string) {
    s == "" || (!IsSpace(s[0]) && !IsSpace(s[|s| - 1]))
  }

  function FoldChar(c: char): char {
    if 'A' <= c <= 'Z' then (c as int + 32) as char else c
  }

  function Fold(s: string): (f: string)
    ensures |f| == |s| && forall i :: 0 <= i < |s| ==> f[i] == FoldChar(s[i])
  {
    seq(|s|, i requires 0 <= i < |s| => FoldChar(s[i]))
  }

  predicate EqualFold(a: string, b: string) {
    Fold(a) == Fold(b)
  }

  /** The same letter in either case. */
  ghost predicate SameLetter(a: char, b: char) {
    a == b || ('A' <= a <= 'Z' && b as int == a as int + 32) || ('A' <= b <= 'Z' && a as int == b as int + 32)
  }

  /** Strings are equal up to case exactly when they are so letter by letter. */
  lemma EqualFoldIff(a: string, b: string)
    ensures EqualFold(a, b) <==> |a| == |b| && forall i :: 0 <= i < |a| ==> SameLetter(a[i], b[i])
  {
    if EqualFold(a, b) {
      assert |a| == |Fold(a)| == |Fold(b)| == |b|;
      forall i | 0 <= i < |a| ensures SameLetter(a[i], b[i]) { assert Fold(a)[i] == Fold(b)[i]; }
    } else if |a| == |b| {
      var i :| 0 <= i < |a| && Fold(a)[i] != Fold(b)[i];
      assert !SameLetter(a[i], b[i]);
    }
  }

  lemma {:induction false} TrimLeftTrims(s: string)
    ensures var t := TrimLeft(s);
            (t != "" ==> !IsSpace(t[0])) && |t| <= |s| && (s != "" && t != "" ==> t[|t| - 1] == s[|s| - 1])
  {
    if s != "" && IsSpace(s[0]) { TrimLeftTrims(s[1..]); }
  }

  lemma {:induction false} TrimRightTrims(s: string)
    ensures var t := TrimRight(s);
            (t != "" ==> !IsSpace(t[|t| - 1])) && t <= s
  {
    if s != "" && IsSpace(s[|s| - 1]) { TrimRightTrims(s[..|s| - 1]); }
  }

  lemma TrimIsTrimmed(s: string)
    ensures IsTrimmed(Trim(s)) && (IsTrimmed(s) ==> Trim(s) == s)
  {
    TrimLeftTrims(s);
    TrimRightTrims(TrimLeft(s));
  }

  lemma FoldKeepsTrimmed(a: string, b: string)
    requires EqualFold(a, b) && IsTrimmed(b)
    ensures IsTrimmed(a)
  {
    assert |a| == |Fold(a)| == |Fold(b)| == |b|;
    if a != "" {
      assert Fold(a)[0] == Fold(b)[0] && Fold(a)[|a| - 1] == Fold(b)[|b| - 1];
    }
  }

  // ---- Connections ----

  function EmailOf(c: Connection): string {
    if c.kind == GOOGLE then c.token.email else ""
  }

  predicate Matches(c: Connection, email: string) {
    c.kind == GOOGLE && EqualFold(EmailOf(c), email)
  }

  /** Index of the first matching connection, |conns| when there is none. */
  function FirstMatch(conns: seq<Connection>, email: string): (i: nat)
    ensures i <= |conns| && (i < |conns| ==> Matches(conns[i], email)) && forall j :: 0 <= j < i ==> !Matches(conns[j], email)
    decreases |conns|
  {
    if conns == [] || Matches(conns[0], email) then 0 else 1 + FirstMatch(conns[1..], email)
  }

  /** findGoogleConnectionByEmail: an empty email matches nothing. */
  function FindByEmail(conns: seq<Connection>, email: string): nat {
    if Trim(email) == "" then |conns| else FirstMatch(conns, Trim(email))
  }

  function ConnectionName(name: string, email: string): string {
    if Trim(name) != "" then Trim(name) else if email != "" then email else "Google"
  }

  predicate HasId(conns: seq<Connection>, id: string) {
    exists c :: c in conns && c.id == id
  }

  predicate HasName(conns: seq<Connection>, kind: string, name: string) {
    exists c :: c in conns && c.kind == kind && c.name == name
  }

  /** CreateGoogleConnection; the grant is spent whatever happens after it is read. */
  function CreateGoogleConnection(ws: Workspace, grantId: string, name: string, newId: string): Step {
    if Trim(grantId) == "" || Trim(grantId) !in ws.grants then Step(ws, Refused(GrantNotFound))
    else
      var grant := ws.grants[Trim(grantId)];
      var spent := ws.(grants := ws.grants - {Trim(grantId)});
      var i := FindByEmail(ws.conns, grant.email);
      if i < |ws.conns| then Step(spent.(conns := ws.conns[i := ws.conns[i].(token := grant)]), Done)
      else
        var c := Connection(newId, GOOGLE, ConnectionName(name, grant.email), grant);
        if HasName(ws.conns, GOOGLE, c.name) then Step(spent, Refused(NameTaken))
        else Step(spent.(conns := [c] + ws.conns), Done)
  }

  /** credentialReferencesConnection: any source type, embedded token or not. */
  predicate References(raw: RawJson, id: string) {
    AnyToken(raw).Some? && AnyToken(raw).value.connectionId == id
  }

  function Without(conns: seq<Connection>, id: string): (rest: seq<Connection>)
    ensures forall c :: c in rest <==> c in conns && c.id != id
  {
    if conns == [] then []
    else
      var front, last := Without(conns[..|conns| - 1], id), conns[|conns| - 1];
      assert conns == conns[..|conns| - 1] + [last];
      if last.id == id then front else front + [last]
  }

  function DeleteConnection(ws: Workspace, id: string): Step {
    if exists p :: p in ws.rows && References(ws.rows[p].credentials, id) then Step(ws, Refused(ConnectionInUse))
    else Step(ws.(conns := Without(ws.conns, id)), Done)
  }

  // ---- Pipeline saves ----

  function ScopeRequired(sourceType: string): string {
    if sourceType == DUCKDB then DRIVE_SCOPE else ""
  }

  predicate HasScope(c: Connection, scope: string) {
    c.kind != GOOGLE || c.token.scopes == [] || scope in c.token.scopes
  }

  /** swapGoogleOAuthGrant: the credential to store, or why not. */
  datatype Swapped = Swapped(ws: Workspace, credentials: RawJson, outcome: Outcome)

  function SwapGrant(ws: Workspace, sourceType: string, raw: RawJson): Swapped {
    var ref, grant := ConnectionRef(sourceType, raw), GrantRef(sourceType, raw);
    if ref.Some? then
      if !HasId(ws.conns, ref.value) then Swapped(ws, raw, Refused(ConnectionNotFound))
      else if ScopeRequired(sourceType) != "" &&
              (exists c :: c in ws.conns && c.id == ref.value && !HasScope(c, ScopeRequired(sourceType)))
      then Swapped(ws, raw, Refused(ScopeMissing))
      else Swapped(ws, raw, Done)
    else if grant.None? then Swapped(ws, raw, Done)
    else if grant.value !in ws.grants then Swapped(ws, raw, Refused(GrantNotFound))
    else
      var g := ws.grants[grant.value];
      var spent := ws.(grants := ws.grants - {grant.value});
      var stored := StoreOAuth(sourceType, raw, Token("", "", g.refreshToken, g.email, g.clientId, ""));
      if stored.None? then Swapped(spent, raw, Refused(BadCredentials)) else Swapped(spent, Some(stored.value), Done)
  }

  function CreatePipeline(ws: Workspace, id: PipelineID, sourceType: string, raw: RawJson): Step {
    var s := SwapGrant(ws, sourceType, raw);
    if s.outcome.Refused? then Step(s.ws, s.outcome)
    else Step(s.ws.(rows := s.ws.rows[id := Stored(sourceType, s.credentials)]), Done)
  }

  /** UpdatePipeline's credentials: cleared, kept without a check, or swapped. */
  function UpdatePipeline(ws: Workspace, id: PipelineID, sourceType: string, raw: RawJson, clear: bool): Step {
    if id !in ws.rows then Step(ws, Refused(PipelineNotFound))
    else if clear && !IsEmptyJson(raw) then Step(ws, Refused(BadCredentials))
    else if clear then Step(ws.(rows := ws.rows[id := Stored(sourceType, None)]), Done)
    else if IsEmptyJson(raw) then Step(ws.(rows := ws.rows[id := Stored(sourceType, ws.rows[id].credentials)]), Done)
    else
      var s := SwapGrant(ws, sourceType, raw);
      if s.outcome.Refused? then Step(s.ws, s.outcome)
      else Step(s.ws.(rows := s.ws.rows[id := Stored(sourceType, s.credentials)]), Done)
  }

  // ---- Every reference names a connection ----

  ghost predicate RefOk(ws: Workspace, p: PipelineID)
    requires p in ws.rows
  {
    var ref := ConnectionRef(ws.rows[p].sourceType, ws.rows[p].credentials);
    ref.Some? ==> HasId(ws.conns, ref.value)
  }

  ghost predicate Integrity(ws: Workspace) {
    forall p :: p in ws.rows ==> RefOk(ws, p)
  }

  lemma SwapKeepsRefs(ws: Workspace, sourceType: string, raw: RawJson)
    ensures var s := SwapGrant(ws, sourceType, raw);
            && s.ws.conns == ws.conns && s.ws.rows == ws.rows
            && (s.outcome.Done? ==>
                  var ref := ConnectionRef(sourceType, s.credentials);
                  ref.Some? ==> HasId(ws.conns, ref.value))
  {
    var grant := GrantRef(sourceType, raw);
    if ConnectionRef(sourceType, raw).None? && grant.Some? && grant.value in ws.grants {
      var g := ws.grants[grant.value];
      var t := Token("", "", g.refreshToken, g.email, g.clientId, "");
      if StoreOAuth(sourceType, raw, t).Some? { StoredTokenReads(sourceType, raw, t); }
    }
  }

  /** What a save makes of the credential it is sent. A reference is stored as it is, if its
      connection exists and may read what the source needs. A grant is spent, and the
      credential then holds its token, with every sibling. Anything else is stored as is. */
  lemma SwapOutcome(ws: Workspace, sourceType: string, raw: RawJson)
    ensures var s, t := SwapGrant(ws, sourceType, raw), if IsGoogle(sourceType) then AnyToken(raw) else None;
            && s.ws.conns == ws.conns && s.ws.rows == ws.rows
            && (t.None? ==> s == Swapped(ws, raw, Done))
            && (t.Some? && t.value.connectionId != "" && t.value.refreshToken == "" ==>
                  && s.ws == ws && s.credentials == raw
                  && (s.outcome.Done? <==>
                        && (exists c :: c in ws.conns && c.id == t.value.connectionId)
                        && (sourceType == DUCKDB ==>
                              forall c :: c in ws.conns && c.id == t.value.connectionId && c.kind == GOOGLE && c.token.scopes != [] ==>
                                            DRIVE_SCOPE in c.token.scopes)))
            && (t.Some? && !(t.value.connectionId != "" && t.value.refreshToken == "") && t.value.grantId == "" ==> s == Swapped(ws, raw, Done))
            && (t.Some? && !(t.value.connectionId != "" && t.value.refreshToken == "") && t.value.grantId != "" ==>
                  if t.value.grantId !in ws.grants then s == Swapped(ws, raw, Refused(GrantNotFound))
                  else
                    var g := ws.grants[t.value.grantId];
                    && s.ws.grants == ws.grants - {t.value.grantId} && s.outcome.Done? && s.credentials.Some?
                    && TokenPutIn(s.credentials.value, raw.value, Token("", "", g.refreshToken, g.email, g.clientId, "")))
  {
    var t := if IsGoogle(sourceType) then AnyToken(raw) else None;
    if t.Some? && t.value.grantId in ws.grants {
      var g := ws.grants[t.value.grantId];
      StoredPutsIn(sourceType, raw.value, Token("", "", g.refreshToken, g.email, g.clientId, ""));
    }
  }

  /** What an update stores: nothing when it is refused, no credential when it clears, the
      one from before when it sends none, and otherwise what the save makes of the one sent. */
  lemma UpdateOutcome(ws: Workspace, p: PipelineID, sourceType: string, raw: RawJson, clear: bool)
    ensures var s, swap := UpdatePipeline(ws, p, sourceType, raw, clear), SwapGrant(ws, sourceType, raw);
            && (p !in ws.rows || (clear && !IsEmptyJson(raw)) ==> s.ws == ws && s.outcome.Refused?)
            && (p in ws.rows && clear && IsEmptyJson(raw) ==> s == Step(ws.(rows := ws.rows[p := Stored(sourceType, None)]), Done))
            && (p in ws.rows && !clear && IsEmptyJson(raw) ==>
                  s == Step(ws.(rows := ws.rows[p := Stored(sourceType, ws.rows[p].credentials)]), Done))
            && (p in ws.rows && !clear && !IsEmptyJson(raw) ==>
                  && s.outcome == swap.outcome && s.ws.grants == swap.ws.grants && s.ws.conns == ws.conns
                  && s.ws.rows == if swap.outcome.Done? then ws.rows[p := Stored(sourceType, swap.credentials)] else ws.rows)
  {
    SwapOutcome(ws, sourceType, raw);
  }

  lemma CreateOutcome(ws: Workspace, p: PipelineID, sourceType: string, raw: RawJson)
    ensures var s, swap := CreatePipeline(ws, p, sourceType, raw), SwapGrant(ws, sourceType, raw);
            && s.outcome == swap.outcome && s.ws.grants == swap.ws.grants && s.ws.conns == ws.conns
            && s.ws.rows == if swap.outcome.Done? then ws.rows[p := Stored(sourceType, swap.credentials)] else ws.rows
  {
    SwapOutcome(ws, sourceType, raw);
  }

  datatype Op =
    | Consent(grantId: string, grant: Grant)
    | Connect(grantId: string, name: string, newId: string)
    | Disconnect(id: string)
    | Create(pipeline: PipelineID, sourceType: string, raw: RawJson)
    | Update(pipeline: PipelineID, sourceType: string, raw: RawJson, clear: bool)
    | Drop(pipeline: PipelineID)

  function Perform(ws: Workspace, op: Op): Workspace {
    match op
    case Consent(g, grant) => ws.(grants := ws.grants[g := grant])
    case Connect(g, name, newId) => CreateGoogleConnection(ws, g, name, newId).ws
    case Disconnect(id) => DeleteConnection(ws, id).ws
    case Create(p, t, raw) => CreatePipeline(ws, p, t, raw).ws
    case Update(p, t, raw, clear) => UpdatePipeline(ws, p, t, raw, clear).ws
    case Drop(p) => ws.(rows := ws.rows - {p})
  }

  lemma ConnectKeepsIds(ws: Workspace, grantId: string, name: string, newId: string)
    ensures var ws' := CreateGoogleConnection(ws, grantId, name, newId).ws;
            && (forall id :: HasId(ws.conns, id) ==> HasId(ws'.conns, id)) && ws'.rows == ws.rows
            && (ws'.conns == ws.conns
                || (|ws'.conns| == |ws.conns| && forall i :: 0 <= i < |ws.conns| ==> ws'.conns[i] == ws.conns[i].(token := ws'.conns[i].token))
                || (|ws'.conns| == |ws.conns| + 1 && ws'.conns[1..] == ws.conns && ws'.conns[0].id == newId))
  {
    var ws' := CreateGoogleConnection(ws, grantId, name, newId).ws;
    forall id | HasId(ws.conns, id) ensures HasId(ws'.conns, id) {
      var c :| c in ws.conns && c.id == id;
      var i :| 0 <= i < |ws.conns| && ws.conns[i] == c;
      if |ws'.conns| == |ws.conns| {
        assert ws'.conns[i].id == id && ws'.conns[i] in ws'.conns;
      } else {
        assert ws'.conns[i + 1] == c;
      }
    }
  }

  /** Only position i differs, and only in the token it holds. */
  ghost predicate Reauthorised(conns: seq<Connection>, conns': seq<Connection>, i: nat, grant: Grant) {
    && i < |conns| == |conns'| && conns'[i] == conns[i].(token := grant)
    && forall j :: 0 <= j < |conns| && j != i ==> conns'[j] == conns[j]
  }

  /** The first Google connection whose e-mail is this one, up to case and outer blanks. */
  ghost predicate AccountAt(conns: seq<Connection>, email: string, i: nat) {
    && i < |conns| && Matches(conns[i], Trim(email)) && Trim(email) != ""
    && forall j :: 0 <= j < i ==> !Matches(conns[j], Trim(email))
  }

  /** What connecting does: an unknown grant changes nothing; any other is spent. A known
      account's connection then holds the grant and everything else is as it was; a new
      account becomes a connection of the given id, unless its name is taken. */
  lemma ConnectOutcome(ws: Workspace, grantId: string, name: string, newId: string)
    ensures var s, g := CreateGoogleConnection(ws, grantId, name, newId), Trim(grantId);
            if g == "" || g !in ws.grants then s == Step(ws, Refused(GrantNotFound))
            else
              var grant := ws.grants[g];
              && s.ws.grants == ws.grants - {g} && s.ws.rows == ws.rows
              && (forall i :: AccountAt(ws.conns, grant.email, i) ==> s.outcome.Done? && Reauthorised(ws.conns, s.ws.conns, i, grant))
              && ((forall i :: !AccountAt(ws.conns, grant.email, i)) ==>
                    var called := ConnectionName(name, grant.email);
                    if exists c :: c in ws.conns && c.kind == GOOGLE && c.name == called
                    then s.outcome == Refused(NameTaken) && s.ws.conns == ws.conns
                    else s.outcome.Done? && s.ws.conns == [Connection(newId, GOOGLE, called, grant)] + ws.conns)
  {
    var g := Trim(grantId);
    if g != "" && g in ws.grants {
      var grant := ws.grants[g];
      var k := FindByEmail(ws.conns, grant.email);
      forall i: nat | AccountAt(ws.conns, grant.email, i) ensures i == k { }
      if k < |ws.conns| { assert AccountAt(ws.conns, grant.email, k); }
    }
  }

  /** A disconnect succeeds if and only if no stored credential names the connection, and
      then removes it and nothing else. */
  lemma DisconnectOutcome(ws: Workspace, id: string)
    ensures var s := DeleteConnection(ws, id);
            && (s.outcome.Done? <==> forall p :: p in ws.rows ==> var t := AnyToken(ws.rows[p].credentials); t.None? || t.value.connectionId != id)
            && s.ws.rows == ws.rows && s.ws.grants == ws.grants
            && (if s.outcome.Done? then forall c :: c in s.ws.conns <==> c in ws.conns && c.id != id else s.ws == ws)
  {
  }

  lemma DisconnectKeepsRefs(ws: Workspace, id: string, p: PipelineID)
    requires p in ws.rows && RefOk(ws, p) && DeleteConnection(ws, id).outcome.Done?
    ensures RefOk(DeleteConnection(ws, id).ws, p)
  {
    var ref := ConnectionRef(ws.rows[p].sourceType, ws.rows[p].credentials);
    if ref.Some? {
      assert References(ws.rows[p].credentials, ref.value);
      var c :| c in ws.conns && c.id == ref.value;
      assert c in Without(ws.conns, id);
    }
  }

  lemma RefOkTransfers(ws: Workspace, ws': Workspace, p: PipelineID)
    requires p in ws.rows && p in ws'.rows && ws'.rows[p] == ws.rows[p] && RefOk(ws, p)
    requires forall id :: HasId(ws.conns, id) ==> HasId(ws'.conns, id)
    ensures RefOk(ws', p)
  {
  }

  /** The update does not reinterpret kept credentials under another source type. */
  ghost predicate KeepsType(ws: Workspace, op: Op) {
    op.Update? && op.pipeline in ws.rows && IsEmptyJson(op.raw) && !op.clear ==> op.sourceType == ws.rows[op.pipeline].sourceType
  }

  lemma UpdateIntegrity(ws: Workspace, p: PipelineID, sourceType: string, raw: RawJson, clear: bool)
    requires Integrity(ws)
    ensures var kept := p in ws.rows && IsEmptyJson(raw) && !clear;
            Integrity(UpdatePipeline(ws, p, sourceType, raw, clear).ws) <==>
            (kept ==> var ref := ConnectionRef(sourceType, ws.rows[p].credentials); ref.Some? ==> HasId(ws.conns, ref.value))
  {
    SwapKeepsRefs(ws, sourceType, raw);
    var ws' := UpdatePipeline(ws, p, sourceType, raw, clear).ws;
    forall q | q in ws'.rows && q != p ensures RefOk(ws', q) {
      RefOkTransfers(ws, ws', q);
    }
    if p in ws.rows {
      if ws'.rows[p] == ws.rows[p] && !(IsEmptyJson(raw) && !clear) { RefOkTransfers(ws, ws', p); }
      assert RefOk(ws', p) <==> (IsEmptyJson(raw) && !clear ==>
        var ref := ConnectionRef(sourceType, ws.rows[p].credentials); ref.Some? ==> HasId(ws.conns, ref.value));
    }
  }

  lemma PerformKeepsIntegrity(ws: Workspace, op: Op)
    requires Integrity(ws) && KeepsType(ws, op)
    ensures Integrity(Perform(ws, op))
  {
    var ws' := Perform(ws, op);
    match op {
      case Consent(_, _) =>
      case Connect(g, name, newId) =>
        ConnectKeepsIds(ws, g, name, newId);
        forall p | p in ws'.rows ensures RefOk(ws', p) { RefOkTransfers(ws, ws', p); }
      case Disconnect(id) =>
        forall p | p in ws'.rows ensures RefOk(ws', p) {
          if DeleteConnection(ws, id).outcome.Done? { DisconnectKeepsRefs(ws, id, p); }
        }
      case Create(p, t, raw) =>
        SwapKeepsRefs(ws, t, raw);
        forall q | q in ws'.rows ensures RefOk(ws', q) {
          if q in ws.rows && ws'.rows[q] == ws.rows[q] { RefOkTransfers(ws, ws', q); }
        }
      case Update(p, t, raw, clear) =>
        UpdateIntegrity(ws, p, t, raw, clear);
        if p in ws.rows { assert RefOk(ws, p); }
      case Drop(p) =>
        forall q | q in ws'.rows ensures RefOk(ws', q) { RefOkTransfers(ws, ws', q); }
    }
  }

  function Run(ws: Workspace, ops: seq<Op>): Workspace
    decreases |ops|
  {
    if ops == [] then ws else Run(Perform(ws, ops[0]), ops[1..])
  }

  ghost predicate TypesKept(ws: Workspace, ops: seq<Op>)
    decreases |ops|
  {
    ops != [] ==> KeepsType(ws, ops[0]) && TypesKept(Perform(ws, ops[0]), ops[1..])
  }

  /** Over every run whose updates keep the source type, each connection id a stored
      credential refers to names an existing connection. */
  lemma {:induction false} RunKeepsIntegrity(ws: Workspace, ops: seq<Op>)
    requires Integrity(ws) && TypesKept(ws, ops)
    ensures Integrity(Run(ws, ops))
    decreases |ops|
  {
    if ops != [] {
      PerformKeepsIntegrity(ws, ops[0]);
      RunKeepsIntegrity(Perform(ws, ops[0]), ops[1..]);
    }
  }

  /** Without that, kept credentials of a type nobody checked can become a dangling
      reference: a row of another type that carries a connection_id, turned google_sheets. */
  lemma TypeChangeDangles(p: PipelineID, other: string, id: string)
    requires !IsGoogle(other) && id != ""
    ensures var raw := Some(WithToken(map[], Reference(id)));
            var ws := Workspace([], map[p := Stored(other, raw)], map[]);
            Integrity(ws) && !Integrity(UpdatePipeline(ws, p, SHEETS, None, false).ws)
  {
    var raw := WithToken(map[], Reference(id));
    var ws := Workspace([], map[p := Stored(other, Some(raw))], map[]);
    WithTokenParses(SHEETS, map[], Reference(id));
    assert ConnectionRef(SHEETS, Some(raw)) == Some(id);
    UpdateIntegrity(ws, p, SHEETS, None, false);
  }

  // ---- One connection per account ----

  /** Two Google connections for one account, white space and case aside. */
  ghost predicate SameAccount(c: Connection, d: Connection) {
    && c.kind == GOOGLE && d.kind == GOOGLE
    && Trim(c.token.email) != "" && EqualFold(Trim(c.token.email), Trim(d.token.email))
  }

  ghost predicate Unique(conns: seq<Connection>) {
    forall i, j :: 0 <= i < j < |conns| ==> !SameAccount(conns[i], conns[j])
  }

  /** No stored email hides the grant's account behind surrounding white space. */
  ghost predicate Recognisable(conns: seq<Connection>, email: string) {
    forall i :: 0 <= i < |conns| && conns[i].kind == GOOGLE && Trim(email) != "" && EqualFold(Trim(conns[i].token.email), Trim(email))
      ==> FindByEmail(conns, email) < |conns|
  }

  lemma FoldSymmetric(a: string, b: string, c: string)
    ensures EqualFold(a, b) ==> EqualFold(b, a)
    ensures EqualFold(a, b) && EqualFold(b, c) ==> EqualFold(a, c)
    ensures EqualFold(a, b) ==> (a == "" <==> b == "")
  {
    if EqualFold(a, b) { assert |a| == |Fold(a)| == |Fold(b)| == |b|; }
  }

  lemma MatchIsTrimmed(c: Connection, email: string)
    requires Matches(c, Trim(email))
    ensures Trim(c.token.email) == c.token.email && EqualFold(Trim(c.token.email), Trim(email))
  {
    TrimIsTrimmed(email);
    FoldKeepsTrimmed(c.token.email, Trim(email));
    TrimIsTrimmed(c.token.email);
  }

  /** Replacing a connection's token by one for the same account keeps accounts apart. */
  lemma ReauthorizeKeepsUnique(conns: seq<Connection>, k: nat, grant: Grant)
    requires Unique(conns) && k < |conns| && conns[k].kind == GOOGLE && Trim(grant.email) != ""
    requires EqualFold(Trim(conns[k].token.email), Trim(grant.email))
    ensures Unique(conns[k := conns[k].(token := grant)])
  {
    var was, conns' := conns[k], conns[k := conns[k].(token := grant)];
    forall i, j | 0 <= i < j < |conns'| ensures !SameAccount(conns'[i], conns'[j]) {
      assert !SameAccount(conns[i], conns[j]);
      var other := if i == k then conns[j] else conns[i];
      FoldSymmetric(Trim(was.token.email), Trim(grant.email), Trim(other.token.email));
      FoldSymmetric(Trim(other.token.email), Trim(grant.email), Trim(was.token.email));
      FoldSymmetric(Trim(grant.email), Trim(was.token.email), "");
    }
  }

  lemma AddKeepsUniqueIff(conns: seq<Connection>, c: Connection)
    requires Unique(conns) && c.kind == GOOGLE
    ensures Unique([c] + conns) <==> forall j :: 0 <= j < |conns| ==> !SameAccount(c, conns[j])
  {
    var all := [c] + conns;
    assert forall j :: 0 <= j < |conns| ==> all[j + 1] == conns[j];
    if forall j :: 0 <= j < |conns| ==> !SameAccount(c, conns[j]) {
      forall i, j | 0 <= i < j < |all| ensures !SameAccount(all[i], all[j]) {
        if i > 0 { assert all[i] == conns[i - 1] && all[j] == conns[j - 1]; }
      }
    }
    if Unique(all) {
      forall j | 0 <= j < |conns| ensures !SameAccount(c, conns[j]) {
        assert !SameAccount(all[0], all[j + 1]);
      }
    }
  }

  /** Connecting an account leaves one connection per account if and only if the list
      recognises it when it is already there: a stored email with surrounding white space
      is not recognised, because only the grant's is trimmed. */
  lemma ConnectUniqueIff(ws: Workspace, grantId: string, name: string, newId: string)
    requires Unique(ws.conns) && CreateGoogleConnection(ws, grantId, name, newId).outcome.Done?
    ensures Unique(CreateGoogleConnection(ws, grantId, name, newId).ws.conns) <==>
            Recognisable(ws.conns, ws.grants[Trim(grantId)].email)
  {
    var grant := ws.grants[Trim(grantId)];
    var k := FindByEmail(ws.conns, grant.email);
    if k < |ws.conns| {
      MatchIsTrimmed(ws.conns[k], grant.email);
      ReauthorizeKeepsUnique(ws.conns, k, grant);
    } else {
      var c := Connection(newId, GOOGLE, ConnectionName(name, grant.email), grant);
      AddKeepsUniqueIff(ws.conns, c);
      forall j | 0 <= j < |ws.conns|
        ensures SameAccount(c, ws.conns[j]) <==>
                ws.conns[j].kind == GOOGLE && Trim(grant.email) != "" && EqualFold(Trim(ws.conns[j].token.email), Trim(grant.email))
      {
        FoldSymmetric(Trim(grant.email), Trim(ws.conns[j].token.email), "");
        FoldSymmetric(Trim(ws.conns[j].token.email), Trim(grant.email), "");
      }
    }
  }

  ghost predicate EmailsTrimmed(ws: Workspace) {
    && (forall i :: 0 <= i < |ws.conns| ==> IsTrimmed(ws.conns[i].token.email))
    && (forall g :: g in ws.grants ==> IsTrimmed(ws.grants[g].email))
  }

  lemma TrimmedIsRecognisable(conns: seq<Connection>, email: string)
    requires forall i :: 0 <= i < |conns| ==> IsTrimmed(conns[i].token.email)
    ensures Recognisable(conns, email)
  {
    forall i | 0 <= i < |conns| && conns[i].kind == GOOGLE && Trim(email) != "" && EqualFold(Trim(conns[i].token.email), Trim(email))
      ensures FindByEmail(conns, email) < |conns|
    {
      TrimIsTrimmed(conns[i].token.email);
      assert Matches(conns[i], Trim(email));
    }
  }

  lemma {:induction false} WithoutKeepsUnique(conns: seq<Connection>, id: string)
    requires Unique(conns)
    ensures Unique(Without(conns, id))
  {
    if conns != [] {
      var n := |conns| - 1;
      var front := Without(conns[..n], id);
      WithoutKeepsUnique(conns[..n], id);
      if conns[n].id != id {
        forall i | 0 <= i < |front| ensures !SameAccount(front[i], conns[n]) {
          assert front[i] in front && front[i] in conns[..n];
          var k :| 0 <= k < n && conns[k] == front[i];
        }
      }
    }
  }

  /** Consents that yield no white space around the email. */
  ghost predicate TrimmedConsents(ops: seq<Op>) {
    forall i :: 0 <= i < |ops| && ops[i].Consent? ==> IsTrimmed(ops[i].grant.email)
  }

  lemma SwapKeepsEmails(ws: Workspace, sourceType: string, raw: RawJson)
    requires EmailsTrimmed(ws)
    ensures EmailsTrimmed(SwapGrant(ws, sourceType, raw).ws) && SwapGrant(ws, sourceType, raw).ws.conns == ws.conns
  {
  }

  lemma ConnectKeepsEmails(ws: Workspace, grantId: string, name: string, newId: string)
    requires Unique(ws.conns) && EmailsTrimmed(ws)
    ensures var ws' := CreateGoogleConnection(ws, grantId, name, newId).ws;
            Unique(ws'.conns) && EmailsTrimmed(ws')
  {
    if CreateGoogleConnection(ws, grantId, name, newId).outcome.Done? {
      TrimmedIsRecognisable(ws.conns, ws.grants[Trim(grantId)].email);
      ConnectUniqueIff(ws, grantId, name, newId);
    }
  }

  lemma PerformKeepsUnique(ws: Workspace, op: Op)
    requires Unique(ws.conns) && EmailsTrimmed(ws) && TrimmedConsents([op])
    ensures Unique(Perform(ws, op).conns) && EmailsTrimmed(Perform(ws, op))
  {
    match op {
      case Consent(_, grant) => assert [op][0] == op;
      case Connect(g, name, newId) => ConnectKeepsEmails(ws, g, name, newId);
      case Disconnect(id) =>
        WithoutKeepsUnique(ws.conns, id);
        forall c | c in Without(ws.conns, id) ensures IsTrimmed(c.token.email) { assert c in ws.conns; }
      case Create(_, t, raw) => SwapKeepsEmails(ws, t, raw);
      case Update(_, t, raw, _) => SwapKeepsEmails(ws, t, raw);
      case Drop(_) =>
    }
  }

  /** Over every run of trimmed consents, no two Google connections are for one account. */
  lemma {:induction false} RunKeepsUnique(ws: Workspace, ops: seq<Op>)
    requires Unique(ws.conns) && EmailsTrimmed(ws) && TrimmedConsents(ops)
    ensures Unique(Run(ws, ops).conns)
    decreases |ops|
  {
    if ops != [] {
      assert [ops[0]][0] == ops[0];
      PerformKeepsUnique(ws, ops[0]);
      assert forall i :: 0 <= i < |ops| - 1 ==> ops[1..][i] == ops[i + 1];
      RunKeepsUnique(Perform(ws, ops[0]), ops[1..]);
    }
  }

  /** An email once stored with a leading blank forks: connecting the same account again
      makes a second connection instead of renewing the first. */
  lemma UntrimmedEmailForks(email: string, grantId: string, newId: string)
    requires email != "" && IsTrimmed(email) && grantId != "" && IsTrimmed(grantId)
    ensures var first := Connection("first", GOOGLE, "first", Grant("token", " " + email, "app", []));
            var ws := Workspace([first], map[], map[grantId := Grant("token", email, "app", [])]);
            var s := CreateGoogleConnection(ws, grantId, "second", newId);
            Unique(ws.conns) && s.outcome.Done? && |s.ws.conns| == 2 && !Unique(s.ws.conns)
  {
    var stored := " " + email;
    var first := Connection("first", GOOGLE, "first", Grant("token", stored, "app", []));
    var ws := Workspace([first], map[], map[grantId := Grant("token", email, "app", [])]);
    TrimIsTrimmed(email);
    TrimIsTrimmed(grantId);
    assert stored[1..] == email && TrimLeft(stored) == TrimLeft(email);
    assert Trim("second") == "second" by { TrimIsTrimmed("second"); }
    assert !EqualFold(stored, email) by { assert |Fold(stored)| != |Fold(email)|; }
    assert !Matches(first, email);
    var s := CreateGoogleConnection(ws, grantId, "second", newId);
    assert s.outcome.Done? && s.ws.conns[0].token.email == email && s.ws.conns[1] == first;
    assert SameAccount(s.ws.conns[0], s.ws.conns[1]);
  }

  // ---- As it runs ----

  class ConnectionService {
    var conns: seq<Connection>
    var rows: map<PipelineID, Stored>
    var grants: map<string, Grant>

    ghost function State(): Workspace
      reads this
    {
      Workspace(conns, rows, grants)
    }

    constructor (ws: Workspace)
      ensures State() == ws
    {
      conns, rows, grants := ws.conns, ws.rows, ws.grants;
    }

    method FindGoogleConnectionByEmail(email: string) returns (i: nat)
      ensures i == FindByEmail(conns, email)
    {
      var wanted := Trim(email);
      if wanted == "" { return |conns|; }
      i := 0;
      while i < |conns| && !Matches(conns[i], wanted)
        invariant i <= |conns| && FirstMatch(conns, wanted) == i + FirstMatch(conns[i..], wanted)
      {
        assert conns[i..][1..] == conns[i + 1..];
        i := i + 1;
      }
    }

    method Connect(grantId: string, name: string, newId: string) returns (outcome: Outcome)
      modifies this`conns, this`grants
      ensures Step(State(), outcome) == CreateGoogleConnection(old(State()), grantId, name, newId)
    {
      var id := Trim(grantId);
      if id == "" || id !in grants { return Refused(GrantNotFound); }
      var grant := grants[id];
      grants := grants - {id};
      var prior := FindGoogleConnectionByEmail(grant.email);
      if prior < |conns| {
        conns := conns[prior := conns[prior].(token := grant)];
        return Done;
      }
      var c := Connection(newId, GOOGLE, ConnectionName(name, grant.email), grant);
      if HasName(conns, GOOGLE, c.name) { return Refused(NameTaken); }
      conns := [c] + conns;
      return Done;
    }

    /** The in-use guard walks every stored credential, in whatever order. */
    method Disconnect(id: string) returns (outcome: Outcome)
      modifies this`conns
      ensures Step(State(), outcome) == DeleteConnection(old(State()), id)
    {
      var rest := rows.Keys;
      while rest != {}
        invariant rest <= rows.Keys
        invariant forall p :: p in rows && p !in rest ==> !References(rows[p].credentials, id)
        decreases |rest|
      {
        var p :| p in rest;
        if References(rows[p].credentials, id) { return Refused(ConnectionInUse); }
        rest := rest - {p};
      }
      conns := Without(conns, id);
      return Done;
    }
  }
}
