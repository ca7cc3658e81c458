/** File slugs of rendered pipelines (workspace/pipelinemirror.go). */
module Slugs {
  import opened Basics
  import opened Domain

  predicate Usable(c: char) {
    'a' <= c <= 'z' || '0' <= c <= '9'
  }

  /** strings.ToLower, per rune, as far as a slug can tell: besides A-Z only the
      dotted capital I and the Kelvin sign fold onto usable characters. Every
      other letter folds onto another unusable one. */
  function LowerChar(c: char): char {
    if 'A' <= c <= 'Z' then c + 'a' - 'A'
    else if c == '\U{0130}' then 'i'
    else if c == '\U{212A}' then 'k'
    else c
  }

  function Lower(s: string): (t: string)
    ensures |t| == |s| && forall i :: 0 <= i < |s| ==> t[i] == LowerChar(s[i])
  {
    seq(|s|, i requires 0 <= i < |s| => LowerChar(s[i]))
  }

  // ---- Reference definition: the usable words of the name, joined by dashes ----

  function RunLength(s: string): (k: nat)
    ensures k <= |s|
  {
    if s == "" || !Usable(s[0]) then 0 else 1 + RunLength(s[1..])
  }

  lemma {:induction false} RunIsMaximal(s: string)
    ensures forall i :: 0 <= i < RunLength(s) ==> Usable(s[i])
    ensures RunLength(s) < |s| ==> !Usable(s[RunLength(s)])
  {
    if s != "" && Usable(s[0]) {
      RunIsMaximal(s[1..]);
      forall i | 0 <= i < RunLength(s) ensures Usable(s[i]) {
        if i > 0 { assert s[i] == s[1..][i - 1]; }
      }
    }
  }

  /** The maximal runs of usable characters, left to right. */
  function Words(s: string): (ws: seq<string>)
    decreases |s|
  {
    if s == "" then []
    else
      var k := RunLength(s);
      if k == 0 then Words(s[1..]) else [s[..k]] + Words(s[k..])
  }

  predicate IsWord(w: string) {
    w != "" && forall i :: 0 <= i < |w| ==> Usable(w[i])
  }

  lemma {:induction false} WordsUsable(s: string)
    ensures forall w :: w in Words(s) ==> IsWord(w)
    decreases |s|
  {
    if s != "" {
      var k := RunLength(s);
      RunIsMaximal(s);
      if k == 0 {
        WordsUsable(s[1..]);
      } else {
        assert IsWord(s[..k]);
        WordsUsable(s[k..]);
      }
    }
  }

  function Dashed(ws: seq<string>): string {
    if ws == [] then ""
    else if |ws| == 1 then ws[0]
    else ws[0] + "-" + Dashed(ws[1..])
  }

  function NameSlug(name: string): string {
    Dashed(Words(Lower(name)))
  }

  // ---- The builder loop ----

  /** strings.Trim(s, "-"). */
  function TrimDashes(s: string): string
    decreases |s|
  {
    if s != "" && s[0] == '-' then TrimDashes(s[1..])
    else if s != "" && s[|s| - 1] == '-' then TrimDashes(s[..|s| - 1])
    else s
  }

  /** Words that follow another word. */
  ghost function Following(ws: seq<string>): string {
    if ws == [] then "" else "-" + Dashed(ws)
  }

  /** The rest of an open word, then the remaining words. */
  ghost function OpenWord(rest: string): string {
    var k := RunLength(rest);
    rest[..k] + Following(Words(rest[k..]))
  }

  /** What the loop still has to produce: builder contents b and the unread rest. */
  ghost function Remaining(b: string, lastDash: bool, rest: string): string {
    if !lastDash then b + OpenWord(rest)
    else if Words(rest) != [] then b + Dashed(Words(rest))
    else if b == "" then ""
    else b[..|b| - 1]
  }

  ghost predicate BuilderState(b: string, lastDash: bool) {
    && (b == "" ==> lastDash)
    && (b != "" ==> Usable(b[0]))
    && (!lastDash ==> Usable(b[|b| - 1]))
    && (b != "" && lastDash ==> b[|b| - 1] == '-' && |b| > 1 && Usable(b[|b| - 2]))
  }

  lemma DashedCons(w: string, tail: seq<string>)
    ensures Dashed([w] + tail) == w + Following(tail)
  {
    assert ([w] + tail)[1..] == tail;
  }

  lemma OpenWordStep(rest: string)
    requires rest != "" && Usable(rest[0])
    ensures OpenWord(rest) == [rest[0]] + OpenWord(rest[1..])
  {
    var k := RunLength(rest);
    var after := Following(Words(rest[k..]));
    assert rest[1..][k - 1..] == rest[k..];
    assert rest[..k] + after == [rest[0]] + (rest[1..][..k - 1] + after);
  }

  lemma OpenWordIsDashed(rest: string)
    requires rest != "" && Usable(rest[0])
    ensures Words(rest) != [] && Dashed(Words(rest)) == OpenWord(rest)
  {
    var k := RunLength(rest);
    DashedCons(rest[..k], Words(rest[k..]));
  }

  lemma RemainingUsable(b: string, lastDash: bool, rest: string)
    requires BuilderState(b, lastDash) && rest != "" && Usable(rest[0])
    ensures Remaining(b, lastDash, rest) == Remaining(b + [rest[0]], false, rest[1..])
  {
    OpenWordStep(rest);
    OpenWordIsDashed(rest);
    assert b + ([rest[0]] + OpenWord(rest[1..])) == b + [rest[0]] + OpenWord(rest[1..]);
  }

  lemma SeparatorEndsWord(rest: string)
    requires rest != "" && !Usable(rest[0])
    ensures Words(rest) == Words(rest[1..]) && OpenWord(rest) == Following(Words(rest))
  {
    assert RunLength(rest) == 0 && rest[0..] == rest;
  }

  lemma DashThenWords(b: string, ws: seq<string>)
    ensures b + Following(ws) == if ws != [] then b + "-" + Dashed(ws) else (b + "-")[..|b + "-"| - 1]
  {
  }

  lemma RemainingSeparator(b: string, rest: string)
    requires BuilderState(b, false) && rest != "" && !Usable(rest[0])
    ensures Remaining(b, false, rest) == Remaining(b + "-", true, rest[1..])
  {
    SeparatorEndsWord(rest);
    DashThenWords(b, Words(rest));
  }

  lemma RemainingSkip(b: string, rest: string)
    requires BuilderState(b, true) && rest != "" && !Usable(rest[0])
    ensures Remaining(b, true, rest) == Remaining(b, true, rest[1..])
  {
    assert Words(rest) == Words(rest[1..]);
  }

  /** One turn of the loop over the name. */
  function Feed(b: string, lastDash: bool, c: char): (string, bool) {
    if Usable(c) then (b + [c], false)
    else if !lastDash then (b + "-", true)
    else (b, lastDash)
  }

  lemma FeedKeepsRemaining(b: string, lastDash: bool, rest: string)
    requires BuilderState(b, lastDash) && rest != ""
    ensures var (b', lastDash') := Feed(b, lastDash, rest[0]);
            BuilderState(b', lastDash') && Remaining(b', lastDash', rest[1..]) == Remaining(b, lastDash, rest)
  {
    if Usable(rest[0]) {
      RemainingUsable(b, lastDash, rest);
    } else if !lastDash {
      RemainingSeparator(b, rest);
    } else {
      RemainingSkip(b, rest);
    }
  }

  lemma RemainingDone(b: string, lastDash: bool)
    requires BuilderState(b, lastDash)
    ensures TrimDashes(b) == Remaining(b, lastDash, "")
  {
  }

  /** nameFileSlug computes the dash-joined words of the lowered name. */
  method NameFileSlug(name: string) returns (slug: string)
    ensures slug == NameSlug(name)
  {
    var b, lastDash := "", true;
    var lower := Lower(name);
    var i := 0;
    assert lower[0..] == lower;
    while i < |lower|
      invariant 0 <= i <= |lower|
      invariant BuilderState(b, lastDash)
      invariant Remaining(b, lastDash, lower[i..]) == NameSlug(name)
    {
      FeedKeepsRemaining(b, lastDash, lower[i..]);
      assert lower[i..][1..] == lower[i + 1..];
      var fed := Feed(b, lastDash, lower[i]);
      b, lastDash := fed.0, fed.1;
      i := i + 1;
    }
    RemainingDone(b, lastDash);
    slug := TrimDashes(b);
  }

  // ---- Shape and stability of a slug ----

  predicate SlugChar(s: string, i: nat)
    requires i < |s|
  {
    Usable(s[i]) || (s[i] == '-' && 0 < i < |s| - 1 && Usable(s[i - 1]) && Usable(s[i + 1]))
  }

  /** Usable characters and single inner dashes only. */
  predicate IsSlug(s: string) {
    forall i :: 0 <= i < |s| ==> SlugChar(s, i)
  }

  lemma {:induction false} DashedIsSlug(ws: seq<string>)
    requires forall w :: w in ws ==> IsWord(w)
    ensures IsSlug(Dashed(ws))
    ensures ws != [] ==> Dashed(ws) != ""
  {
    if |ws| == 1 {
      assert IsWord(ws[0]);
    } else if |ws| > 1 {
      var tail := Dashed(ws[1..]);
      DashedIsSlug(ws[1..]);
      var s, n := Dashed(ws), |ws[0]|;
      assert s == ws[0] + "-" + tail;
      assert SlugChar(tail, 0) && IsWord(ws[0]);
      forall i | 0 <= i < |s| ensures SlugChar(s, i) {
        if i > n {
          assert SlugChar(tail, i - n - 1);
        }
      }
    }
  }

  lemma SlugTail(s: string, k: nat)
    requires IsSlug(s) && k < |s| && !Usable(s[k])
    ensures s[k] == '-' && k + 1 < |s| && IsSlug(s[k + 1..])
  {
    assert SlugChar(s, k);
    var rest := s[k + 1..];
    forall i | 0 <= i < |rest| ensures SlugChar(rest, i) {
      assert SlugChar(s, i + k + 1);
      assert rest[i] == s[i + k + 1];
      if i > 0 { assert rest[i - 1] == s[i + k]; }
      if i + 1 < |rest| { assert rest[i + 1] == s[i + k + 2]; }
    }
  }

  /** A slug of several words: the first word, a dash and another slug. */
  lemma SlugSplits(s: string)
    requires IsSlug(s) && s != ""
    ensures var k := RunLength(s);
            0 < k && (k < |s| ==> !Usable(s[k]) && s[k] == '-' && s[k + 1..] != "" && IsSlug(s[k + 1..]))
  {
    var k := RunLength(s);
    RunIsMaximal(s);
    assert SlugChar(s, 0);
    if k < |s| { SlugTail(s, k); }
  }

  lemma Rejoins(s: string, k: nat)
    requires k < |s| && s[k] == '-'
    ensures s == s[..k] + ("-" + s[k + 1..])
  {
  }

  lemma FirstWord(s: string)
    requires var k := RunLength(s); 0 < k < |s| && !Usable(s[k])
    ensures Words(s) == [s[..RunLength(s)]] + Words(s[RunLength(s) + 1..])
  {
    var k := RunLength(s);
    assert s[k..][0] == s[k] && s[k..][1..] == s[k + 1..];
    assert RunLength(s[k..]) == 0;
  }

  lemma {:induction false} SlugOfSlug(s: string)
    requires IsSlug(s)
    ensures Dashed(Words(s)) == s
    decreases |s|
  {
    if s != "" {
      var k := RunLength(s);
      SlugSplits(s);
      if k == |s| {
        assert s[..k] == s && s[k..] == "";
        assert Words(s) == [s];
      } else {
        FirstWord(s);
        Rejoins(s, k);
        SlugOfSlug(s[k + 1..]);
        DashedCons(s[..k], Words(s[k + 1..]));
      }
    }
  }

  /** Every slug is well formed, and slugging a slug changes nothing. */
  lemma NameSlugFixedPoint(name: string)
    ensures IsSlug(NameSlug(name))
    ensures NameSlug(NameSlug(name)) == NameSlug(name)
  {
    var s := NameSlug(name);
    WordsUsable(Lower(name));
    DashedIsSlug(Words(Lower(name)));
    forall i | 0 <= i < |s| ensures LowerChar(s[i]) == s[i] {
      assert SlugChar(s, i);
    }
    assert Lower(s) == s;
    SlugOfSlug(s);
  }

  // ---- What the slug of a name is ----

  /** Lower-cases to an ASCII letter or digit. */
  ghost predicate Spelled(c: char) {
    'a' <= c <= 'z' || 'A' <= c <= 'Z' || '0' <= c <= '9' || c == '\U{0130}' || c == '\U{212A}'
  }

  lemma {:induction false} OneWord(s: string)
    requires forall i :: 0 <= i < |s| ==> Usable(s[i])
    ensures RunLength(s) == |s|
  {
    if s != "" { OneWord(s[1..]); }
  }

  /** The lower case of such a character, 32 up from an ASCII capital. */
  ghost predicate Folds(c: char, l: char) {
    if 'A' <= c <= 'Z' then l as int == c as int + 32 else if c == '\U{0130}' then l == 'i' else if c == '\U{212A}' then l == 'k' else l == c
  }

  /** A name of letters and digits only is its own slug, in lower case. */
  lemma SlugOfWord(name: string)
    requires forall i :: 0 <= i < |name| ==> Spelled(name[i])
    ensures |NameSlug(name)| == |name| && forall i :: 0 <= i < |name| ==> Folds(name[i], NameSlug(name)[i])
  {
    var s := Lower(name);
    OneWord(s);
    if s != "" {
      assert s[..|s|] == s && s[|s|..] == "";
      assert Words(s) == [s];
    }
  }

  lemma {:induction false} RunBefore(s: string, c: char, t: string)
    requires !Usable(c)
    ensures RunLength(s + [c] + t) == RunLength(s)
  {
    if s == "" {
      assert (s + [c] + t)[0] == c;
    } else {
      assert (s + [c] + t)[1..] == s[1..] + [c] + t;
      RunBefore(s[1..], c, t);
    }
  }

  lemma {:induction false} WordsSplit(s: string, c: char, t: string)
    requires !Usable(c)
    ensures Words(s + [c] + t) == Words(s) + Words(t)
    decreases |s|
  {
    var whole := s + [c] + t;
    RunBefore(s, c, t);
    if s == "" {
      assert whole[1..] == t;
      assert Words("") + Words(t) == Words(t);
    } else if RunLength(s) == 0 {
      assert whole[1..] == s[1..] + [c] + t;
      WordsSplit(s[1..], c, t);
    } else {
      var k := RunLength(s);
      FirstWordSplit(s, c, t);
      WordsSplit(s[k..], c, t);
      WordThen(s[..k], Words(s[k..]), Words(t));
    }
  }

  lemma FirstWordSplit(s: string, c: char, t: string)
    requires RunLength(s) > 0 && RunLength(s + [c] + t) == RunLength(s)
    ensures var k := RunLength(s);
            Words(s + [c] + t) == [s[..k]] + Words(s[k..] + [c] + t)
  {
    var whole, k := s + [c] + t, RunLength(s);
    assert whole[..k] == s[..k];
    assert whole[k..] == s[k..] + [c] + t;
  }

  lemma WordThen(w: string, ws: seq<string>, vs: seq<string>)
    ensures [w] + (ws + vs) == [w] + ws + vs
  {
  }

  lemma {:induction false} DashedSplit(ws: seq<string>, vs: seq<string>)
    requires ws != [] && vs != []
    ensures Dashed(ws + vs) == Dashed(ws) + "-" + Dashed(vs)
  {
    assert (ws + vs)[1..] == ws[1..] + vs;
    if |ws| > 1 {
      DashedSplit(ws[1..], vs);
      assert ws[0] + "-" + (Dashed(ws[1..]) + "-" + Dashed(vs)) == ws[0] + "-" + Dashed(ws[1..]) + "-" + Dashed(vs);
    } else {
      assert ws[1..] + vs == vs;
    }
  }

  lemma DashedEmpty(s: string)
    ensures Dashed(Words(s)) == "" <==> Words(s) == []
  {
    WordsUsable(s);
    DashedIsSlug(Words(s));
  }

  /** Anything else separates: the slugs of the two sides, with one dash between them if
      both have something to say. With SlugOfWord this determines every slug. */
  lemma SlugAround(left: string, c: char, right: string)
    requires !Spelled(c)
    ensures var l, r := NameSlug(left), NameSlug(right);
            NameSlug(left + [c] + right) == if l == "" then r else if r == "" then l else l + "-" + r
  {
    var s, t := Lower(left), Lower(right);
    assert Lower(left + [c] + right) == s + [LowerChar(c)] + t;
    WordsSplit(s, LowerChar(c), t);
    DashedEmpty(s);
    DashedEmpty(t);
    if Words(s) == [] {
      assert Words(s) + Words(t) == Words(t);
    } else if Words(t) == [] {
      assert Words(s) + Words(t) == Words(s);
    } else {
      DashedSplit(Words(s), Words(t));
    }
  }

  // ---- Slugs of a pipeline list ----

  function ShortId(id: string): string {
    if |id| > 8 then id[..8] else id
  }

  function BaseSlug(p: Pipeline): string {
    if NameSlug(p.name) != "" then NameSlug(p.name) else ShortId(p.id)
  }

  /** Another pipeline of the list has the same base slug. */
  predicate Shared(ps: seq<Pipeline>, p: Pipeline) {
    exists q {:trigger BaseSlug(q)} :: q in ps && q.id != p.id && BaseSlug(q) == BaseSlug(p)
  }

  /** Reference definition: mentions the list only through membership. */
  function FileSlug(ps: seq<Pipeline>, p: Pipeline): string {
    if Shared(ps, p) then BaseSlug(p) + "-" + ShortId(p.id) else BaseSlug(p)
  }

  /** A pipeline's slug: that of its name, or without one the first eight characters of its
      id; these are appended when some other pipeline would otherwise have the same. */
  lemma FileSlugSpelled(ps: seq<Pipeline>, p: Pipeline, short: string)
    requires short <= p.id && |short| == if |p.id| < 8 then |p.id| else 8
    ensures var named := if NameSlug(p.name) == "" then short else NameSlug(p.name);
            FileSlug(ps, p) == named || FileSlug(ps, p) == named + "-" + short
    ensures FileSlug(ps, p) == BaseSlug(p) <==> forall q :: q in ps && q.id != p.id ==> BaseSlug(q) != BaseSlug(p)
  {
    assert short == p.id[..|short|];
    assert |BaseSlug(p) + "-" + ShortId(p.id)| > |BaseSlug(p)|;
  }

  function CountBase(ps: seq<Pipeline>, base: string): nat {
    if ps == [] then 0
    else CountBase(ps[..|ps| - 1], base) + (if BaseSlug(ps[|ps| - 1]) == base then 1 else 0)
  }

  lemma {:induction false} CountZero(ps: seq<Pipeline>, base: string)
    ensures CountBase(ps, base) == 0 <==> forall q :: q in ps ==> BaseSlug(q) != base
  {
    if ps != [] {
      CountZero(ps[..|ps| - 1], base);
      assert ps == ps[..|ps| - 1] + [ps[|ps| - 1]];
    }
  }

  /** The counting loop and the reference definition agree on who collides. */
  lemma {:induction false} CountShared(ps: seq<Pipeline>, p: Pipeline)
    requires DistinctIds(ps) && p in ps
    ensures CountBase(ps, BaseSlug(p)) > 1 <==> Shared(ps, p)
  {
    var front, last := ps[..|ps| - 1], ps[|ps| - 1];
    assert ps == front + [last];
    CountZero(front, BaseSlug(p));
    if p == last {
      if CountBase(front, BaseSlug(p)) > 0 {
        var q :| q in front && BaseSlug(q) == BaseSlug(p);
        assert q in ps && q.id != p.id;
      } else {
        forall q | q in ps && q.id != p.id ensures BaseSlug(q) != BaseSlug(p) {
          assert q in front;
        }
      }
    } else {
      assert p in front;
      CountShared(front, p);
      if BaseSlug(last) == BaseSlug(p) {
        assert last in ps && last.id != p.id;
      } else if Shared(ps, p) {
        var q :| q in ps && q.id != p.id && BaseSlug(q) == BaseSlug(p);
        assert q in front;
      }
    }
  }

  method CountBases(ps: seq<Pipeline>) returns (baseCount: map<string, nat>)
    ensures forall b :: (if b in baseCount then baseCount[b] else 0) == CountBase(ps, b)
  {
    baseCount := map[];
    for i := 0 to |ps|
      invariant forall b :: (if b in baseCount then baseCount[b] else 0) == CountBase(ps[..i], b)
    {
      var b := BaseSlug(ps[i]);
      var n := if b in baseCount then baseCount[b] else 0;
      baseCount := baseCount[b := n + 1];
      assert ps[..i + 1][..i] == ps[..i];
    }
    assert ps[..|ps|] == ps;
  }

  ghost predicate IsListed(ps: seq<Pipeline>, id: PipelineID) {
    exists j :: 0 <= j < |ps| && ps[j].id == id
  }

  ghost predicate SlugAt(ps: seq<Pipeline>, slugs: map<PipelineID, string>, j: nat)
    requires j < |ps|
  {
    ps[j].id in slugs && slugs[ps[j].id] == FileSlug(ps, ps[j])
  }

  /** A pipeline's slug from the counts of the first loop. */
  method SuffixShared(ps: seq<Pipeline>, baseCount: map<string, nat>, p: Pipeline) returns (slug: string)
    requires DistinctIds(ps) && p in ps
    requires forall b :: (if b in baseCount then baseCount[b] else 0) == CountBase(ps, b)
    ensures slug == FileSlug(ps, p)
  {
    CountShared(ps, p);
    slug := BaseSlug(p);
    if slug in baseCount && baseCount[slug] > 1 {
      slug := slug + "-" + ShortId(p.id);
    }
  }

  /** The map that n assignments m[keys[i]] = values[i] leave. */
  ghost function Collected(keys: seq<string>, values: seq<string>, n: nat): map<string, string>
    requires n <= |keys| == |values|
  {
    if n == 0 then map[] else Collected(keys, values, n - 1)[keys[n - 1] := values[n - 1]]
  }

  lemma {:induction false} CollectedAt(keys: seq<string>, values: seq<string>, n: nat, j: nat)
    requires j < n <= |keys| == |values| && NoDuplicates(keys)
    ensures Lookup(Collected(keys, values, n), keys[j]) == Some(values[j])
  {
    if j < n - 1 { CollectedAt(keys, values, n - 1, j); }
  }

  lemma {:induction false} CollectedOnly(keys: seq<string>, values: seq<string>, n: nat, k: string)
    requires n <= |keys| == |values| && k in Collected(keys, values, n)
    ensures exists j :: 0 <= j < n && keys[j] == k
  {
    if k != keys[n - 1] { CollectedOnly(keys, values, n - 1, k); }
  }

  /** Entry j of the lists of ids and of reference slugs. */
  ghost predicate WantedAt(ps: seq<Pipeline>, ids: seq<string>, wanted: seq<string>, j: nat)
    requires j < |ps| == |ids| == |wanted|
  {
    ids[j] == ps[j].id && wanted[j] == FileSlug(ps, ps[j])
  }

  lemma Wanted(ps: seq<Pipeline>) returns (ids: seq<string>, wanted: seq<string>)
    requires DistinctIds(ps)
    ensures |ids| == |wanted| == |ps| && NoDuplicates(ids) && forall j :: 0 <= j < |ps| ==> WantedAt(ps, ids, wanted, j)
  {
    ids := seq(|ps|, j requires 0 <= j < |ps| => ps[j].id);
    wanted := seq(|ps|, j requires 0 <= j < |ps| => FileSlug(ps, ps[j]));
  }

  /** pipelineFileSlugs: the two counting loops give every pipeline its reference slug. */
  method PipelineFileSlugs(ps: seq<Pipeline>) returns (slugs: map<PipelineID, string>)
    requires DistinctIds(ps)
    ensures forall j :: 0 <= j < |ps| ==> SlugAt(ps, slugs, j)
    ensures forall id :: id in slugs ==> IsListed(ps, id)
  {
    var baseCount := CountBases(ps);
    slugs := map[];
    ghost var ids, wanted := Wanted(ps);
    for i := 0 to |ps|
      invariant slugs == Collected(ids, wanted, i)
    {
      assert WantedAt(ps, ids, wanted, i);
      var slug := SuffixShared(ps, baseCount, ps[i]);
      slugs := slugs[ps[i].id := slug];
    }
    forall j | 0 <= j < |ps| ensures SlugAt(ps, slugs, j) {
      assert WantedAt(ps, ids, wanted, j);
      CollectedAt(ids, wanted, |ps|, j);
    }
    forall id | id in slugs ensures IsListed(ps, id) {
      CollectedOnly(ids, wanted, |ps|, id);
      var j :| 0 <= j < |ps| && ids[j] == id;
      assert WantedAt(ps, ids, wanted, j);
    }
  }

  /** Listing the same pipelines in another order changes no file path. */
  lemma SlugsIgnoreOrder(ps: seq<Pipeline>, qs: seq<Pipeline>, p: Pipeline)
    requires forall r :: r in ps <==> r in qs
    ensures FileSlug(ps, p) == FileSlug(qs, p)
  {
    if Shared(ps, p) {
      var q :| q in ps && q.id != p.id && BaseSlug(q) == BaseSlug(p);
      assert q in qs;
    }
    if Shared(qs, p) {
      var q :| q in qs && q.id != p.id && BaseSlug(q) == BaseSlug(p);
      assert q in ps;
    }
  }

  // ---- When slugs are distinct ----

  predicate SlugsDistinct(ps: seq<Pipeline>) {
    forall p, q :: p in ps && q in ps && p.id != q.id ==> FileSlug(ps, p) != FileSlug(ps, q)
  }

  predicate DistinctShortIds(ps: seq<Pipeline>) {
    && (forall p :: p in ps ==> |ShortId(p.id)| == 8)
    && (forall p, q :: p in ps && q in ps && p.id != q.id ==> ShortId(p.id) != ShortId(q.id))
  }

  /** An unsuffixed name that spells out another pipeline's suffixed slug. */
  predicate Impersonates(ps: seq<Pipeline>, p: Pipeline, q: Pipeline) {
    !Shared(ps, p) && Shared(ps, q) && BaseSlug(p) == BaseSlug(q) + "-" + ShortId(q.id)
  }

  lemma SuffixedDiffer(a: string, x: string, b: string, y: string)
    requires |x| == 8 && |y| == 8 && x != y
    ensures a + "-" + x != b + "-" + y
  {
    var s, t := a + "-" + x, b + "-" + y;
    assert s[|s| - 8..] == x;
    assert t[|t| - 8..] == y;
  }

  lemma CollisionIff(ps: seq<Pipeline>, p: Pipeline, q: Pipeline)
    requires DistinctShortIds(ps) && p in ps && q in ps && p.id != q.id
    ensures FileSlug(ps, p) == FileSlug(ps, q) <==> Impersonates(ps, p, q) || Impersonates(ps, q, p)
  {
    SuffixedDiffer(BaseSlug(p), ShortId(p.id), BaseSlug(q), ShortId(q.id));
  }

  /** With distinct 8-character short ids, two pipelines share a file path exactly
      when one's plain name impersonates the other's suffixed slug. */
  lemma SlugsDistinctIff(ps: seq<Pipeline>)
    requires DistinctIds(ps) && DistinctShortIds(ps)
    ensures SlugsDistinct(ps) <==> forall p, q :: p in ps && q in ps ==> !Impersonates(ps, p, q)
  {
    if SlugsDistinct(ps) {
      forall p, q | p in ps && q in ps ensures !Impersonates(ps, p, q) {
        if p.id != q.id { CollisionIff(ps, p, q); }
      }
    } else {
      var p, q :| p in ps && q in ps && p.id != q.id && FileSlug(ps, p) == FileSlug(ps, q);
      CollisionIff(ps, p, q);
    }
  }

  /** The simpler sufficient condition: no base slug at all reads like another
      pipeline's base slug plus its short id. */
  lemma SlugsDistinctWhen(ps: seq<Pipeline>)
    requires DistinctIds(ps) && DistinctShortIds(ps)
    requires forall p, q :: p in ps && q in ps && p.id != q.id ==> BaseSlug(p) != BaseSlug(q) + "-" + ShortId(q.id)
    ensures SlugsDistinct(ps)
  {
    forall p, q | p in ps && q in ps ensures !Impersonates(ps, p, q) {
      if p.id == q.id {
        assert p == q;
        assert |BaseSlug(q) + "-" + ShortId(q.id)| > |BaseSlug(q)|;
      }
    }
    SlugsDistinctIff(ps);
  }
}
