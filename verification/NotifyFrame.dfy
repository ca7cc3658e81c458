/** The NOTIFY payload of a live notification (postgres/notification_listen.go): a JSON
    frame whose body is cut back when the whole would be too long. */
module NotifyFrame {
  import opened Basics
  import opened Base64

  const MAX_PAYLOAD := 7000

  /** U+2026 in UTF-8. */
  const ELLIPSIS: Bytes := [0xE2, 0x80, 0xA6]

  // ---- UTF-8 (section 3 of RFC 3629, as utf8.DecodeRune reads it) ----

  /** Not a 10xxxxxx continuation byte. */
  predicate RuneStart(b: Byte) {
    b / 64 != 2
  }

  predicate Continues(s: Bytes, i: nat) {
    i < |s| && !RuneStart(s[i])
  }

  predicate Within(s: Bytes, i: nat, low: int, high: int) {
    i < |s| && low <= s[i] <= high
  }

  /** Bytes of the rune s opens with; 0 when its first byte opens none. */
  function RuneSize(s: Bytes): (n: nat)
    requires s != []
    ensures n <= 4 && n <= |s|
  {
    var b := s[0];
    if b < 0x80 then 1
    else if 0xC2 <= b <= 0xDF then (if Continues(s, 1) then 2 else 0)
    else if 0xE0 <= b <= 0xEF then
      (if Within(s, 1, if b == 0xE0 then 0xA0 else 0x80, if b == 0xED then 0x9F else 0xBF) && Continues(s, 2) then 3 else 0)
    else if 0xF0 <= b <= 0xF4 then
      (if Within(s, 1, if b == 0xF0 then 0x90 else 0x80, if b == 0xF4 then 0x8F else 0xBF) && Continues(s, 2) && Continues(s, 3) then 4 else 0)
    else 0
  }

  predicate ValidUtf8(s: Bytes)
    decreases |s|
  {
    s == [] || (RuneSize(s) > 0 && ValidUtf8(s[RuneSize(s)..]))
  }

  // ---- JSON string escaping (section 7 of RFC 8259, as encoding/json writes it) ----

  const BACKSLASH: Byte := 92

  function Hex(d: int): Byte
    requires 0 <= d < 16
  {
    if d < 10 then 48 + d else 87 + d
  }

  /** \u00XX */
  function UnicodeEscape(b: Byte): Bytes {
    [BACKSLASH, 117, 48, 48, Hex(b / 16), Hex(b % 16)]
  }

  function EscapeAscii(b: Byte): Bytes
    requires b < 0x80
  {
    if b == 34 || b == BACKSLASH then [BACKSLASH, b]
    else if b == 8 then [BACKSLASH, 98]
    else if b == 12 then [BACKSLASH, 102]
    else if b == 10 then [BACKSLASH, 110]
    else if b == 13 then [BACKSLASH, 114]
    else if b == 9 then [BACKSLASH, 116]
    else if b < 0x20 || b == 60 || b == 62 || b == 38 then UnicodeEscape(b)
    else [b]
  }

  /** U+2028 or U+2029. */
  predicate IsLineSeparator(rune: Bytes) {
    rune == [0xE2, 0x80, 0xA8] || rune == [0xE2, 0x80, 0xA9]
  }

  /** What one rune, or one byte that opens none, becomes. */
  function EscapeFirst(s: Bytes): Bytes
    requires s != []
  {
    var n := RuneSize(s);
    if n == 0 then [BACKSLASH, 117, 102, 102, 102, 100]
    else if s[0] < 0x80 then EscapeAscii(s[0])
    else if IsLineSeparator(s[..n]) then [BACKSLASH, 117, 50, 48, 50, s[2] - 0xA8 + 56]
    else s[..n]
  }

  /** Bytes the escaper moves on by. */
  function Advance(s: Bytes): (n: nat)
    requires s != []
    ensures 1 <= n <= |s|
  {
    if RuneSize(s) == 0 then 1 else RuneSize(s)
  }

  function Escape(s: Bytes): Bytes
    decreases |s|
  {
    if s == [] then [] else EscapeFirst(s) + Escape(s[Advance(s)..])
  }

  // ---- The frame ----

  /** Everything around the escaped body: all other fields, marshalled. */
  datatype Frame = Frame(before: Bytes, after: Bytes)

  function Marshal(f: Frame, body: Bytes): Bytes {
    f.before + Escape(body) + f.after
  }

  /** The last rune start at or before k (0 if there is none). */
  function CutAt(body: Bytes, k: nat): (keep: nat)
    requires k < |body|
    ensures keep <= k && (keep > 0 ==> RuneStart(body[keep]))
    ensures forall i :: keep < i <= k ==> !RuneStart(body[i])
  {
    if k == 0 || RuneStart(body[k]) then k else CutAt(body, k - 1)
  }

  /** The body that is sent. */
  function Trimmed(f: Frame, body: Bytes): Bytes {
    var raw := |Marshal(f, body)|;
    if raw <= MAX_PAYLOAD then body
    else
      var overflow := raw - MAX_PAYLOAD + |ELLIPSIS|;
      if overflow >= |body| then [] else body[..CutAt(body, |body| - overflow)] + ELLIPSIS
  }

  /** encodeNotification. */
  method EncodeNotification(f: Frame, body: Bytes) returns (payload: Bytes)
    ensures payload == Marshal(f, Trimmed(f, body))
  {
    payload := Marshal(f, body);
    if |payload| <= MAX_PAYLOAD { return; }
    var overflow := |payload| - MAX_PAYLOAD + |ELLIPSIS|;
    var sent: Bytes := [];
    if overflow < |body| {
      var keep := |body| - overflow;
      while keep > 0 && !RuneStart(body[keep])
        invariant 0 <= keep <= |body| - overflow
        invariant CutAt(body, keep) == CutAt(body, |body| - overflow)
      {
        keep := keep - 1;
      }
      sent := body[..keep] + ELLIPSIS;
    }
    payload := Marshal(f, sent);
  }

  // ---- Escaping is additive at rune starts ----

  /** b cannot be the rest of a rune that began earlier. */
  predicate StartsRune(b: Bytes) {
    b == [] || RuneStart(b[0])
  }

  lemma RuneStopsAtBoundary(a: Bytes, b: Bytes)
    requires a != [] && StartsRune(b)
    ensures RuneSize(a + b) == RuneSize(a)
  {
    var s := a + b;
    assert forall i :: 0 <= i < |a| ==> s[i] == a[i];
    assert |a| < |s| ==> s[|a|] == b[0];
  }

  lemma FirstStopsAtBoundary(a: Bytes, b: Bytes)
    requires a != [] && StartsRune(b)
    ensures EscapeFirst(a + b) == EscapeFirst(a) && Advance(a + b) == Advance(a)
  {
    RuneStopsAtBoundary(a, b);
    var n := RuneSize(a);
    assert (a + b)[0] == a[0] && (a + b)[..n] == a[..n];
    assert n == 3 ==> (a + b)[2] == a[2];
  }

  lemma DropAppend(a: Bytes, b: Bytes, n: nat)
    requires n <= |a|
    ensures (a + b)[n..] == a[n..] + b
  {
  }

  lemma {:induction false} EscapeAppend(a: Bytes, b: Bytes)
    requires StartsRune(b)
    ensures Escape(a + b) == Escape(a) + Escape(b)
    decreases |a|
  {
    var s := a + b;
    if a == [] {
      assert s == b;
    } else {
      FirstStopsAtBoundary(a, b);
      var n, rest := Advance(a), a[Advance(a)..];
      DropAppend(a, b, n);
      EscapeAppend(rest, b);
      calc {
        Escape(s);
        EscapeFirst(a) + Escape(rest + b);
        EscapeFirst(a) + (Escape(rest) + Escape(b));
        (EscapeFirst(a) + Escape(rest)) + Escape(b);
        Escape(a) + Escape(b);
      }
    }
  }

  lemma {:induction false} EscapeNeverShortens(s: Bytes)
    ensures |Escape(s)| >= |s|
    decreases |s|
  {
    if s != [] { EscapeNeverShortens(s[Advance(s)..]); }
  }

  lemma EllipsisIsPlain()
    ensures Escape(ELLIPSIS) == ELLIPSIS
  {
    assert RuneSize(ELLIPSIS) == 3;
    assert ELLIPSIS[3..] == [] && ELLIPSIS[..3] == ELLIPSIS;
  }

  // ---- The bound ----

  lemma CutFits(f: Frame, body: Bytes, keep: nat, overflow: nat)
    requires keep + overflow <= |body| && (keep > 0 ==> keep < |body| && RuneStart(body[keep]))
    requires |Marshal(f, body)| == MAX_PAYLOAD + overflow - |ELLIPSIS|
    ensures |Marshal(f, body[..keep] + ELLIPSIS)| <= MAX_PAYLOAD
  {
    var head, tail := body[..keep], body[keep..];
    assert body == head + tail;
    EllipsisIsPlain();
    EscapeAppend(head, ELLIPSIS);
    EscapeNeverShortens(tail);
    if keep > 0 {
      EscapeAppend(head, tail);
    } else {
      assert head == [] && tail == body;
    }
  }

  /** For every body, whatever its escaping costs, the frame fits in 7000 bytes if and
      only if the frame with an empty body does. */
  lemma FrameFitsIff(f: Frame, body: Bytes)
    ensures |Marshal(f, Trimmed(f, body))| <= MAX_PAYLOAD <==> |Marshal(f, [])| <= MAX_PAYLOAD
  {
    var raw := |Marshal(f, body)|;
    if raw > MAX_PAYLOAD && raw - MAX_PAYLOAD + |ELLIPSIS| < |body| {
      var overflow := raw - MAX_PAYLOAD + |ELLIPSIS|;
      CutFits(f, body, CutAt(body, |body| - overflow), overflow);
    }
  }

  // ---- A valid body stays valid ----

  lemma SliceShift(s: Bytes, n: nat, k: nat)
    requires n <= k <= |s|
    ensures s[..k][n..] == s[n..][..k - n]
  {
  }

  lemma {:induction false} ValidPrefix(s: Bytes, k: nat)
    requires ValidUtf8(s) && k < |s| && (k > 0 ==> RuneStart(s[k]))
    ensures ValidUtf8(s[..k])
    decreases |s|
  {
    if k > 0 {
      var n := RuneSize(s);
      assert n <= k;
      assert s[..k] + s[k..] == s;
      RuneStopsAtBoundary(s[..k], s[k..]);
      if n < k {
        assert s[n..][k - n] == s[k];
        ValidPrefix(s[n..], k - n);
        SliceShift(s, n, k);
      } else {
        assert s[..k][n..] == [];
      }
    }
  }

  lemma {:induction false} ValidAppend(a: Bytes, b: Bytes)
    requires ValidUtf8(a) && ValidUtf8(b) && StartsRune(b)
    ensures ValidUtf8(a + b)
    decreases |a|
  {
    if a == [] {
      assert a + b == b;
    } else {
      RuneStopsAtBoundary(a, b);
      var n := RuneSize(a);
      assert (a + b)[n..] == a[n..] + b;
      ValidAppend(a[n..], b);
    }
  }

  /** A valid body is sent whole, or not at all, or as a whole-rune prefix followed by the
      ellipsis; and what is sent is valid UTF-8. */
  lemma TrimmedBody(f: Frame, body: Bytes)
    requires ValidUtf8(body)
    ensures ValidUtf8(Trimmed(f, body))
    ensures var sent := Trimmed(f, body);
            || sent == body
            || sent == []
            || (|sent| >= |ELLIPSIS| && sent[|sent| - |ELLIPSIS|..] == ELLIPSIS
                && sent[..|sent| - |ELLIPSIS|] < body && ValidUtf8(sent[..|sent| - |ELLIPSIS|]))
  {
    var raw := |Marshal(f, body)|;
    if raw > MAX_PAYLOAD && raw - MAX_PAYLOAD + |ELLIPSIS| < |body| {
      var keep := CutAt(body, |body| - (raw - MAX_PAYLOAD + |ELLIPSIS|));
      ValidPrefix(body, keep);
      assert RuneSize(ELLIPSIS) == 3 && ELLIPSIS[3..] == [];
      ValidAppend(body[..keep], ELLIPSIS);
      var sent := body[..keep] + ELLIPSIS;
      assert sent[..|sent| - 3] == body[..keep] && sent[|sent| - 3..] == ELLIPSIS;
    }
  }

  lemma MarshalLength(f: Frame, body: Bytes)
    ensures |Marshal(f, body)| == |f.before| + |Escape(body)| + |f.after|
  {
  }

  /** The body up to the last rune start at or before k, and the ellipsis. */
  ghost predicate CutTo(sent: Bytes, body: Bytes, k: nat, keep: nat) {
    LastRuneStart(body, keep, k) && sent == body[..keep] + [0xE2, 0x80, 0xA6]
  }

  lemma TrimmedCut(f: Frame, body: Bytes, over: nat)
    requires |Marshal(f, body)| == over + 7000 && over > 0 && over + 3 < |body|
    ensures CutTo(Trimmed(f, body), body, |body| - over - 3, CutAt(body, |body| - over - 3))
  {
    var k := |body| - over - 3;
    var keep := CutAt(body, k);
    forall i | keep < i <= k ensures 0x80 <= body[i] < 0xC0 { assert !RuneStart(body[i]); }
  }

  /** How much is sent: the whole body if its frame fits, nothing if it is no longer than the
      excess and the ellipsis, and otherwise the longest prefix that leaves room for both and
      ends where a rune begins. */
  lemma TrimmedLength(f: Frame, body: Bytes) returns (keep: nat)
    ensures var sent, over := Trimmed(f, body), |f.before| + |Escape(body)| + |f.after| - 7000;
            && (over <= 0 ==> sent == body)
            && (over > 0 && over + 3 >= |body| ==> sent == [])
            && (over > 0 && over + 3 < |body| ==> CutTo(sent, body, |body| - over - 3, keep))
  {
    var over := |Marshal(f, body)| - 7000;
    MarshalLength(f, body);
    keep := 0;
    if over > 0 && over + 3 < |body| {
      TrimmedCut(f, body, over);
      keep := CutAt(body, |body| - over - 3);
    }
  }

  /** Of the positions up to k, the last at which a rune can begin. */
  ghost predicate LastRuneStart(body: Bytes, keep: nat, k: nat) {
    && keep <= k < |body| && (keep == 0 || !(0x80 <= body[keep] < 0xC0))
    && forall i :: keep < i <= k ==> 0x80 <= body[i] < 0xC0
  }

  lemma {:induction false} ContinuationsAreShort(s: Bytes, keep: nat, k: nat)
    requires ValidUtf8(s) && LastRuneStart(s, keep, k)
    ensures k - keep <= 3
    decreases |s|
  {
    var n := RuneSize(s);
    if keep >= n {
      assert forall i :: n <= i < |s| ==> s[n..][i - n] == s[i];
      ContinuationsAreShort(s[n..], keep - n, k - n);
    } else if n < |s| {
      NextRuneStarts(s);
    }
  }

  lemma NextRuneStarts(s: Bytes)
    requires s != [] && ValidUtf8(s) && RuneSize(s) < |s|
    ensures !(0x80 <= s[RuneSize(s)] < 0xC0)
  {
    assert s[RuneSize(s)..][0] == s[RuneSize(s)];
  }

  /** A valid body loses at most three bytes to the rune boundary. */
  lemma TrimmedKeepsMost(f: Frame, body: Bytes)
    requires ValidUtf8(body) && |Marshal(f, body)| > 7000 && |Marshal(f, body)| - 7000 + 3 < |body|
    ensures |Trimmed(f, body)| >= |body| - (|Marshal(f, body)| - 7000) - 3
  {
    var over := |Marshal(f, body)| - 7000;
    var keep := CutAt(body, |body| - over - 3);
    ContinuationsAreShort(body, keep, |body| - over - 3);
  }

  // ---- What the listener reads ----

  function HexValue(b: Byte): Option<nat> {
    if 48 <= b <= 57 then Some(b - 48) else if 97 <= b <= 102 then Some(b - 87) else None
  }

  /** The code unit of \uXXXX. */
  function CodeUnit(s: Bytes): Option<nat>
    requires |s| >= 6
  {
    var a, b, c, d := HexValue(s[2]), HexValue(s[3]), HexValue(s[4]), HexValue(s[5]);
    if a.None? || b.None? || c.None? || d.None? then None
    else Some(a.value * 4096 + b.value * 256 + c.value * 16 + d.value)
  }

  /** One character of a JSON string (section 7 of RFC 8259), and the bytes it took; None for
      a bare quote, a control byte or an escape this frame never holds. */
  function ReadFirst(s: Bytes): Option<(Bytes, nat)>
    requires s != []
  {
    if s[0] < 0x20 || s[0] == 34 then None
    else if s[0] != BACKSLASH then (if RuneSize(s) == 0 then None else Some((s[..RuneSize(s)], RuneSize(s))))
    else if |s| < 2 then None
    else if s[1] == 34 || s[1] == BACKSLASH then Some(([s[1]], 2))
    else if s[1] == 98 then Some(([8], 2))
    else if s[1] == 102 then Some(([12], 2))
    else if s[1] == 110 then Some(([10], 2))
    else if s[1] == 114 then Some(([13], 2))
    else if s[1] == 116 then Some(([9], 2))
    else if s[1] != 117 || |s| < 6 || CodeUnit(s).None? then None
    else if CodeUnit(s).value < 0x80 then Some(([CodeUnit(s).value], 6))
    else if CodeUnit(s).value == 0x2028 then Some(([0xE2, 0x80, 0xA8], 6))
    else if CodeUnit(s).value == 0x2029 then Some(([0xE2, 0x80, 0xA9], 6))
    else None
  }

  function Unescape(s: Bytes): Option<Bytes>
    decreases |s|
  {
    if s == [] then Some([])
    else
      var first := ReadFirst(s);
      if first.None? || first.value.1 == 0 || first.value.1 > |s| then None
      else
        var rest := Unescape(s[first.value.1..]);
        if rest.None? then None else Some(first.value.0 + rest.value)
  }

  lemma ReadsEscapedAscii(b: Byte, tail: Bytes)
    requires b < 0x80
    ensures ReadFirst(EscapeAscii(b) + tail) == Some(([b], |EscapeAscii(b)|))
  {
    var s := EscapeAscii(b) + tail;
    assert forall i :: 0 <= i < |EscapeAscii(b)| ==> s[i] == EscapeAscii(b)[i];
    if |EscapeAscii(b)| == 6 {
      assert HexValue(s[4]) == Some(b / 16) && HexValue(s[5]) == Some(b % 16);
    } else if |EscapeAscii(b)| == 1 {
      assert RuneSize(s) == 1 && s[..1] == [b];
    }
  }

  lemma RuneStands(s: Bytes, tail: Bytes)
    requires s != [] && RuneSize(s) > 0
    ensures RuneSize(s[..RuneSize(s)] + tail) == RuneSize(s)
    ensures (s[..RuneSize(s)] + tail)[..RuneSize(s)] == s[..RuneSize(s)]
  {
    var n := RuneSize(s);
    var t := s[..n] + tail;
    assert forall i :: 0 <= i < n ==> t[i] == s[i];
  }

  lemma ReadsEscapedFirst(s: Bytes, tail: Bytes)
    requires s != [] && RuneSize(s) > 0
    ensures ReadFirst(EscapeFirst(s) + tail) == Some((s[..RuneSize(s)], |EscapeFirst(s)|)) && EscapeFirst(s) != []
  {
    var n := RuneSize(s);
    if s[0] < 0x80 {
      ReadsEscapedAscii(s[0], tail);
      assert s[..1] == [s[0]];
    } else if IsLineSeparator(s[..n]) {
      var t := EscapeFirst(s) + tail;
      assert s[2] == s[..n][2];
      assert t[0] == BACKSLASH && t[1] == 117 && t[2] == 50 && t[3] == 48 && t[4] == 50 && t[5] == s[2] - 0xA8 + 56;
      assert CodeUnit(t) == Some(if s[2] == 0xA8 then 0x2028 else 0x2029);
    } else {
      RuneStands(s, tail);
    }
  }

  lemma UnescapeStep(first: Bytes, rest: Bytes, e: Bytes, head: Bytes, tail: Bytes, s: Bytes)
    requires first != [] && e == first + rest && ReadFirst(first + rest) == Some((head, |first|))
    requires Unescape(rest) == Some(tail) && s == head + tail
    ensures Unescape(e) == Some(s)
  {
    assert (first + rest)[|first|..] == rest;
  }

  lemma EscapeStep(s: Bytes)
    requires ValidUtf8(s) && s != []
    ensures 0 < RuneSize(s) <= |s| && ValidUtf8(s[RuneSize(s)..]) && s == s[..RuneSize(s)] + s[RuneSize(s)..]
    ensures Escape(s) == EscapeFirst(s) + Escape(s[RuneSize(s)..])
  {
  }

  /** Every valid body comes out of the frame as it went in: nothing in the escaped form ends
      the string early, and no two bodies share one. */
  lemma {:induction false} UnescapeUndoesEscape(s: Bytes)
    requires ValidUtf8(s)
    ensures Unescape(Escape(s)) == Some(s)
    decreases |s|
  {
    if s != [] {
      EscapeStep(s);
      var head, tail := s[..RuneSize(s)], s[RuneSize(s)..];
      UnescapeUndoesEscape(tail);
      ReadsEscapedFirst(s, Escape(tail));
      UnescapeStep(EscapeFirst(s), Escape(tail), Escape(s), head, tail, s);
    }
  }

  /** Nor does it hold a byte that means something in HTML. */
  lemma {:induction false} EscapeIsHtmlSafe(s: Bytes)
    ensures forall i :: 0 <= i < |Escape(s)| ==> Escape(s)[i] != 60 && Escape(s)[i] != 62 && Escape(s)[i] != 38
    decreases |s|
  {
    if s != [] { EscapeIsHtmlSafe(s[Advance(s)..]); }
  }

  /** Nor a raw line or paragraph separator, which a script would take for a line end. */
  ghost predicate SeparatorAt(s: Bytes, i: nat) {
    i + 3 <= |s| && IsLineSeparator(s[i..i + 3])
  }

  lemma FirstHasNoSeparator(s: Bytes, tail: Bytes, i: nat)
    requires s != [] && i < |EscapeFirst(s)|
    ensures !SeparatorAt(EscapeFirst(s) + tail, i)
  {
    var n, first, t := RuneSize(s), EscapeFirst(s), EscapeFirst(s) + tail;
    assert t[i] == first[i];
    assert i + 3 <= |t| ==> t[i..i + 3][0] == t[i];
    if n > 1 && first == s[..n] {
      if i > 0 {
        assert 0x80 <= s[i] <= 0xBF;
      } else if s[0] == 0xE2 {
        assert t[0..3] == s[..3];
      }
    }
  }

  lemma SeparatorBehind(first: Bytes, rest: Bytes, i: nat)
    requires i >= |first| && !SeparatorAt(rest, i - |first|)
    ensures !SeparatorAt(first + rest, i)
  {
    if i + 3 <= |first + rest| { assert (first + rest)[i..i + 3] == rest[i - |first|..i - |first| + 3]; }
  }

  lemma {:induction false} EscapeHasNoSeparator(s: Bytes, i: nat)
    ensures !SeparatorAt(Escape(s), i)
    decreases |s|
  {
    if s != [] {
      var first, rest := EscapeFirst(s), Escape(s[Advance(s)..]);
      if i < |first| {
        FirstHasNoSeparator(s, rest, i);
      } else {
        EscapeHasNoSeparator(s[Advance(s)..], i - |first|);
        SeparatorBehind(first, rest, i);
      }
    }
  }

  // ---- UTF-8 by code points ----

  /** A Unicode scalar value. */
  predicate IsScalar(c: nat) {
    c < 0xD800 || 0xE000 <= c < 0x110000
  }

  /** Its encoding, by the table of section 3 of RFC 3629. */
  function Utf8(c: nat): Bytes
    requires IsScalar(c)
  {
    if c < 0x80 then [c]
    else if c < 0x800 then [0xC0 + c / 64, 0x80 + c % 64]
    else if c < 0x10000 then [0xE0 + c / 64 / 64, 0x80 + c / 64 % 64, 0x80 + c % 64]
    else [0xF0 + c / 64 / 64 / 64, 0x80 + c / 64 / 64 % 64, 0x80 + c / 64 % 64, 0x80 + c % 64]
  }

  /** One more continuation byte. */
  function Extended(c: int, b: Byte): int {
    c * 64 + (b as int - 0x80)
  }

  lemma ExtendedSplits(c: int, b: Byte)
    requires 0x80 <= b <= 0xBF
    ensures Extended(c, b) / 64 == c && Extended(c, b) % 64 == b as int - 0x80
  {
  }

  /** The value the first n bytes stand for. */
  function CodePoint(s: Bytes, n: nat): int
    requires 1 <= n <= 4 && n <= |s|
  {
    if n == 1 then s[0] as int
    else if n == 2 then Extended(s[0] as int - 0xC0, s[1])
    else if n == 3 then Extended(Extended(s[0] as int - 0xE0, s[1]), s[2])
    else Extended(Extended(Extended(s[0] as int - 0xF0, s[1]), s[2]), s[3])
  }

  lemma RuneEncodesScalar(s: Bytes)
    requires s != [] && RuneSize(s) > 0
    ensures var n := RuneSize(s);
            CodePoint(s, n) >= 0 && IsScalar(CodePoint(s, n)) && s[..n] == Utf8(CodePoint(s, n))
  {
    var n := RuneSize(s);
    if n == 2 {
      ExtendedSplits(s[0] as int - 0xC0, s[1]);
    } else if n == 3 {
      var c := Extended(s[0] as int - 0xE0, s[1]);
      ExtendedSplits(s[0] as int - 0xE0, s[1]);
      ExtendedSplits(c, s[2]);
    } else if n == 4 {
      var c := Extended(s[0] as int - 0xF0, s[1]);
      ExtendedSplits(s[0] as int - 0xF0, s[1]);
      ExtendedSplits(c, s[2]);
      ExtendedSplits(Extended(c, s[2]), s[3]);
    }
  }

  lemma ScalarIsRune(c: nat, tail: Bytes)
    requires IsScalar(c)
    ensures RuneSize(Utf8(c) + tail) == |Utf8(c)|
  {
    var s := Utf8(c) + tail;
    assert forall i :: 0 <= i < |Utf8(c)| ==> s[i] == Utf8(c)[i];
  }

  function Encoded(text: seq<nat>): Bytes
    requires forall i :: 0 <= i < |text| ==> IsScalar(text[i])
    decreases |text|
  {
    if text == [] then [] else Utf8(text[0]) + Encoded(text[1..])
  }

  /** Valid UTF-8 is exactly what encodes some text. */
  lemma {:induction false} EncodedIsValid(text: seq<nat>)
    requires forall i :: 0 <= i < |text| ==> IsScalar(text[i])
    ensures ValidUtf8(Encoded(text))
    decreases |text|
  {
    if text != [] {
      var rest := Encoded(text[1..]);
      ScalarIsRune(text[0], rest);
      EncodedIsValid(text[1..]);
      assert (Utf8(text[0]) + rest)[|Utf8(text[0])|..] == rest;
    }
  }

  lemma {:induction false} ValidIsEncoded(s: Bytes) returns (text: seq<nat>)
    requires ValidUtf8(s)
    ensures (forall i :: 0 <= i < |text| ==> IsScalar(text[i])) && Encoded(text) == s
    decreases |s|
  {
    if s == [] {
      text := [];
    } else {
      var n := RuneSize(s);
      RuneEncodesScalar(s);
      var rest := ValidIsEncoded(s[n..]);
      text := [CodePoint(s, n)] + rest;
      assert text[1..] == rest && s == s[..n] + s[n..];
    }
  }
}
