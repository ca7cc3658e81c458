/** Credential encryption at rest (crypto/credentials.go): one write key, any number of
    read-only keys, and the stored envelope that says which of them sealed a value. */
module Keyring {
  import opened Basics
  import opened Base64

  const COLON: Byte := 58

  /** "enc:" */
  const ENC: Bytes := [101, 110, 99, 58]

  const KEY_SIZE := 32
  const NONCE_SIZE := 12

  // ---- Idealised primitives ----

  /** The AEAD and the key-id derivation the ring is built on. */
  datatype Crypto = Crypto(
    seal: (Bytes, Bytes, Bytes) -> Bytes,
    open: (Bytes, Bytes, Bytes) -> Option<Bytes>,
    keyId: Bytes -> Bytes)

  predicate IsKey(k: Bytes) { |k| == KEY_SIZE }

  predicate IsNonce(n: Bytes) { |n| == NONCE_SIZE }

  /** Eight lower-case hexadecimal characters. */
  predicate IsKeyId(id: Bytes) {
    |id| == 8 && forall i :: 0 <= i < 8 ==> 48 <= id[i] <= 57 || 97 <= id[i] <= 102
  }

  /** Opening succeeds under the sealing key and under no other. */
  ghost predicate Ideal(c: Crypto) {
    && (forall k, n, m :: IsKey(k) && IsNonce(n) ==> c.open(k, n, c.seal(k, n, m)) == Some(m))
    && (forall k, k', n, m :: IsKey(k) && IsKey(k') && IsNonce(n) && k != k' ==> c.open(k', n, c.seal(k, n, m)).None?)
    && (forall k :: IsKey(k) ==> IsKeyId(c.keyId(k)))
  }

  function HexDigit(n: nat): Byte
    requires n < 16
  {
    if n < 10 then 48 + n else 87 + n
  }

  /** The first byte of the key in hexadecimal, padded. */
  function FirstByteId(key: Bytes): Bytes {
    if key == [] then [] else [HexDigit(key[0] / 16), HexDigit(key[0] % 16), 48, 48, 48, 48, 48, 48]
  }

  /** A transparent instance, to show the laws can be met. */
  function Transparent(): Crypto {
    Crypto((k, n, m) => k + m, (k: Bytes, n, s) => if k <= s then Some(s[|k|..]) else None, FirstByteId)
  }

  lemma TransparentIsIdeal()
    ensures Ideal(Transparent())
  {
    var c := Transparent();
    forall k, n, m | IsKey(k) && IsNonce(n) ensures c.open(k, n, c.seal(k, n, m)) == Some(m) {
      assert (k + m)[|k|..] == m;
    }
    forall k, k', n, m | IsKey(k) && IsKey(k') && IsNonce(n) && k != k' ensures c.open(k', n, c.seal(k, n, m)).None? {
      assert (k + m)[..KEY_SIZE] == k;
    }
  }

  // ---- The ring ----

  datatype Entry = Entry(id: Bytes, key: Bytes)

  datatype Ring = Ring(primary: Entry, byId: map<Bytes, Entry>, order: seq<Entry>)

  /** A usable key under its derived id, and the one the map holds there. */
  ghost predicate Held(c: Crypto, byId: map<Bytes, Entry>, e: Entry) {
    IsKey(e.key) && e.id == c.keyId(e.key) && Lookup(byId, e.id) == Some(e)
  }

  ghost predicate Listed(order: seq<Entry>, id: Bytes) {
    exists i :: 0 <= i < |order| && order[i].id == id
  }

  /** What NewKeyring establishes and nothing ever changes: the map and the list hold the
      same entries, under their derived ids, primary first. */
  ghost predicate Valid(c: Crypto, r: Ring) {
    && r.order != [] && r.order[0] == r.primary
    && (forall i :: 0 <= i < |r.order| ==> Held(c, r.byId, r.order[i]))
    && (forall i, j :: 0 <= i < j < |r.order| ==> r.order[i].id != r.order[j].id)
    && (forall id :: id in r.byId ==> Listed(r.order, id))
  }

  ghost function Keys(r: Ring): seq<Bytes> {
    seq(|r.order|, i requires 0 <= i < |r.order| => r.order[i].key)
  }

  /** Every key is 32 bytes and no two derive the same id. */
  ghost predicate Accepts(c: Crypto, keys: seq<Bytes>) {
    && (forall i :: 0 <= i < |keys| ==> IsKey(keys[i]))
    && (forall i, j :: 0 <= i < j < |keys| ==> c.keyId(keys[i]) != c.keyId(keys[j]))
  }

  lemma ValidAccepts(c: Crypto, r: Ring)
    requires Valid(c, r)
    ensures Accepts(c, Keys(r))
  {
  }

  lemma DuplicateRefused(c: Crypto, r: Ring, keys: seq<Bytes>, n: nat)
    requires Valid(c, r) && n < |keys| && Keys(r) == keys[..n] && c.keyId(keys[n]) in r.byId
    ensures !Accepts(c, keys)
  {
    var j :| 0 <= j < |r.order| && r.order[j].id == c.keyId(keys[n]);
    assert keys[j] == keys[..n][j] == r.order[j].key;
  }

  /** NewKeyring; None is an error. */
  method NewKeyring(c: Crypto, primary: Bytes, previous: seq<Bytes>) returns (ring: Option<Ring>)
    ensures ring.Some? <==> Accepts(c, [primary] + previous)
    ensures ring.Some? ==> Valid(c, ring.value) && Keys(ring.value) == [primary] + previous
  {
    ghost var keys := [primary] + previous;
    if |primary| != KEY_SIZE {
      assert !IsKey(keys[0]);
      return None;
    }
    var r := Lone(c, primary);
    assert Keys(r) == keys[..1];
    for i := 0 to |previous|
      invariant Valid(c, r) && Keys(r) == keys[..i + 1]
    {
      var key := previous[i];
      assert keys[i + 1] == key;
      if |key| != KEY_SIZE {
        assert !IsKey(keys[i + 1]);
        return None;
      }
      var entry := Entry(c.keyId(key), key);
      if entry.id in r.byId {
        DuplicateRefused(c, r, keys, i + 1);
        return None;
      }
      ExtendValid(c, r, entry);
      r := Extend(r, entry);
      assert keys[..i + 2] == keys[..i + 1] + [key];
    }
    assert keys[..|previous| + 1] == keys;
    ValidAccepts(c, r);
    return Some(r);
  }

  /** The ring before any previous key. */
  function Lone(c: Crypto, key: Bytes): (r: Ring)
    requires IsKey(key)
    ensures Valid(c, r) && Keys(r) == [key]
  {
    var e := Entry(c.keyId(key), key);
    Ring(e, map[e.id := e], [e])
  }

  /** One turn of NewKeyring's loop. */
  function Extend(r: Ring, e: Entry): Ring {
    r.(byId := r.byId[e.id := e], order := r.order + [e])
  }

  lemma ExtendListed(order: seq<Entry>, e: Entry, id: Bytes)
    requires id == e.id || Listed(order, id)
    ensures Listed(order + [e], id)
  {
    if id == e.id {
      assert (order + [e])[|order|].id == id;
    } else {
      var i :| 0 <= i < |order| && order[i].id == id;
      assert (order + [e])[i].id == id;
    }
  }

  lemma ExtendValid(c: Crypto, r: Ring, e: Entry)
    requires Valid(c, r) && IsKey(e.key) && e.id == c.keyId(e.key) && e.id !in r.byId
    ensures Valid(c, Extend(r, e)) && Keys(Extend(r, e)) == Keys(r) + [e.key]
  {
    var order, byId := r.order + [e], r.byId[e.id := e];
    forall i | 0 <= i < |order| ensures Held(c, byId, order[i]) {
      if i < |r.order| { assert order[i] == r.order[i] && Held(c, r.byId, r.order[i]); }
    }
    forall i, j | 0 <= i < j < |order| ensures order[i].id != order[j].id {
      assert order[i] == r.order[i] && Held(c, r.byId, r.order[i]);
    }
    forall id | id in byId ensures Listed(order, id) { ExtendListed(r.order, e, id); }
  }

  lemma FirstByteTells(a: Bytes, b: Bytes)
    requires IsKey(a) && IsKey(b) && a[0] != b[0]
    ensures FirstByteId(a) != FirstByteId(b)
  {
    assert a[0] == a[0] / 16 * 16 + a[0] % 16 && b[0] == b[0] / 16 * 16 + b[0] % 16;
    assert FirstByteId(a)[0] == HexDigit(a[0] / 16) && FirstByteId(a)[1] == HexDigit(a[0] % 16);
    assert FirstByteId(b)[0] == HexDigit(b[0] / 16) && FirstByteId(b)[1] == HexDigit(b[0] % 16);
  }

  /** The laws leave room for a rotation: an ideal instance with a ring of two keys. */
  lemma RotationIsPossible(primary: Bytes, previous: Bytes) returns (r: Ring)
    requires IsKey(primary) && IsKey(previous) && primary[0] != previous[0]
    ensures Ideal(Transparent()) && Valid(Transparent(), r) && Keys(r) == [primary, previous]
  {
    var c := Transparent();
    TransparentIsIdeal();
    FirstByteTells(primary, previous);
    var e := Entry(c.keyId(previous), previous);
    ExtendValid(c, Lone(c, primary), e);
    r := Extend(Lone(c, primary), e);
  }

  // ---- The envelope ----

  /** Position of the first ':' (the length when there is none). */
  function FirstColon(s: Bytes): (n: nat)
    ensures n <= |s| && (n < |s| ==> s[n] == COLON) && forall i :: 0 <= i < n ==> s[i] != COLON
    decreases |s|
  {
    if s == [] || s[0] == COLON then 0 else 1 + FirstColon(s[1..])
  }

  /** splitEnvelope: key id ("" when untagged) and payload. */
  function SplitEnvelope(body: Bytes): (Bytes, Bytes) {
    var n := FirstColon(body);
    if n < |body| then (body[..n], body[n + 1..]) else ([], body)
  }

  predicate Enveloped(stored: Bytes) {
    ENC <= stored
  }

  function Body(stored: Bytes): Bytes
    requires Enveloped(stored)
  {
    stored[|ENC|..]
  }

  function Tagged(id: Bytes, payload: Bytes): Bytes {
    ENC + id + [COLON] + payload
  }

  lemma NoColonNoCut(s: Bytes)
    requires COLON !in s
    ensures FirstColon(s) == |s|
  {
  }

  /** Printing and splitting agree, for any tag without a ':'. */
  lemma SplitTagged(id: Bytes, payload: Bytes)
    requires COLON !in id
    ensures Enveloped(Tagged(id, payload)) && SplitEnvelope(Body(Tagged(id, payload))) == (id, payload)
  {
    var body := Body(Tagged(id, payload));
    assert body == id + [COLON] + payload;
    var n := FirstColon(body);
    assert body[|id|] == COLON;
    assert forall i :: 0 <= i < |id| ==> body[i] == id[i];
    assert n == |id| && body[..n] == id && body[n + 1..] == payload;
  }

  lemma KeyIdHasNoColon(id: Bytes)
    requires IsKeyId(id)
    ensures COLON !in id
  {
  }

  lemma EncodedHasNoColon(data: Bytes)
    ensures COLON !in Encode(data)
  {
    EncodeInAlphabet(data);
  }

  // ---- Encrypt and Decrypt ----

  /** Encrypt under the primary key, with the nonce that was drawn. */
  function Encrypt(c: Crypto, r: Ring, nonce: Bytes, plaintext: Bytes): Bytes {
    Tagged(r.primary.id, Encode(nonce + c.seal(r.primary.key, nonce, plaintext)))
  }

  /** The form written before envelopes carried a key id. */
  function EncryptLegacy(c: Crypto, key: Bytes, nonce: Bytes, plaintext: Bytes): Bytes {
    ENC + Encode(nonce + c.seal(key, nonce, plaintext))
  }

  function Open(c: Crypto, e: Entry, data: Bytes): Option<Bytes> {
    if |data| < NONCE_SIZE then None else c.open(e.key, data[..NONCE_SIZE], data[NONCE_SIZE..])
  }

  /** The first entry that opens the data decides. */
  function OpenUntagged(c: Crypto, order: seq<Entry>, data: Bytes): Option<Bytes>
    decreases |order|
  {
    if order == [] then None
    else if Open(c, order[0], data).Some? then Open(c, order[0], data)
    else OpenUntagged(c, order[1..], data)
  }

  /** openUntagged. */
  method TryEveryKey(c: Crypto, order: seq<Entry>, data: Bytes) returns (plaintext: Option<Bytes>)
    ensures plaintext == OpenUntagged(c, order, data)
  {
    for i := 0 to |order|
      invariant OpenUntagged(c, order[i..], data) == OpenUntagged(c, order, data)
    {
      assert order[i..][0] == order[i] && order[i..][1..] == order[i + 1..];
      var answer := Open(c, order[i], data);
      if answer.Some? { return answer; }
    }
    return None;
  }

  /** Decrypt; None is an error. */
  function Decrypt(c: Crypto, r: Ring, stored: Bytes): Option<Bytes> {
    if !Enveloped(stored) then Some(stored)
    else
      var (id, payload) := SplitEnvelope(Body(stored));
      var data := Decode(payload);
      if data.None? then None
      else if id == [] then OpenUntagged(c, r.order, data.value)
      else if id !in r.byId then None
      else Open(c, r.byId[id], data.value)
  }

  /** A stored value that does not open with "enc:" is its own plaintext, under every ring. */
  lemma DecryptsPlain(c: Crypto, r: Ring, stored: Bytes)
    requires !([101, 110, 99, 58] <= stored)
    ensures Decrypt(c, r, stored) == Some(stored)
  {
  }

  /** An envelope is refused when its payload is not base64, when it names a key the ring
      does not hold, or when no key it may be under opens it. */
  lemma DecryptRefuses(c: Crypto, r: Ring, id: Bytes, payload: Bytes)
    requires COLON !in id && id != []
    ensures var stored := Tagged(id, payload);
            Decrypt(c, r, stored) ==
            if Decode(payload).None? || id !in r.byId || |Decode(payload).value| < NONCE_SIZE then None
            else
              var data := Decode(payload).value;
              c.open(r.byId[id].key, data[..NONCE_SIZE], data[NONCE_SIZE..])
  {
    SplitTagged(id, payload);
  }

  /** Without a key id, the first key in order that opens the payload decides. */
  lemma {:induction false} FirstKeyDecides(c: Crypto, order: seq<Entry>, data: Bytes)
    ensures OpenUntagged(c, order, data).None? <==> forall i :: 0 <= i < |order| ==> Open(c, order[i], data).None?
    ensures forall i :: 0 <= i < |order| && Open(c, order[i], data).Some? && (forall j :: 0 <= j < i ==> Open(c, order[j], data).None?) ==>
              OpenUntagged(c, order, data) == Open(c, order[i], data)
    decreases |order|
  {
    if order != [] {
      assert forall i :: 0 < i < |order| ==> order[1..][i - 1] == order[i];
      FirstKeyDecides(c, order[1..], data);
    }
  }

  lemma OpenSealed(c: Crypto, e: Entry, key: Bytes, nonce: Bytes, m: Bytes)
    requires Ideal(c) && IsKey(key) && IsKey(e.key) && IsNonce(nonce)
    ensures Open(c, e, nonce + c.seal(key, nonce, m)) == if e.key == key then Some(m) else None
  {
    var data := nonce + c.seal(key, nonce, m);
    assert data[..NONCE_SIZE] == nonce && data[NONCE_SIZE..] == c.seal(key, nonce, m);
  }

  /** What one ring encrypts, every ring that kept its primary key decrypts. */
  lemma DecryptsEncrypted(c: Crypto, r: Ring, r': Ring, nonce: Bytes, m: Bytes)
    requires Ideal(c) && Valid(c, r) && IsNonce(nonce) && Lookup(r'.byId, r.primary.id) == Some(r.primary)
    ensures Decrypt(c, r', Encrypt(c, r, nonce, m)) == Some(m)
  {
    var data := nonce + c.seal(r.primary.key, nonce, m);
    assert r.order[0] == r.primary;
    KeyIdHasNoColon(r.primary.id);
    SplitTagged(r.primary.id, Encode(data));
    RoundTrip(data);
    OpenSealed(c, r.primary, r.primary.key, nonce, m);
  }

  lemma {:induction false} SealedOpensUnderItsKey(c: Crypto, order: seq<Entry>, k: nat, nonce: Bytes, m: Bytes)
    requires Ideal(c) && IsNonce(nonce) && k < |order| && forall i :: 0 <= i < |order| ==> IsKey(order[i].key)
    ensures OpenUntagged(c, order, nonce + c.seal(order[k].key, nonce, m)) == Some(m)
    decreases |order|
  {
    OpenSealed(c, order[0], order[k].key, nonce, m);
    if order[0].key != order[k].key {
      assert order[1..][k - 1] == order[k];
      SealedOpensUnderItsKey(c, order[1..], k - 1, nonce, m);
    }
  }

  /** A legacy value decrypts under any ring that still holds its key, in any position. */
  lemma DecryptsLegacy(c: Crypto, r: Ring, k: nat, nonce: Bytes, m: Bytes)
    requires Ideal(c) && Valid(c, r) && IsNonce(nonce) && k < |r.order|
    ensures Decrypt(c, r, EncryptLegacy(c, r.order[k].key, nonce, m)) == Some(m)
  {
    var data := nonce + c.seal(r.order[k].key, nonce, m);
    assert Body(EncryptLegacy(c, r.order[k].key, nonce, m)) == Encode(data);
    EncodedHasNoColon(data);
    NoColonNoCut(Encode(data));
    RoundTrip(data);
    SealedOpensUnderItsKey(c, r.order, k, nonce, m);
  }
}
