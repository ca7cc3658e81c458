/** When an old key may be destroyed: the staleness test of the audit and of the sweep
    (postgres/rewrap.go) against what Decrypt does with one key left. */
module Retirement {
  import opened Base64
  import opened Keyring

  /** LIKE 'enc:%' AND NOT LIKE 'enc:<primary>:%'. */
  predicate Stale(primaryId: Bytes, stored: Bytes) {
    Enveloped(stored) && !(Tagged(primaryId, []) <= stored)
  }

  /** The ring that is left when every previous key is dropped. */
  function OnlyPrimary(r: Ring): Ring {
    Ring(r.primary, map[r.primary.id := r.primary], [r.primary])
  }

  /** The envelope carries no key id but opens under the primary key. */
  ghost predicate UntaggedUnderPrimary(c: Crypto, r: Ring, stored: Bytes) {
    && Enveloped(stored)
    && var (id, payload) := SplitEnvelope(Body(stored));
       id == [] && Decode(payload).Some? && Open(c, r.primary, Decode(payload).value).Some?
  }

  lemma FreshIsTagged(id: Bytes, stored: Bytes)
    requires Enveloped(stored) && !Stale(id, stored) && COLON !in id
    ensures SplitEnvelope(Body(stored)).0 == id
  {
    var payload := stored[|Tagged(id, [])|..];
    assert stored == Tagged(id, []) + payload == Tagged(id, payload);
    SplitTagged(id, payload);
  }

  lemma TagIsFresh(id: Bytes, stored: Bytes)
    requires Enveloped(stored) && id != [] && SplitEnvelope(Body(stored)).0 == id
    ensures !Stale(id, stored)
  {
    var body := Body(stored);
    var n := FirstColon(body);
    assert body[..n] == id && body[n] == COLON;
    CutThere(body, n);
    TaggedPrefix(id, body[n + 1..]);
    assert stored == ENC + body;
    Reassociated(ENC, id, [COLON], body[n + 1..]);
  }

  lemma CutThere(s: Bytes, n: nat)
    requires n < |s|
    ensures s == s[..n] + [s[n]] + s[n + 1..]
  {
  }

  lemma Reassociated(a: Bytes, b: Bytes, c: Bytes, d: Bytes)
    ensures a + (b + c + d) == a + b + c + d
  {
  }

  lemma TaggedPrefix(id: Bytes, payload: Bytes)
    ensures Tagged(id, []) <= Tagged(id, payload)
  {
    assert Tagged(id, payload) == Tagged(id, []) + payload;
  }

  /** If no stored value is stale, dropping the previous keys changes no decryption; and
      for a value that decrypts now it is exact: without them it still decrypts, to the
      same plaintext, if and only if it is not stale or is an untagged value that the
      primary key opens. */
  lemma RetirementIff(c: Crypto, r: Ring, stored: Bytes)
    requires Valid(c, r) && IsKeyId(r.primary.id)
    ensures !Stale(r.primary.id, stored) ==> Decrypt(c, OnlyPrimary(r), stored) == Decrypt(c, r, stored)
    ensures Decrypt(c, r, stored).Some? ==>
              (Decrypt(c, OnlyPrimary(r), stored) == Decrypt(c, r, stored) <==>
               !Stale(r.primary.id, stored) || UntaggedUnderPrimary(c, r, stored))
  {
    KeyIdHasNoColon(r.primary.id);
    assert r.order[0] == r.primary;
    if Enveloped(stored) {
      var (id, payload) := SplitEnvelope(Body(stored));
      if Stale(r.primary.id, stored) {
        if id == r.primary.id { TagIsFresh(r.primary.id, stored); }
        if id == [] && Decode(payload).Some? { UntaggedIff(c, r, Decode(payload).value); }
      } else {
        FreshIsTagged(r.primary.id, stored);
      }
    }
  }

  lemma UntaggedIff(c: Crypto, r: Ring, data: Bytes)
    requires r.order != [] && r.order[0] == r.primary
    ensures OpenUntagged(c, [r.primary], data) == Open(c, r.primary, data)
    ensures Open(c, r.primary, data).Some? ==> OpenUntagged(c, r.order, data) == Open(c, r.primary, data)
  {
    assert [r.primary][1..] == [];
  }

  /** Encrypt never writes a stale value. */
  lemma EncryptIsFresh(c: Crypto, r: Ring, nonce: Bytes, m: Bytes)
    ensures Enveloped(Encrypt(c, r, nonce, m)) && !Stale(r.primary.id, Encrypt(c, r, nonce, m))
  {
    var payload := Encode(nonce + c.seal(r.primary.key, nonce, m));
    assert Tagged(r.primary.id, payload) == Tagged(r.primary.id, []) + payload;
    assert Encrypt(c, r, nonce, m)[..4] == ENC;
  }

  /** A value written under a previous key, tagged or legacy, is always stale. */
  lemma PreviousKeyIsStale(c: Crypto, r: Ring, k: nat, nonce: Bytes, m: Bytes)
    requires Ideal(c) && Valid(c, r) && 0 < k < |r.order| && IsNonce(nonce)
    ensures Stale(r.primary.id, Encrypt(c, r.(primary := r.order[k]), nonce, m))
    ensures Stale(r.primary.id, EncryptLegacy(c, r.order[k].key, nonce, m))
  {
    var id, data := r.order[k].id, nonce + c.seal(r.order[k].key, nonce, m);
    assert r.order[0].id != id;
    KeyIdHasNoColon(id);
    KeyIdHasNoColon(r.primary.id);
    SplitTagged(id, Encode(data));
    var tagged, legacy := Tagged(id, Encode(data)), EncryptLegacy(c, r.order[k].key, nonce, m);
    if !Stale(r.primary.id, tagged) { FreshIsTagged(r.primary.id, tagged); }
    EncodedHasNoColon(data);
    NoColonNoCut(Encode(data));
    assert Body(legacy) == Encode(data);
    if !Stale(r.primary.id, legacy) { FreshIsTagged(r.primary.id, legacy); }
  }
}
