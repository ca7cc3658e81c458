/** The rewrap sweep (postgres/rewrap.go): every stale ciphertext is re-encrypted under
    the primary key by compare-and-swap, while users go on saving. */
module Rewrap {
  import opened Basics
  import opened Base64
  import opened Keyring
  import opened Retirement

  datatype RowKey = RowKey(column: string, key: string)

  /** A user's save under the primary key; None deletes the row. */
  datatype Save = Save(row: RowKey, plaintext: Option<Bytes>, nonce: Bytes)

  /** The encrypted columns. `saved` is what each row is supposed to say (None for a value
      that never could be read), `schedule` the saves that land before each of the sweep's
      statements, `replaced` the rows its updates hit. */
  datatype Store = Store(
    rows: map<RowKey, Bytes>,
    saved: map<RowKey, Option<Bytes>>,
    schedule: seq<seq<Save>>,
    replaced: seq<RowKey>,
    draws: nat)

  /** A keyring as the sweep uses it: encrypt under the primary key, decrypt, and tell what
      is not under the primary key. */
  datatype Cipher = Cipher(encrypt: (Bytes, Bytes) -> Bytes, decrypt: Bytes -> Option<Bytes>, stale: Bytes -> bool)

  /** The cipher a ring gives. */
  function RingCipher(c: Crypto, r: Ring): Cipher {
    Cipher((nonce, m) => Encrypt(c, r, nonce, m), stored => Decrypt(c, r, stored), stored => Stale(r.primary.id, stored))
  }

  ghost predicate ReadsOwn(cipher: Cipher, nonce: Bytes, m: Bytes) {
    cipher.decrypt(cipher.encrypt(nonce, m)) == Some(m)
  }

  /** It reads back what it writes, and never writes a stale value. */
  ghost predicate Lawful(cipher: Cipher) {
    && (forall nonce, m :: IsNonce(nonce) ==> ReadsOwn(cipher, nonce, m))
    && (forall nonce, m :: !cipher.stale(cipher.encrypt(nonce, m)))
  }

  lemma RingCipherLawful(c: Crypto, r: Ring)
    requires Ideal(c) && Valid(c, r)
    ensures Lawful(RingCipher(c, r))
  {
    var cipher := RingCipher(c, r);
    assert r.order[0] == r.primary;
    forall nonce, m | IsNonce(nonce) ensures ReadsOwn(cipher, nonce, m) {
      DecryptsEncrypted(c, r, r, nonce, m);
    }
    forall nonce, m ensures !cipher.stale(cipher.encrypt(nonce, m)) {
      EncryptIsFresh(c, r, nonce, m);
    }
  }

  /** The keyring, random nonces, and the order a SELECT happens to return rows in. */
  datatype Setup = Setup(cipher: Cipher, draw: nat -> Bytes, scan: set<RowKey> -> seq<RowKey>)

  ghost predicate Enumerates(rows: seq<RowKey>, keys: set<RowKey>) {
    NoDuplicates(rows) && forall k :: k in rows <==> k in keys
  }

  ghost predicate Fit(su: Setup) {
    && Lawful(su.cipher)
    && (forall i :: IsNonce(su.draw(i)))
    && (forall keys :: Enumerates(su.scan(keys), keys))
  }

  ghost predicate Nonced(schedule: seq<seq<Save>>) {
    forall i, j :: 0 <= i < |schedule| && 0 <= j < |schedule[i]| ==> IsNonce(schedule[i][j].nonce)
  }

  // ---- Users ----

  function ApplySave(su: Setup, st: Store, s: Save): Store {
    match s.plaintext
    case None => st.(rows := st.rows - {s.row}, saved := st.saved - {s.row})
    case Some(m) => st.(rows := st.rows[s.row := su.cipher.encrypt(s.nonce, m)], saved := st.saved[s.row := Some(m)])
  }

  function ApplySaves(su: Setup, st: Store, saves: seq<Save>): Store
    decreases |saves|
  {
    if saves == [] then st else ApplySaves(su, ApplySave(su, st, saves[0]), saves[1..])
  }

  /** The store as the sweep's next statement finds it. */
  function Arrive(su: Setup, st: Store): Store {
    if st.schedule == [] then st else ApplySaves(su, st.(schedule := st.schedule[1..]), st.schedule[0])
  }

  // ---- The sweep ----

  datatype StaleRow = StaleRow(row: RowKey, stored: Bytes)

  predicate IsStale(su: Setup, stored: Bytes) {
    su.cipher.stale(stored)
  }

  function StaleKeys(su: Setup, rows: map<RowKey, Bytes>, column: string): set<RowKey> {
    set k | k in rows && k.column == column && IsStale(su, rows[k])
  }

  /** selectStaleRows, on the store as it stands. */
  function Snapshot(su: Setup, st: Store, column: string): (pending: seq<StaleRow>)
    ensures |pending| == |su.scan(StaleKeys(su, st.rows, column))|
  {
    var order := su.scan(StaleKeys(su, st.rows, column));
    seq(|order|, i requires 0 <= i < |order| => StaleRow(order[i], if order[i] in st.rows then st.rows[order[i]] else []))
  }

  /** The compare-and-swap UPDATE. */
  function Swap(st: Store, r: StaleRow, rewrapped: Bytes): Store {
    if Lookup(st.rows, r.row) == Some(r.stored)
    then st.(rows := st.rows[r.row := rewrapped], replaced := st.replaced + [r.row], draws := st.draws + 1)
    else st.(draws := st.draws + 1)
  }

  /** One row that decrypts to m: re-encrypt, then swap. */
  function RewrapOne(su: Setup, st: Store, r: StaleRow, m: Bytes): Store {
    Swap(Arrive(su, st), r, su.cipher.encrypt(su.draw(st.draws), m))
  }

  /** Rows the UPDATE affects. */
  function Hits(su: Setup, st: Store, r: StaleRow): nat {
    if Lookup(Arrive(su, st).rows, r.row) == Some(r.stored) then 1 else 0
  }

  /** `count` is what the sweep reports; ok is false when it stopped on an error. */
  datatype Sweep = Sweep(store: Store, count: nat, ok: bool)

  /** applyRewrap: a value that does not decrypt ends the column and reports 0. */
  function ApplyRewrap(su: Setup, st: Store, pending: seq<StaleRow>, rewrote: nat): Sweep
    decreases |pending|
  {
    if pending == [] then Sweep(st, rewrote, true)
    else
      var m := su.cipher.decrypt(pending[0].stored);
      if m.None? then Sweep(st, 0, false)
      else
        var next := RewrapOne(su, st, pending[0], m.value);
        ApplyRewrap(su, next, pending[1..], rewrote + Hits(su, st, pending[0]))
  }

  function RewrapColumn(su: Setup, st: Store, column: string): Sweep {
    var now := Arrive(su, st);
    ApplyRewrap(su, now, Snapshot(su, now, column), 0)
  }

  /** RewrapEncrypted. */
  function RewrapColumns(su: Setup, st: Store, columns: seq<string>, total: nat): Sweep
    decreases |columns|
  {
    if columns == [] then Sweep(st, total, true)
    else
      var s := RewrapColumn(su, st, columns[0]);
      if !s.ok then Sweep(s.store, total, false) else RewrapColumns(su, s.store, columns[1..], total + s.count)
  }

  // ---- Every row keeps saying what was last saved ----

  ghost predicate Faithful(su: Setup, st: Store) {
    && st.rows.Keys == st.saved.Keys && Nonced(st.schedule)
    && forall k :: k in st.rows ==> su.cipher.decrypt(st.rows[k]) == st.saved[k]
  }

  lemma OwnDecrypts(su: Setup, nonce: Bytes, m: Bytes)
    requires Fit(su) && IsNonce(nonce)
    ensures su.cipher.decrypt(su.cipher.encrypt(nonce, m)) == Some(m)
  {
    assert ReadsOwn(su.cipher, nonce, m);
  }

  ghost predicate AllNonced(saves: seq<Save>) {
    forall j :: 0 <= j < |saves| ==> IsNonce(saves[j].nonce)
  }

  lemma {:induction false} SavesFaithful(su: Setup, st: Store, saves: seq<Save>)
    requires Fit(su) && Faithful(su, st) && AllNonced(saves)
    ensures Faithful(su, ApplySaves(su, st, saves)) && ApplySaves(su, st, saves).replaced == st.replaced
    decreases |saves|
  {
    if saves != [] {
      if saves[0].plaintext.Some? { OwnDecrypts(su, saves[0].nonce, saves[0].plaintext.value); }
      SavesFaithful(su, ApplySave(su, st, saves[0]), saves[1..]);
    }
  }

  lemma ArriveFaithful(su: Setup, st: Store)
    requires Fit(su) && Faithful(su, st)
    ensures Faithful(su, Arrive(su, st)) && Arrive(su, st).replaced == st.replaced
  {
    if st.schedule != [] { SavesFaithful(su, st.(schedule := st.schedule[1..]), st.schedule[0]); }
  }

  lemma RewrapOneFaithful(su: Setup, st: Store, r: StaleRow, m: Bytes)
    requires Fit(su) && Faithful(su, st) && su.cipher.decrypt(r.stored) == Some(m)
    ensures Faithful(su, RewrapOne(su, st, r, m)) && RewrapOne(su, st, r, m).saved == Arrive(su, st).saved
    ensures st.replaced <= RewrapOne(su, st, r, m).replaced
  {
    ArriveFaithful(su, st);
    OwnDecrypts(su, su.draw(st.draws), m);
  }

  /** At no point of an interleaved sweep, finished or not, does a row say anything but
      what was last saved in it. */
  lemma {:induction false} ApplyRewrapFaithful(su: Setup, st: Store, pending: seq<StaleRow>, rewrote: nat)
    requires Fit(su) && Faithful(su, st)
    ensures Faithful(su, ApplyRewrap(su, st, pending, rewrote).store)
    decreases |pending|
  {
    if pending != [] {
      var m := su.cipher.decrypt(pending[0].stored);
      if m.Some? {
        RewrapOneFaithful(su, st, pending[0], m.value);
        ArriveFaithful(su, st);
        var next := RewrapOne(su, st, pending[0], m.value);
        ApplyRewrapFaithful(su, next, pending[1..], rewrote + Hits(su, st, pending[0]));
      }
    }
  }

  lemma ColumnFaithful(su: Setup, st: Store, column: string)
    requires Fit(su) && Faithful(su, st)
    ensures Faithful(su, RewrapColumn(su, st, column).store)
  {
    ArriveFaithful(su, st);
    var now := Arrive(su, st);
    ApplyRewrapFaithful(su, now, Snapshot(su, now, column), 0);
  }

  lemma {:induction false} SweepFaithful(su: Setup, st: Store, columns: seq<string>, total: nat)
    requires Fit(su) && Faithful(su, st)
    ensures Faithful(su, RewrapColumns(su, st, columns, total).store)
    decreases |columns|
  {
    if columns != [] {
      ColumnFaithful(su, st, columns[0]);
      var s := RewrapColumn(su, st, columns[0]);
      if s.ok { SweepFaithful(su, s.store, columns[1..], total + s.count); }
    }
  }

  // ---- A finished sweep leaves nothing stale ----

  ghost predicate NoneStale(su: Setup, st: Store, column: string) {
    forall k :: k in st.rows && k.column == column ==> !IsStale(su, st.rows[k])
  }

  /** Whatever is stale in the column is queued, as it stands. */
  ghost predicate Queued(su: Setup, st: Store, column: string, pending: seq<StaleRow>) {
    forall k :: k in st.rows && k.column == column && IsStale(su, st.rows[k]) ==> StaleRow(k, st.rows[k]) in pending
  }

  lemma {:induction false} SavesStayQueued(su: Setup, st: Store, saves: seq<Save>, column: string, pending: seq<StaleRow>)
    requires Lawful(su.cipher) && Queued(su, st, column, pending)
    ensures Queued(su, ApplySaves(su, st, saves), column, pending)
    decreases |saves|
  {
    if saves != [] {
      SavesStayQueued(su, ApplySave(su, st, saves[0]), saves[1..], column, pending);
    }
  }

  lemma ArriveStaysQueued(su: Setup, st: Store, column: string, pending: seq<StaleRow>)
    requires Lawful(su.cipher) && Queued(su, st, column, pending)
    ensures Queued(su, Arrive(su, st), column, pending)
  {
    if st.schedule != [] { SavesStayQueued(su, st.(schedule := st.schedule[1..]), st.schedule[0], column, pending); }
  }

  lemma SwapDequeues(su: Setup, st: Store, pending: seq<StaleRow>, column: string, nonce: Bytes, m: Bytes)
    requires Lawful(su.cipher) && Queued(su, st, column, pending) && pending != []
    ensures Queued(su, Swap(st, pending[0], su.cipher.encrypt(nonce, m)), column, pending[1..])
  {
    assert pending == [pending[0]] + pending[1..];
  }

  lemma {:induction false} ApplyRewrapEmpties(su: Setup, st: Store, pending: seq<StaleRow>, rewrote: nat, column: string)
    requires Lawful(su.cipher) && Queued(su, st, column, pending) && ApplyRewrap(su, st, pending, rewrote).ok
    ensures NoneStale(su, ApplyRewrap(su, st, pending, rewrote).store, column)
    decreases |pending|
  {
    if pending != [] {
      var m := su.cipher.decrypt(pending[0].stored).value;
      ArriveStaysQueued(su, st, column, pending);
      SwapDequeues(su, Arrive(su, st), pending, column, su.draw(st.draws), m);
      var next := RewrapOne(su, st, pending[0], m);
      ApplyRewrapEmpties(su, next, pending[1..], rewrote + Hits(su, st, pending[0]), column);
    }
  }

  lemma SnapshotQueues(su: Setup, st: Store, column: string)
    requires Fit(su)
    ensures Queued(su, st, column, Snapshot(su, st, column))
  {
    var keys, pending := StaleKeys(su, st.rows, column), Snapshot(su, st, column);
    assert Enumerates(su.scan(keys), keys);
    forall k | k in keys ensures StaleRow(k, st.rows[k]) in pending {
      assert k in su.scan(keys);
      var i :| 0 <= i < |su.scan(keys)| && su.scan(keys)[i] == k;
      assert pending[i] == StaleRow(k, st.rows[k]);
    }
  }

  /** A column once free of stale values stays free: saves and swaps write fresh ones. */
  lemma {:induction false} ApplyRewrapStaysFree(su: Setup, st: Store, pending: seq<StaleRow>, rewrote: nat, column: string)
    requires Lawful(su.cipher) && NoneStale(su, st, column)
    ensures NoneStale(su, ApplyRewrap(su, st, pending, rewrote).store, column)
    decreases |pending|
  {
    if pending != [] {
      var m := su.cipher.decrypt(pending[0].stored);
      if m.Some? {
        ArriveStaysFree(su, st, column);
        var next := RewrapOne(su, st, pending[0], m.value);
        ApplyRewrapStaysFree(su, next, pending[1..], rewrote + Hits(su, st, pending[0]), column);
      }
    }
  }

  lemma ArriveStaysFree(su: Setup, st: Store, column: string)
    requires Lawful(su.cipher) && NoneStale(su, st, column)
    ensures NoneStale(su, Arrive(su, st), column)
  {
    assert Queued(su, st, column, []);
    ArriveStaysQueued(su, st, column, []);
  }

  lemma {:induction false} SweepStaysFree(su: Setup, st: Store, columns: seq<string>, total: nat, column: string)
    requires Lawful(su.cipher) && NoneStale(su, st, column)
    ensures NoneStale(su, RewrapColumns(su, st, columns, total).store, column)
    decreases |columns|
  {
    if columns != [] {
      ArriveStaysFree(su, st, column);
      var now := Arrive(su, st);
      ApplyRewrapStaysFree(su, now, Snapshot(su, now, columns[0]), 0, column);
      var s := RewrapColumn(su, st, columns[0]);
      if s.ok { SweepStaysFree(su, s.store, columns[1..], total + s.count, column); }
    }
  }

  lemma ColumnEmpties(su: Setup, st: Store, column: string)
    requires Fit(su) && RewrapColumn(su, st, column).ok
    ensures NoneStale(su, RewrapColumn(su, st, column).store, column)
  {
    var now := Arrive(su, st);
    SnapshotQueues(su, now, column);
    ApplyRewrapEmpties(su, now, Snapshot(su, now, column), 0, column);
  }

  /** A sweep that ends without an error leaves no stale value in any listed column,
      whatever was saved meanwhile. */
  lemma {:induction false} SweepEmptiesColumns(su: Setup, st: Store, columns: seq<string>, total: nat, column: string)
    requires Fit(su) && column in columns && RewrapColumns(su, st, columns, total).ok
    ensures NoneStale(su, RewrapColumns(su, st, columns, total).store, column)
    decreases |columns|
  {
    var s := RewrapColumn(su, st, columns[0]);
    if column == columns[0] {
      ColumnEmpties(su, st, column);
      SweepStaysFree(su, s.store, columns[1..], total + s.count, column);
    } else {
      SweepEmptiesColumns(su, s.store, columns[1..], total + s.count, column);
    }
  }

  // ---- It always ends when the ring can read everything ----

  ghost predicate AllOpen(su: Setup, pending: seq<StaleRow>) {
    forall r :: r in pending ==> su.cipher.decrypt(r.stored).Some?
  }

  lemma AllOpenTail(su: Setup, pending: seq<StaleRow>)
    requires pending != [] && su.cipher.decrypt(pending[0].stored).Some?
    ensures AllOpen(su, pending) <==> AllOpen(su, pending[1..])
  {
    assert pending == [pending[0]] + pending[1..];
  }

  lemma {:induction false} ApplyRewrapEnds(su: Setup, st: Store, pending: seq<StaleRow>, rewrote: nat)
    ensures ApplyRewrap(su, st, pending, rewrote).ok <==> AllOpen(su, pending)
    decreases |pending|
  {
    if pending != [] {
      var m := su.cipher.decrypt(pending[0].stored);
      if m.Some? {
        AllOpenTail(su, pending);
        ApplyRewrapEnds(su, RewrapOne(su, st, pending[0], m.value), pending[1..], rewrote + Hits(su, st, pending[0]));
      } else {
        assert pending[0] in pending;
      }
    }
  }

  lemma {:induction false} SavesReplaceNothing(su: Setup, st: Store, saves: seq<Save>)
    ensures ApplySaves(su, st, saves).replaced == st.replaced
    decreases |saves|
  {
    if saves != [] { SavesReplaceNothing(su, ApplySave(su, st, saves[0]), saves[1..]); }
  }

  lemma SavesKeepReplaced(su: Setup, st: Store)
    ensures Arrive(su, st).replaced == st.replaced
  {
    if st.schedule != [] { SavesReplaceNothing(su, st.(schedule := st.schedule[1..]), st.schedule[0]); }
  }

  /** Every row can be read under the ring. */
  ghost predicate Readable(st: Store) {
    forall k :: k in st.saved ==> st.saved[k].Some?
  }

  lemma {:induction false} SavesStayReadable(su: Setup, st: Store, saves: seq<Save>)
    requires Readable(st)
    ensures Readable(ApplySaves(su, st, saves))
    decreases |saves|
  {
    if saves != [] { SavesStayReadable(su, ApplySave(su, st, saves[0]), saves[1..]); }
  }

  lemma ArriveStaysReadable(su: Setup, st: Store)
    requires Readable(st)
    ensures Readable(Arrive(su, st))
  {
    if st.schedule != [] { SavesStayReadable(su, st.(schedule := st.schedule[1..]), st.schedule[0]); }
  }

  lemma {:induction false} ApplyRewrapStaysReadable(su: Setup, st: Store, pending: seq<StaleRow>, rewrote: nat)
    requires Readable(st)
    ensures Readable(ApplyRewrap(su, st, pending, rewrote).store)
    decreases |pending|
  {
    if pending != [] {
      var m := su.cipher.decrypt(pending[0].stored);
      if m.Some? {
        ArriveStaysReadable(su, st);
        var next := RewrapOne(su, st, pending[0], m.value);
        ApplyRewrapStaysReadable(su, next, pending[1..], rewrote + Hits(su, st, pending[0]));
      }
    }
  }

  lemma SnapshotOpens(su: Setup, st: Store, column: string)
    requires Fit(su) && Faithful(su, st) && Readable(st)
    ensures AllOpen(su, Snapshot(su, st, column))
  {
    var keys := StaleKeys(su, st.rows, column);
    var pending, order := Snapshot(su, st, column), su.scan(keys);
    assert Enumerates(order, keys);
    forall r | r in pending ensures su.cipher.decrypt(r.stored).Some? {
      var i :| 0 <= i < |pending| && pending[i] == r;
      assert order[i] in keys;
    }
  }

  lemma ColumnEnds(su: Setup, st: Store, column: string)
    requires Fit(su) && Faithful(su, st) && Readable(st)
    ensures var s := RewrapColumn(su, st, column);
            s.ok && Faithful(su, s.store) && Readable(s.store)
  {
    var now := Arrive(su, st);
    ArriveFaithful(su, st);
    ArriveStaysReadable(su, st);
    SnapshotOpens(su, now, column);
    var pending := Snapshot(su, now, column);
    ApplyRewrapEnds(su, now, pending, 0);
    ApplyRewrapFaithful(su, now, pending, 0);
    ApplyRewrapStaysReadable(su, now, pending, 0);
  }

  /** When the ring can read every row, no interleaving makes the sweep fail. */
  lemma {:induction false} SweepEnds(su: Setup, st: Store, columns: seq<string>, total: nat)
    requires Fit(su) && Faithful(su, st) && Readable(st)
    ensures RewrapColumns(su, st, columns, total).ok
    decreases |columns|
  {
    if columns != [] {
      ColumnEnds(su, st, columns[0]);
      var s := RewrapColumn(su, st, columns[0]);
      SweepEnds(su, s.store, columns[1..], total + s.count);
    }
  }

  // ---- The count it reports ----

  lemma RewrapOneCounts(su: Setup, st: Store, r: StaleRow, m: Bytes)
    ensures var next := RewrapOne(su, st, r, m);
            st.replaced <= next.replaced && |next.replaced| == |st.replaced| + Hits(su, st, r)
  {
    SavesKeepReplaced(su, st);
  }

  /** A finished column counts exactly the rows it replaced; a column that stops on a value
      it cannot decrypt counts none of them. */
  lemma {:induction false} ApplyRewrapCounts(su: Setup, st: Store, pending: seq<StaleRow>, rewrote: nat)
    ensures var s := ApplyRewrap(su, st, pending, rewrote);
            && |st.replaced| <= |s.store.replaced| && (|st.replaced| == |s.store.replaced| ==> s.store.replaced == st.replaced)
            && s.count == if s.ok then rewrote + |s.store.replaced| - |st.replaced| else 0
    decreases |pending|
  {
    if pending != [] {
      var m := su.cipher.decrypt(pending[0].stored);
      if m.Some? {
        var next := RewrapOne(su, st, pending[0], m.value);
        RewrapOneCounts(su, st, pending[0], m.value);
        ApplyRewrapCounts(su, next, pending[1..], rewrote + Hits(su, st, pending[0]));
      }
    }
  }

  // ---- When the count is right, from the store and the saves alone ----

  /** The store after n further statements' worth of saves, with no sweep. */
  function ArriveTimes(su: Setup, st: Store, n: nat): Store
    decreases n
  {
    if n == 0 then st else ArriveTimes(su, Arrive(su, st), n - 1)
  }

  /** The k-th queued row and all before it can be read, and nobody has saved it when its
      turn comes. */
  ghost predicate HitAt(su: Setup, st: Store, pending: seq<StaleRow>, k: nat) {
    && k < |pending| && AllOpen(su, pending[..k + 1])
    && Lookup(ArriveTimes(su, st, k + 1).rows, pending[k].row) == Some(pending[k].stored)
  }

  ghost predicate SomeHit(su: Setup, st: Store, pending: seq<StaleRow>) {
    exists k: nat :: HitAt(su, st, pending, k)
  }

  lemma HitAtTail(su: Setup, st: Store, pending: seq<StaleRow>, k: nat)
    requires pending != [] && su.cipher.decrypt(pending[0].stored).Some?
    ensures HitAt(su, st, pending, k + 1) <==> HitAt(su, Arrive(su, st), pending[1..], k)
  {
    if k + 1 < |pending| {
      assert pending[..k + 2][1..] == pending[1..][..k + 1];
      AllOpenTail(su, pending[..k + 2]);
    }
  }

  lemma SomeHitTail(su: Setup, st: Store, pending: seq<StaleRow>)
    requires pending != []
    ensures SomeHit(su, st, pending) <==>
            su.cipher.decrypt(pending[0].stored).Some? && (Hits(su, st, pending[0]) == 1 || SomeHit(su, Arrive(su, st), pending[1..]))
  {
    assert pending[..1] == [pending[0]];
    assert ArriveTimes(su, st, 1) == Arrive(su, st);
    if SomeHit(su, st, pending) {
      var k: nat :| HitAt(su, st, pending, k);
      assert pending[..k + 1][0] == pending[0];
      if k > 0 { HitAtTail(su, st, pending, k - 1); }
    }
    if su.cipher.decrypt(pending[0].stored).Some? {
      assert Hits(su, st, pending[0]) == 1 ==> HitAt(su, st, pending, 0);
      if SomeHit(su, Arrive(su, st), pending[1..]) {
        var k: nat :| HitAt(su, Arrive(su, st), pending[1..], k);
        HitAtTail(su, st, pending, k);
      }
    }
  }

  /** Two stores with the same saves to come, alike at one row. */
  ghost predicate AlikeAt(a: Store, b: Store, k: RowKey) {
    a.schedule == b.schedule && Lookup(a.rows, k) == Lookup(b.rows, k)
  }

  lemma {:induction false} SavesStayAlike(su: Setup, a: Store, b: Store, saves: seq<Save>, k: RowKey)
    requires AlikeAt(a, b, k)
    ensures AlikeAt(ApplySaves(su, a, saves), ApplySaves(su, b, saves), k)
    decreases |saves|
  {
    if saves != [] { SavesStayAlike(su, ApplySave(su, a, saves[0]), ApplySave(su, b, saves[0]), saves[1..], k); }
  }

  lemma ArriveStaysAlike(su: Setup, a: Store, b: Store, k: RowKey)
    requires AlikeAt(a, b, k)
    ensures AlikeAt(Arrive(su, a), Arrive(su, b), k)
  {
    if a.schedule != [] {
      SavesStayAlike(su, a.(schedule := a.schedule[1..]), b.(schedule := b.schedule[1..]), a.schedule[0], k);
    }
  }

  ghost predicate DistinctRows(pending: seq<StaleRow>) {
    forall i, j :: 0 <= i < j < |pending| ==> pending[i].row != pending[j].row
  }

  ghost predicate AlikeOn(a: Store, b: Store, pending: seq<StaleRow>) {
    forall i :: 0 <= i < |pending| ==> AlikeAt(a, b, pending[i].row)
  }

  /** A swap touches one row, so the rows still queued only depend on the saves. */
  lemma SwapStaysAlike(su: Setup, a: Store, b: Store, pending: seq<StaleRow>, m: Bytes)
    requires pending != [] && DistinctRows(pending) && AlikeOn(a, b, pending)
    ensures DistinctRows(pending[1..]) && AlikeOn(RewrapOne(su, a, pending[0], m), Arrive(su, b), pending[1..])
    ensures Hits(su, a, pending[0]) == Hits(su, b, pending[0])
  {
    ArriveStaysAlike(su, a, b, pending[0].row);
    forall i | 0 <= i < |pending[1..]| ensures AlikeAt(RewrapOne(su, a, pending[0], m), Arrive(su, b), pending[1..][i].row) {
      assert pending[1..][i] == pending[i + 1];
      ArriveStaysAlike(su, a, b, pending[i + 1].row);
    }
  }

  lemma {:induction false} ReplacesIff(su: Setup, st: Store, base: Store, pending: seq<StaleRow>, rewrote: nat)
    requires DistinctRows(pending) && AlikeOn(st, base, pending)
    ensures |ApplyRewrap(su, st, pending, rewrote).store.replaced| > |st.replaced| <==> SomeHit(su, base, pending)
    decreases |pending|
  {
    if pending != [] {
      var m := su.cipher.decrypt(pending[0].stored);
      SomeHitTail(su, base, pending);
      if m.Some? {
        SwapStaysAlike(su, st, base, pending, m.value);
        RewrapOneCounts(su, st, pending[0], m.value);
        var next := RewrapOne(su, st, pending[0], m.value);
        ReplacesIff(su, next, Arrive(su, base), pending[1..], rewrote + Hits(su, st, pending[0]));
        ApplyRewrapCounts(su, next, pending[1..], rewrote + Hits(su, st, pending[0]));
      }
    }
  }

  lemma SnapshotDistinct(su: Setup, st: Store, column: string)
    requires Fit(su)
    ensures DistinctRows(Snapshot(su, st, column))
  {
    var keys := StaleKeys(su, st.rows, column);
    assert Enumerates(su.scan(keys), keys);
  }

  /** A column's count is the number of rows it replaced if and only if every queued value
      can be read, or every row queued before the first unreadable one is saved by a user
      before its turn. */
  lemma ColumnCountIff(su: Setup, st: Store, column: string)
    requires Fit(su)
    ensures var s, now := RewrapColumn(su, st, column), Arrive(su, st);
            var pending := Snapshot(su, now, column);
            && |st.replaced| <= |s.store.replaced|
            && (s.count == |s.store.replaced| - |st.replaced| <==> AllOpen(su, pending) || !SomeHit(su, now, pending))
  {
    var now := Arrive(su, st);
    var pending := Snapshot(su, now, column);
    SavesKeepReplaced(su, st);
    ApplyRewrapCounts(su, now, pending, 0);
    ApplyRewrapEnds(su, now, pending, 0);
    SnapshotDistinct(su, now, column);
    ReplacesIff(su, now, now, pending, 0);
  }

  lemma SnapshotHolds(su: Setup, st: Store, column: string, k: nat)
    requires Fit(su) && k < |Snapshot(su, st, column)|
    ensures var r := Snapshot(su, st, column)[k];
            Lookup(st.rows, r.row) == Some(r.stored) && r.row.column == column && IsStale(su, r.stored)
  {
    var keys := StaleKeys(su, st.rows, column);
    assert Enumerates(su.scan(keys), keys);
    assert su.scan(keys)[k] in keys;
  }

  lemma QuietHitIff(su: Setup, st: Store, column: string)
    requires Fit(su) && st.schedule == []
    ensures var pending := Snapshot(su, st, column);
            SomeHit(su, st, pending) <==> pending != [] && su.cipher.decrypt(pending[0].stored).Some?
  {
    var pending := Snapshot(su, st, column);
    if pending != [] {
      SomeHitTail(su, st, pending);
      SnapshotHolds(su, st, column, 0);
    }
  }

  /** While nobody saves, the count is wrong exactly when some stale value of the column
      cannot be read and the first one scanned can. */
  lemma QuietCountIff(su: Setup, st: Store, column: string)
    requires Fit(su) && st.schedule == []
    ensures var s, pending := RewrapColumn(su, st, column), Snapshot(su, st, column);
            s.count == |s.store.replaced| - |st.replaced| <==>
            AllOpen(su, pending) || pending == [] || su.cipher.decrypt(pending[0].stored).None?
  {
    ColumnCountIff(su, st, column);
    QuietHitIff(su, st, column);
  }

  lemma ColumnCounts(su: Setup, st: Store, column: string)
    ensures var s := RewrapColumn(su, st, column);
            |st.replaced| <= |s.store.replaced| && (s.ok ==> s.count == |s.store.replaced| - |st.replaced|)
  {
    var now := Arrive(su, st);
    SavesKeepReplaced(su, st);
    ApplyRewrapCounts(su, now, Snapshot(su, now, column), 0);
  }

  /** A finished sweep reports exactly the rows it replaced; a failed one never more. */
  lemma {:induction false} SweepCounts(su: Setup, st: Store, columns: seq<string>, total: nat)
    ensures var s := RewrapColumns(su, st, columns, total);
            && (s.ok ==> s.count == total + |s.store.replaced| - |st.replaced|)
            && s.count <= total + |s.store.replaced| - |st.replaced|
    decreases |columns|
  {
    if columns != [] {
      ColumnCounts(su, st, columns[0]);
      var s := RewrapColumn(su, st, columns[0]);
      if s.ok { SweepCounts(su, s.store, columns[1..], total + s.count); }
    }
  }

  /** The store when column n of the sweep begins, if it gets that far. */
  function ColumnStart(su: Setup, st: Store, columns: seq<string>, n: nat): Store
    requires n <= |columns|
    decreases n
  {
    if n == 0 then st else ColumnStart(su, RewrapColumn(su, st, columns[0]).store, columns[1..], n - 1)
  }

  /** A sweep that stops reports exactly what it had replaced before the column it stopped at. */
  lemma {:induction false} StoppedSweepCounts(su: Setup, st: Store, columns: seq<string>, total: nat) returns (n: nat)
    requires !RewrapColumns(su, st, columns, total).ok
    ensures n < |columns| && !RewrapColumn(su, ColumnStart(su, st, columns, n), columns[n]).ok
    ensures RewrapColumns(su, st, columns, total).count == total + |ColumnStart(su, st, columns, n).replaced| - |st.replaced|
    decreases |columns|
  {
    var s := RewrapColumn(su, st, columns[0]);
    if s.ok {
      ColumnCounts(su, st, columns[0]);
      var m := StoppedSweepCounts(su, s.store, columns[1..], total + s.count);
      n := m + 1;
      assert columns[1..][m] == columns[n];
    } else {
      n := 0;
    }
  }

  /** Two stale values of one column, of which the ring can read only the first. */
  function HalfReadable(row: RowKey, other: RowKey, good: Bytes, bad: Bytes, m: Bytes): Store {
    Store(map[row := good, other := bad], map[row := Some(m), other := None], [], [], 0)
  }

  lemma HalfReadableQueue(su: Setup, row: RowKey, other: RowKey, good: Bytes, bad: Bytes, m: Bytes)
    requires row != other && row.column == other.column && IsStale(su, good) && IsStale(su, bad) && su.scan({row, other}) == [row, other]
    ensures Snapshot(su, HalfReadable(row, other, good, bad, m), row.column) == [StaleRow(row, good), StaleRow(other, bad)]
  {
    var st := HalfReadable(row, other, good, bad, m);
    assert StaleKeys(su, st.rows, row.column) == {row, other};
  }

  /** The sweep of that column replaces the first row, and reports 0. */
  lemma UncountedReplacement(su: Setup, row: RowKey, other: RowKey, good: Bytes, bad: Bytes, m: Bytes)
    requires row != other && row.column == other.column && IsStale(su, good) && IsStale(su, bad) && su.scan({row, other}) == [row, other]
    requires su.cipher.decrypt(good) == Some(m) && su.cipher.decrypt(bad).None?
    ensures var st := HalfReadable(row, other, good, bad, m);
            var s := RewrapColumn(su, st, row.column);
            Faithful(su, st) && !s.ok && s.count == 0 && s.store.replaced == [row]
  {
    var st := HalfReadable(row, other, good, bad, m);
    HalfReadableQueue(su, row, other, good, bad, m);
    var pending := Snapshot(su, st, row.column);
    assert pending[1..] == [StaleRow(other, bad)];
    var next := RewrapOne(su, st, pending[0], m);
    assert next.replaced == [row];
    assert ApplyRewrap(su, next, pending[1..], 1) == Sweep(next, 0, false);
  }

  // ---- A second sweep, and retiring the old keys ----

  lemma SomeMember(order: seq<RowKey>) returns (k: RowKey)
    requires order != []
    ensures k in order
  {
    k := order[0];
  }

  lemma FreeSnapshotEmpty(su: Setup, st: Store, column: string)
    requires Fit(su) && NoneStale(su, st, column)
    ensures Snapshot(su, st, column) == []
  {
    var keys := StaleKeys(su, st.rows, column);
    assert keys == {};
    var order := su.scan(keys);
    assert Enumerates(order, keys);
    if order != [] { var k := SomeMember(order); }
  }

  /** Once the columns are free of stale values, a sweep replaces nothing and reports 0,
      even while users save. */
  lemma {:induction false} RerunFindsNothing(su: Setup, st: Store, columns: seq<string>, total: nat)
    requires Fit(su) && forall column :: column in columns ==> NoneStale(su, st, column)
    ensures var s := RewrapColumns(su, st, columns, total);
            s.ok && s.count == total && s.store.replaced == st.replaced
    decreases |columns|
  {
    if columns != [] {
      var now := Arrive(su, st);
      SavesKeepReplaced(su, st);
      forall column | column in columns ensures NoneStale(su, now, column) {
        ArriveStaysFree(su, st, column);
      }
      FreeSnapshotEmpty(su, now, columns[0]);
      assert RewrapColumn(su, st, columns[0]) == Sweep(now, 0, true);
      RerunFindsNothing(su, now, columns[1..], total);
    }
  }

  /** Rotation is safe: after one sweep, and with nothing stale outside the swept columns,
      each row still says what was last saved, and goes on saying it with the previous keys
      destroyed; a second sweep reports 0. */
  lemma RotationIsSafe(c: Crypto, r: Ring, su: Setup, st: Store, columns: seq<string>)
    requires Ideal(c) && Valid(c, r) && su.cipher == RingCipher(c, r) && Fit(su) && Faithful(su, st) && Readable(st)
    requires forall k :: k in RewrapColumns(su, st, columns, 0).store.rows && k.column !in columns ==>
                           !IsStale(su, RewrapColumns(su, st, columns, 0).store.rows[k])
    ensures var s := RewrapColumns(su, st, columns, 0);
            && s.ok && s.count == |s.store.replaced| - |st.replaced|
            && (forall k :: k in s.store.rows ==>
                  && k in s.store.saved
                  && Decrypt(c, OnlyPrimary(r), s.store.rows[k]) == s.store.saved[k])
            && RewrapColumns(su, s.store, columns, 0).ok && RewrapColumns(su, s.store, columns, 0).count == 0
  {
    var s := RewrapColumns(su, st, columns, 0);
    SweepEnds(su, st, columns, 0);
    SweepCounts(su, st, columns, 0);
    SweepFaithful(su, st, columns, 0);
    forall column | column in columns ensures NoneStale(su, s.store, column) {
      SweepEmptiesColumns(su, st, columns, 0, column);
    }
    RerunFindsNothing(su, s.store, columns, 0);
    RetireAfterSweep(c, r, su, s.store);
  }

  /** The audit's conclusion: no stale value anywhere, so the previous keys are not needed. */
  lemma RetireAfterSweep(c: Crypto, r: Ring, su: Setup, st: Store)
    requires Ideal(c) && Valid(c, r) && su.cipher == RingCipher(c, r)
    requires Faithful(su, st) && forall k :: k in st.rows ==> !Stale(r.primary.id, st.rows[k])
    ensures forall k :: k in st.rows ==> Decrypt(c, OnlyPrimary(r), st.rows[k]) == st.saved[k]
  {
    assert r.order[0] == r.primary;
    forall k | k in st.rows ensures Decrypt(c, OnlyPrimary(r), st.rows[k]) == st.saved[k] {
      RetirementIff(c, r, st.rows[k]);
      assert su.cipher.decrypt(st.rows[k]) == st.saved[k];
    }
  }

  // ---- The laws assumed of keys, nonces and scans can be met ----

  ghost function AnyOrder(keys: set<RowKey>): (order: seq<RowKey>)
    ensures Enumerates(order, keys)
    decreases |keys|
  {
    if keys == {} then []
    else
      var k :| k in keys;
      var rest := AnyOrder(keys - {k});
      assert k !in rest;
      [k] + rest
  }

  lemma SetupExists(c: Crypto, r: Ring) returns (su: Setup)
    requires Ideal(c) && Valid(c, r)
    ensures Fit(su) && su.cipher == RingCipher(c, r)
  {
    RingCipherLawful(c, r);
    su := Setup(RingCipher(c, r), i => seq(NONCE_SIZE, j => 0), keys => AnyOrder(keys));
  }

  // ---- As it runs ----

  // ---- Rows a sweep has no business with ----

  ghost predicate NeverSaved(schedule: seq<seq<Save>>, k: RowKey) {
    forall i, j :: 0 <= i < |schedule| && 0 <= j < |schedule[i]| ==> schedule[i][j].row != k
  }

  /** The row is as it was, and the saves to come still leave it alone. */
  ghost predicate RowStays(st: Store, st': Store, k: RowKey) {
    && Lookup(st'.rows, k) == Lookup(st.rows, k) && NeverSaved(st'.schedule, k)
    && st.replaced <= st'.replaced && k !in st'.replaced[|st.replaced|..]
  }

  lemma {:induction false} SavesElsewhere(su: Setup, st: Store, saves: seq<Save>, k: RowKey)
    requires forall j :: 0 <= j < |saves| ==> saves[j].row != k
    ensures var st' := ApplySaves(su, st, saves);
            Lookup(st'.rows, k) == Lookup(st.rows, k) && st'.schedule == st.schedule && st'.replaced == st.replaced
    decreases |saves|
  {
    if saves != [] { SavesElsewhere(su, ApplySave(su, st, saves[0]), saves[1..], k); }
  }

  lemma ArriveStays(su: Setup, st: Store, k: RowKey)
    requires NeverSaved(st.schedule, k)
    ensures RowStays(st, Arrive(su, st), k) && Arrive(su, st).replaced == st.replaced
  {
    if st.schedule != [] {
      assert forall j :: 0 <= j < |st.schedule[0]| ==> st.schedule[0][j].row != k;
      SavesElsewhere(su, st.(schedule := st.schedule[1..]), st.schedule[0], k);
    }
  }

  lemma StaysTransitive(a: Store, b: Store, c: Store, k: RowKey)
    requires RowStays(a, b, k) && RowStays(b, c, k)
    ensures RowStays(a, c, k)
  {
    assert c.replaced[|a.replaced|..] == b.replaced[|a.replaced|..] + c.replaced[|b.replaced|..];
  }

  lemma RewrapOneStays(su: Setup, st: Store, r: StaleRow, m: Bytes, k: RowKey)
    requires NeverSaved(st.schedule, k) && r.row != k
    ensures RowStays(st, RewrapOne(su, st, r, m), k)
  {
    ArriveStays(su, st, k);
  }

  lemma {:induction false} ApplyRewrapStays(su: Setup, st: Store, pending: seq<StaleRow>, rewrote: nat, k: RowKey)
    requires NeverSaved(st.schedule, k) && forall i :: 0 <= i < |pending| ==> pending[i].row != k
    ensures RowStays(st, ApplyRewrap(su, st, pending, rewrote).store, k)
    decreases |pending|
  {
    if pending != [] {
      var m := su.cipher.decrypt(pending[0].stored);
      if m.Some? {
        RewrapOneStays(su, st, pending[0], m.value, k);
        var next := RewrapOne(su, st, pending[0], m.value);
        ApplyRewrapStays(su, next, pending[1..], rewrote + Hits(su, st, pending[0]), k);
        StaysTransitive(st, next, ApplyRewrap(su, st, pending, rewrote).store, k);
      }
    }
  }

  lemma NotQueued(su: Setup, st: Store, column: string, k: RowKey)
    requires Fit(su) && (k in st.rows ==> !IsStale(su, st.rows[k]))
    ensures forall i :: 0 <= i < |Snapshot(su, st, column)| ==> Snapshot(su, st, column)[i].row != k
  {
    var keys := StaleKeys(su, st.rows, column);
    assert Enumerates(su.scan(keys), keys);
    forall i | 0 <= i < |Snapshot(su, st, column)| ensures Snapshot(su, st, column)[i].row != k {
      assert su.scan(keys)[i] in keys;
    }
  }

  /** A row that is not stale, and that nobody saves, comes out of a sweep as it went in and
      is never replaced, whatever is saved elsewhere. */
  lemma {:induction false} FreshRowStays(su: Setup, st: Store, columns: seq<string>, total: nat, k: RowKey)
    requires Fit(su) && NeverSaved(st.schedule, k) && (k in st.rows ==> !IsStale(su, st.rows[k]))
    ensures RowStays(st, RewrapColumns(su, st, columns, total).store, k)
    decreases |columns|
  {
    if columns != [] {
      var now := Arrive(su, st);
      ArriveStays(su, st, k);
      NotQueued(su, now, columns[0], k);
      ApplyRewrapStays(su, now, Snapshot(su, now, columns[0]), 0, k);
      var s := RewrapColumn(su, st, columns[0]);
      StaysTransitive(st, now, s.store, k);
      if s.ok {
        FreshRowStays(su, s.store, columns[1..], total + s.count, k);
        StaysTransitive(st, s.store, RewrapColumns(su, st, columns, total).store, k);
      }
    }
  }

  /** In particular a value stored before encryption was on: it is not queued, not changed,
      and reads as itself before and after. */
  lemma PlainRowStays(c: Crypto, r: Ring, su: Setup, st: Store, columns: seq<string>, k: RowKey)
    requires Ideal(c) && Valid(c, r) && su.cipher == RingCipher(c, r) && Fit(su)
    requires k in st.rows && !([101, 110, 99, 58] <= st.rows[k]) && NeverSaved(st.schedule, k)
    ensures var s := RewrapColumns(su, st, columns, 0).store;
            && k in s.rows && s.rows[k] == st.rows[k] && RowStays(st, s, k)
            && Decrypt(c, r, s.rows[k]) == Some(st.rows[k])
    ensures forall column, i :: 0 <= i < |Snapshot(su, st, column)| ==> Snapshot(su, st, column)[i].row != k
  {
    FreshRowStays(su, st, columns, 0, k);
    DecryptsPlain(c, r, st.rows[k]);
    forall column ensures forall i :: 0 <= i < |Snapshot(su, st, column)| ==> Snapshot(su, st, column)[i].row != k {
      NotQueued(su, st, column, k);
    }
  }

  ghost predicate Reported(stale: seq<(string, nat)>, column: string) {
    exists i :: 0 <= i < |stale| && stale[i].0 == column
  }

  lemma ReportedAppend(stale: seq<(string, nat)>, column: string, n: nat)
    ensures forall c :: Reported(stale + [(column, n)], c) <==> c == column || Reported(stale, c)
  {
    var more := stale + [(column, n)];
    assert more[|stale|].0 == column;
    forall c | Reported(stale, c) ensures Reported(more, c) {
      var i :| 0 <= i < |stale| && stale[i].0 == c;
      assert more[i].0 == c;
    }
    forall c | Reported(more, c) ensures c == column || Reported(stale, c) {
      var i :| 0 <= i < |more| && more[i].0 == c;
      if i < |stale| { assert stale[i].0 == c; }
    }
  }

  class Sweeper {
    const su: Setup
    var rows: map<RowKey, Bytes>
    var schedule: seq<seq<Save>>
    var draws: nat
    ghost var saved: map<RowKey, Option<Bytes>>
    ghost var replaced: seq<RowKey>

    ghost function State(): Store
      reads this
    {
      Store(rows, saved, schedule, replaced, draws)
    }

    constructor (setup: Setup, st: Store)
      ensures su == setup && State() == st
    {
      su, rows, schedule, draws, saved, replaced := setup, st.rows, st.schedule, st.draws, st.saved, st.replaced;
    }

    /** The saves other replicas serve before the next statement. */
    method Interfere()
      modifies this`rows, this`schedule, this`saved
      ensures State() == Arrive(su, old(State()))
    {
      if schedule == [] { return; }
      var saves := schedule[0];
      schedule := schedule[1..];
      ghost var start := State();
      for i := 0 to |saves|
        invariant ApplySaves(su, State(), saves[i..]) == ApplySaves(su, start, saves)
      {
        var s := saves[i];
        assert saves[i..][0] == s && saves[i..][1..] == saves[i + 1..];
        match s.plaintext {
          case None =>
            rows, saved := rows - {s.row}, saved - {s.row};
          case Some(m) =>
            rows, saved := rows[s.row := su.cipher.encrypt(s.nonce, m)], saved[s.row := Some(m)];
        }
      }
    }

    method SelectStaleRows(column: string) returns (pending: seq<StaleRow>)
      modifies this`rows, this`schedule, this`saved
      ensures State() == Arrive(su, old(State())) && pending == Snapshot(su, State(), column)
    {
      Interfere();
      var order := su.scan(StaleKeys(su, rows, column));
      pending := [];
      for i := 0 to |order|
        invariant pending == Snapshot(su, State(), column)[..i]
      {
        pending := pending + [StaleRow(order[i], if order[i] in rows then rows[order[i]] else [])];
      }
    }

    /** One queued row; false when it does not decrypt. */
    method RewrapRow(r: StaleRow) returns (hits: nat, ok: bool)
      modifies this`rows, this`schedule, this`saved, this`replaced, this`draws
      ensures var m := su.cipher.decrypt(r.stored);
              && ok == m.Some?
              && (if ok then State() == RewrapOne(su, old(State()), r, m.value) && hits == Hits(su, old(State()), r)
                  else State() == old(State()))
    {
      var plaintext := su.cipher.decrypt(r.stored);
      if plaintext.None? { return 0, false; }
      var rewrapped := su.cipher.encrypt(su.draw(draws), plaintext.value);
      Interfere();
      hits, ok := 0, true;
      if r.row in rows && rows[r.row] == r.stored {
        rows := rows[r.row := rewrapped];
        replaced := replaced + [r.row];
        hits := 1;
      }
      draws := draws + 1;
    }

    method ApplyRewrapRows(pending: seq<StaleRow>) returns (rewrote: nat, ok: bool)
      modifies this`rows, this`schedule, this`saved, this`replaced, this`draws
      ensures Sweep(State(), rewrote, ok) == ApplyRewrap(su, old(State()), pending, 0)
    {
      rewrote := 0;
      for i := 0 to |pending|
        invariant ApplyRewrap(su, State(), pending[i..], rewrote) == ApplyRewrap(su, old(State()), pending, 0)
      {
        assert pending[i..][0] == pending[i] && pending[i..][1..] == pending[i + 1..];
        var hits, decrypted := RewrapRow(pending[i]);
        if !decrypted { return 0, false; }
        rewrote := rewrote + hits;
      }
      ok := true;
    }

    method RewrapOneColumn(column: string) returns (rewrote: nat, ok: bool)
      modifies this`rows, this`schedule, this`saved, this`replaced, this`draws
      ensures Sweep(State(), rewrote, ok) == RewrapColumn(su, old(State()), column)
    {
      var pending := SelectStaleRows(column);
      rewrote, ok := ApplyRewrapRows(pending);
    }

    method RewrapEncrypted(columns: seq<string>) returns (total: nat, ok: bool)
      modifies this`rows, this`schedule, this`saved, this`replaced, this`draws
      ensures Sweep(State(), total, ok) == RewrapColumns(su, old(State()), columns, 0)
    {
      total := 0;
      for i := 0 to |columns|
        invariant RewrapColumns(su, State(), columns[i..], total) == RewrapColumns(su, old(State()), columns, 0)
      {
        assert columns[i..][0] == columns[i] && columns[i..][1..] == columns[i + 1..];
        var n, done := RewrapOneColumn(columns[i]);
        if !done { return total, false; }
        total := total + n;
      }
      ok := true;
    }

    /** AuditStaleCiphertext: the columns still holding stale values, with how many. */
    method Audit(columns: seq<string>) returns (stale: seq<(string, nat)>)
      ensures forall column :: column in columns && !NoneStale(su, State(), column) ==> Reported(stale, column)
      ensures forall e :: e in stale ==> e.0 in columns && e.1 == |StaleKeys(su, rows, e.0)| && e.1 > 0
      ensures forall column :: Reported(stale, column) ==> !NoneStale(su, State(), column)
    {
      stale := [];
      for i := 0 to |columns|
        invariant forall column :: column in columns[..i] && !NoneStale(su, State(), column) ==> Reported(stale, column)
        invariant forall e :: e in stale ==> e.0 in columns && e.1 == |StaleKeys(su, rows, e.0)| && e.1 > 0
        invariant forall column :: Reported(stale, column) ==> !NoneStale(su, State(), column)
      {
        var keys := StaleKeys(su, rows, columns[i]);
        assert columns[..i + 1] == columns[..i] + [columns[i]];
        assert keys == {} <==> NoneStale(su, State(), columns[i]) by {
          if keys == {} {
            forall k | k in rows && k.column == columns[i] ensures !IsStale(su, rows[k]) { assert k !in keys; }
          }
        }
        if keys != {} {
          ghost var before := stale;
          stale := stale + [(columns[i], |keys|)];
          ReportedAppend(before, columns[i], |keys|);
        }
      }
      assert columns[..|columns|] == columns;
    }
  }
}
