/** Re-encryption of the IAM keys on etcd (migrateIAMConfigsEtcdToEncrypted),
    which may stop at any point and be run again. */
module EtcdEncryption {
  import opened Base

  const META_BUCKET := ".minio.sys"
  const BACKEND_ENCRYPTED_FILE := "backend-encrypted"

  // path.Join(minioMetaBucket, key) for the clean keys etcd lists here.
  function Joined(key: string): string { META_BUCKET + "/" + key }

  /** The cryptography, abstractly: UTF-8 validity, decryption with the active
      credentials, the parsing of a KMS ciphertext's header, and the KMS under
      a context. */
  datatype Crypto = Crypto(
    utf8: Bytes -> bool,
    credDec: Bytes -> Option<Bytes>,
    kmsFormat: Bytes -> bool,
    kmsDec: (string, Bytes) -> Option<Bytes>,
    kmsEnc: (string, Bytes, nat) -> Option<Bytes>)  // the nat is randomness
  {
    /** Decryption is authenticated (only what was produced for a key and
        context decrypts under it) and ciphertexts are never valid UTF-8. */
    ghost predicate Sound() {
      && (forall ctx, p, r :: kmsEnc(ctx, p, r).Some? ==>
            var c := kmsEnc(ctx, p, r).value;
            && !utf8(c) && credDec(c) == None && kmsDec(ctx, c) == Some(p))
      && (forall ctx, v :: kmsDec(ctx, v).Some? ==> kmsFormat(v))
    }

    /** Nothing decrypts to itself: a ciphertext is longer than what it
        encrypts. */
    ghost predicate NoFixedPoint() {
      && (forall v :: credDec(v) != Some(v))
      && (forall ctx, v :: kmsDec(ctx, v) != Some(v))
    }
  }

  type Store = map<string, Bytes>

  /** The plaintext a stored value stands for: itself if it is valid UTF-8,
      else what the first of the three decryptions gives. */
  function Plaintext(c: Crypto, key: string, v: Bytes): Option<Bytes> {
    if c.utf8(v) then Some(v)
    else if c.credDec(v).Some? then c.credDec(v)
    else if c.kmsDec(Joined(key), v).Some? then c.kmsDec(Joined(key), v)
    else c.kmsDec(key, v)
  }

  // Encrypted by the KMS under the joined-path context.
  predicate Migrated(c: Crypto, key: string, v: Bytes) {
    !c.utf8(v) && c.credDec(v).None? && c.kmsDec(Joined(key), v).Some?
  }

  // Every key stands for a plaintext, which without a KMS is valid UTF-8.
  ghost predicate Readable(c: Crypto, kms: bool, s: Store, keys: set<string>) {
    forall k :: k in keys && k in s ==>
      Plaintext(c, k, s[k]).Some? && (kms || c.utf8(Plaintext(c, k, s[k]).value))
  }

  // No listed key has changed its meaning, and nothing else has changed.
  ghost predicate SameMeaning(c: Crypto, keys: set<string>, before: Store, after: Store) {
    && before.Keys == after.Keys
    && forall k :: k in before ==>
         if k in keys then Plaintext(c, k, after[k]) == Plaintext(c, k, before[k]) else after[k] == before[k]
  }

  // Panics: the decryption of a KMS ciphertext calls a KMS that is not there.
  datatype Outcome = Completed | ErrDecrypt(key: string) | Panics(key: string) | ErrEncrypt(key: string) | Stopped

  // etcd, with the number of writes it will still take before the process
  // is cut off (or the server unreachable).
  class Etcd {
    var store: Store
    var budget: nat

    constructor (store: Store, budget: nat)
      ensures this.store == store && this.budget == budget
    {
      this.store, this.budget := store, budget;
    }

    method Save(key: string, v: Bytes) returns (ok: bool)
      modifies this
      ensures ok <==> old(budget) > 0
      ensures ok ==> store == old(store)[key := v] && budget == old(budget) - 1
      ensures !ok ==> store == old(store) && budget == old(budget)
    {
      if budget == 0 {
        return false;
      }
      store := store[key := v];
      budget := budget - 1;
      return true;
    }

    method Delete(key: string) returns (ok: bool)
      modifies this
      ensures ok <==> old(budget) > 0
      ensures budget == if ok then old(budget) - 1 else old(budget)
      ensures store == if ok then old(store) - {key} else old(store)
    {
      if budget == 0 {
        return false;
      }
      store := store - {key};
      budget := budget - 1;
      return true;
    }
  }

  // The value after this key's turn.
  predicate Done(c: Crypto, kms: bool, key: string, v: Bytes) {
    if kms then Migrated(c, key, v) else c.utf8(v)
  }

  // Without a KMS the decryption of this value calls one all the same.
  predicate CallsNoKms(c: Crypto, kms: bool, v: Bytes) {
    !kms && !c.utf8(v) && c.credDec(v).None? && c.kmsFormat(v)
  }

  // The KMS encrypts the plaintext this value stands for.
  predicate Encrypts(c: Crypto, key: string, v: Bytes, r: nat) {
    Plaintext(c, key, v).Some? && c.kmsEnc(Joined(key), Plaintext(c, key, v).value, r).Some?
  }

  // Nothing but the budget stands in the way: with a KMS, it encrypts the
  // plaintext of every listed key; without, no value calls for one.
  ghost predicate Migratable(c: Crypto, kms: bool, s: Store, keys: seq<string>) {
    forall k :: k in keys && k in s ==> MigratableAt(c, kms, k, s[k])
  }

  ghost predicate MigratableAt(c: Crypto, kms: bool, key: string, v: Bytes) {
    if kms then forall r :: Encrypts(c, key, v, r) else !CallsNoKms(c, kms, v)
  }

  datatype Decrypted = Plain(value: Bytes) | Fails | NoKms

  /** Decryption of one value: the credentials, then the KMS under either
      context.  Without a KMS only the credentials can help, and a value with
      a KMS header makes the code call through a nil interface. */
  method Decrypt(c: Crypto, kms: bool, key: string, data: Bytes) returns (r: Decrypted)
    requires c.Sound()
    ensures r.Plain? ==> Plaintext(c, key, data) == Some(r.value)
    ensures r.Fails? ==> Plaintext(c, key, data).None?
    ensures r.NoKms? <==> CallsNoKms(c, kms, data)
    ensures c.utf8(data) ==> r == Plain(data)
    ensures !c.utf8(data) && c.credDec(data).Some? ==> r == Plain(c.credDec(data).value)
    ensures kms && !c.utf8(data) && c.credDec(data).None? ==>
      r == if c.kmsDec(Joined(key), data).Some? then Plain(c.kmsDec(Joined(key), data).value)
           else if c.kmsDec(key, data).Some? then Plain(c.kmsDec(key, data).value) else Fails
  {
    if c.utf8(data) {
      return Plain(data);
    }
    var d := c.credDec(data);
    if d.None? {
      if !kms && c.kmsFormat(data) {
        return NoKms;
      }
      d := if kms then c.kmsDec(Joined(key), data) else None;
      if d.None? {
        d := if kms then c.kmsDec(key, data) else None;
        if d.None? {
          return Fails;
        }
      }
    }
    return Plain(d.value);
  }

  /** The body of the loop: at most one write, which keeps the meaning of a
      readable value.  Without a KMS the decrypted bytes themselves are
      written, and the meaning is kept exactly when they stand for themselves.
      Each way to end is given exactly. */
  method MigrateKey(etcd: Etcd, c: Crypto, kms: bool, key: string, r: nat) returns (outcome: Outcome)
    requires c.Sound()
    modifies etcd
    ensures Readable(c, kms, old(etcd.store), {key}) ==>
      && SameMeaning(c, {key}, old(etcd.store), etcd.store)
      && (outcome == Completed && key in etcd.store ==> Done(c, kms, key, etcd.store[key]))
    ensures outcome == Completed && key in old(etcd.store) ==>
      var p := Plaintext(c, key, old(etcd.store)[key]);
      && p.Some?
      && (kms ==> SameMeaning(c, {key}, old(etcd.store), etcd.store))
      && (!kms ==> etcd.store == old(etcd.store)[key := p.value])
      && (!kms ==> (SameMeaning(c, {key}, old(etcd.store), etcd.store) <==> Plaintext(c, key, p.value) == p))
    ensures outcome != Completed || key !in etcd.store ==> etcd.store == old(etcd.store)
    ensures key !in old(etcd.store) ==> outcome == Completed
    ensures key in old(etcd.store) ==>
      var v := old(etcd.store)[key];
      && (outcome == Panics(key) <==> CallsNoKms(c, kms, v))
      && (outcome == ErrDecrypt(key) <==> !CallsNoKms(c, kms, v) && Plaintext(c, key, v).None?)
      && (outcome == ErrEncrypt(key) <==> kms && Plaintext(c, key, v).Some? && !Encrypts(c, key, v, r))
      && (outcome == Stopped <==>
            && old(etcd.budget) == 0 && !CallsNoKms(c, kms, v) && Plaintext(c, key, v).Some?
            && (kms ==> Encrypts(c, key, v, r)))
    ensures outcome in {Completed, Panics(key), ErrDecrypt(key), ErrEncrypt(key), Stopped}
    ensures etcd.budget == old(etcd.budget) - if outcome == Completed && key in etcd.store then 1 else 0
  {
    if key !in etcd.store {  // someone deleted it meanwhile
      return Completed;
    }
    assert key in {key};
    var decrypted := Decrypt(c, kms, key, etcd.store[key]);
    if decrypted.Fails? {
      return ErrDecrypt(key);
    }
    if decrypted.NoKms? {
      return Panics(key);
    }
    var data := decrypted.value;
    if kms {
      var enc := c.kmsEnc(Joined(key), data, r);
      if enc.None? {
        return ErrEncrypt(key);
      }
      data := enc.value;
    }
    var ok := etcd.Save(key, data);
    return if ok then Completed else Stopped;
  }

  /** Bytes written back stand for themselves exactly when they are valid
      UTF-8, as the JSON of every IAM entry is. */
  lemma StandsForItselfExactly(c: Crypto, key: string, p: Bytes)
    requires c.NoFixedPoint()
    ensures Plaintext(c, key, p) == Some(p) <==> c.utf8(p)
  {
    assert c.credDec(p) != Some(p) && c.kmsDec(Joined(key), p) != Some(p) && c.kmsDec(key, p) != Some(p);
  }

  /** The migration.  Wherever it stops, every key still stands for its
      original plaintext; if it completes with a KMS, every listed key is
      encrypted under the joined-path context; and with a KMS it never fails
      to decrypt a readable store.  Given enough writes it completes as soon
      as the KMS encrypts every listed plaintext, or without a KMS as soon as
      no value calls for one. */
  method Migrate(etcd: Etcd, c: Crypto, kms: bool, keys: seq<string>, seed: nat) returns (outcome: Outcome)
    requires c.Sound()
    requires BACKEND_ENCRYPTED_FILE !in keys
    requires Readable(c, kms, etcd.store, Listed(keys))
    modifies etcd
    ensures SameMeaning(
      c, Listed(keys), old(etcd.store) - {BACKEND_ENCRYPTED_FILE}, etcd.store - {BACKEND_ENCRYPTED_FILE})
    ensures Readable(c, kms, etcd.store, Listed(keys))
    ensures outcome == Completed ==> BACKEND_ENCRYPTED_FILE !in etcd.store
    ensures outcome == Completed ==> forall k :: k in keys && k in etcd.store ==> Done(c, kms, k, etcd.store[k])
    ensures outcome != Completed ==> SameMeaning(c, Listed(keys), old(etcd.store), etcd.store)
    ensures outcome.ErrDecrypt? || outcome.Panics? ==> !kms
    ensures outcome == Stopped ==> old(etcd.budget) <= |keys|
    ensures outcome.ErrEncrypt? ==>
      && kms && outcome.key in keys && outcome.key in old(etcd.store)
      && !MigratableAt(c, kms, outcome.key, old(etcd.store)[outcome.key])
    ensures Migratable(c, kms, old(etcd.store), keys) ==>
      Migratable(c, kms, etcd.store, keys) && (outcome == Completed || outcome == Stopped)
    ensures Migratable(c, kms, old(etcd.store), keys) && old(etcd.budget) > |keys| ==> outcome == Completed
  {
    hide Plaintext, Done, CallsNoKms, Encrypts;
    for i := 0 to |keys|
      invariant Progress(c, kms, keys, old(etcd.store), etcd.store, i)
      invariant etcd.budget >= old(etcd.budget) - i
    {
      outcome := MigrateTurn(etcd, c, kms, keys, i, old(etcd.store), seed + i);
      if outcome != Completed {
        return;
      }
    }
    assert keys[..|keys|] == keys;
    var ok := etcd.Delete(BACKEND_ENCRYPTED_FILE);
    return if ok then Completed else Stopped;
  }

  // What holds after the first i keys.
  ghost predicate Progress(c: Crypto, kms: bool, keys: seq<string>, first: Store, now: Store, i: nat)
    requires i <= |keys|
  {
    && SameMeaning(c, Listed(keys), first, now) && Readable(c, kms, now, Listed(keys))
    && (forall k :: k in keys[..i] && k in now ==> Done(c, kms, k, now[k]))
    && (Migratable(c, kms, first, keys) ==> Migratable(c, kms, now, keys))
  }

  method MigrateTurn(
      etcd: Etcd, c: Crypto, kms: bool, keys: seq<string>, i: nat, ghost first: Store, r: nat)
    returns (outcome: Outcome)
    requires c.Sound() && i < |keys|
    requires Readable(c, kms, first, Listed(keys)) && Progress(c, kms, keys, first, etcd.store, i)
    modifies etcd
    ensures Progress(c, kms, keys, first, etcd.store, if outcome == Completed then i + 1 else i)
    ensures etcd.budget >= old(etcd.budget) - 1
    ensures outcome.ErrDecrypt? || outcome.Panics? ==> !kms
    ensures outcome == Stopped ==> old(etcd.budget) == 0
    ensures outcome.ErrEncrypt? ==>
      && kms && outcome.key in keys && outcome.key in first && !MigratableAt(c, kms, outcome.key, first[outcome.key])
    ensures Migratable(c, kms, first, keys) ==> outcome == Completed || outcome == Stopped
  {
    ghost var before, key := etcd.store, keys[i];
    assert keys[..i + 1] == keys[..i] + [key];
    MeaningCarries(c, kms, keys, key, first, before);
    outcome := MigrateKey(etcd, c, kms, keys[i], r);
    hide Plaintext, Done, Encrypts, CallsNoKms;
    ReadableWithout(c, kms, before, key);
    SameMeaningExtends(c, keys, key, first, before, etcd.store);
    MeaningCarries(c, kms, keys, key, first, etcd.store);
    MigratableStays(c, kms, keys, key, first, before, etcd.store, r);
    if Migratable(c, kms, before, keys) && key in before {
      assert MigratableAt(c, kms, key, before[key]);
    }
  }

  // A readable value has a plaintext.
  lemma ReadableWithout(c: Crypto, kms: bool, s: Store, key: string)
    requires Readable(c, kms, s, {key})
    ensures key in s ==> Plaintext(c, key, s[key]).Some?
  {
    assert key in {key};
  }

  // What can be migrated depends, with a KMS, on the meaning of a value alone;
  // without one, a value that has been written back calls for none.
  lemma MigratableStays(
      c: Crypto, kms: bool, keys: seq<string>, key: string, first: Store, before: Store, after: Store, r: nat)
    requires key in keys && SameMeaning(c, Listed(keys), first, before) && SameMeaning(c, {key}, before, after)
    requires before == after || (key in after && after == before[key := after[key]] && Done(c, kms, key, after[key]))
    ensures Migratable(c, kms, before, keys) ==> Migratable(c, kms, after, keys)
    ensures kms && key in before ==> (MigratableAt(c, kms, key, first[key]) <==> MigratableAt(c, kms, key, before[key]))
    ensures Migratable(c, kms, before, keys) && key in before && kms ==> Encrypts(c, key, before[key], r)
  {
    assert key in Listed(keys);
    if Migratable(c, kms, before, keys) {
      forall k | k in keys && k in after ensures MigratableAt(c, kms, k, after[k]) {
        assert MigratableAt(c, kms, k, before[k]);
        assert k == key ==> Plaintext(c, k, after[k]) == Plaintext(c, k, before[k]);
        if kms && k == key {
          forall n ensures Encrypts(c, k, after[k], n) {
            assert Encrypts(c, k, before[k], n);
          }
        }
      }
    }
    if kms && key in before {
      assert Plaintext(c, key, first[key]) == Plaintext(c, key, before[key]);
      assert forall n :: Encrypts(c, key, first[key], n) <==> Encrypts(c, key, before[key], n);
    }
  }

  lemma MeaningCarries(c: Crypto, kms: bool, keys: seq<string>, key: string, first: Store, now: Store)
    requires Readable(c, kms, first, Listed(keys)) && SameMeaning(c, Listed(keys), first, now)
    ensures Readable(c, kms, now, Listed(keys))
    ensures key in keys ==> Readable(c, kms, now, {key})
  {}

  lemma SameMeaningExtends(c: Crypto, keys: seq<string>, key: string, first: Store, before: Store, after: Store)
    requires key in keys
    requires SameMeaning(c, Listed(keys), first, before) && SameMeaning(c, {key}, before, after)
    ensures SameMeaning(c, Listed(keys), first, after)
    ensures forall k :: k in before && k != key ==> after[k] == before[k]
  {
    assert key in Listed(keys);
    forall k | k in first
      ensures k in Listed(keys) ==> Plaintext(c, k, after[k]) == Plaintext(c, k, first[k])
      ensures k !in Listed(keys) ==> after[k] == first[k]
    {
      assert k in before && (k in {key} <==> k == key);
    }
  }

  function Listed(keys: seq<string>): set<string> { set k | k in keys }

  // ----- any number of interrupted runs -----

  lemma SameMeaningTransitive(c: Crypto, keys: set<string>, a: Store, b: Store, d: Store)
    requires SameMeaning(c, keys, a, b) && SameMeaning(c, keys, b, d)
    ensures SameMeaning(c, keys, a, d)
  {}

  /** Any number of runs, each cut off when its budget of writes is used up
      and each starting from what the one before left: afterwards every key
      still stands for its original plaintext and the store is fit for
      another run.  If nothing but the budgets stood in the way at first, a
      last run with writes enough completes; and after a last run that
      completes with a KMS, every listed key is encrypted under the
      joined-path context. */
  method MigrateRepeatedly(etcd: Etcd, c: Crypto, kms: bool, keys: seq<string>, budgets: seq<nat>, seed: nat)
    returns (outcomes: seq<Outcome>)
    requires c.Sound()
    requires BACKEND_ENCRYPTED_FILE !in keys
    requires Readable(c, kms, etcd.store, Listed(keys))
    modifies etcd
    ensures |outcomes| == |budgets|
    ensures Readable(c, kms, etcd.store, Listed(keys))
    ensures SameMeaning(
      c, Listed(keys), old(etcd.store) - {BACKEND_ENCRYPTED_FILE}, etcd.store - {BACKEND_ENCRYPTED_FILE})
    ensures outcomes != [] && outcomes[|outcomes| - 1] == Completed ==> AllDone(c, kms, keys, etcd.store)
    ensures budgets != [] && budgets[|budgets| - 1] > |keys| && Migratable(c, kms, old(etcd.store), keys) ==>
      AllDone(c, kms, keys, etcd.store) && BACKEND_ENCRYPTED_FILE !in etcd.store
  {
    outcomes := [];
    ghost var first := etcd.store - {BACKEND_ENCRYPTED_FILE};
    for i := 0 to |budgets|
      invariant |outcomes| == i
      invariant Readable(c, kms, etcd.store, Listed(keys))
      invariant SameMeaning(c, Listed(keys), first, etcd.store - {BACKEND_ENCRYPTED_FILE})
      invariant outcomes != [] && outcomes[i - 1] == Completed ==>
        AllDone(c, kms, keys, etcd.store) && BACKEND_ENCRYPTED_FILE !in etcd.store
      invariant Migratable(c, kms, old(etcd.store), keys) ==> Migratable(c, kms, etcd.store, keys)
      invariant Migratable(c, kms, old(etcd.store), keys) && i > 0 && budgets[i - 1] > |keys| ==>
        outcomes[i - 1] == Completed
    {
      ghost var before := etcd.store - {BACKEND_ENCRYPTED_FILE};
      etcd.budget := budgets[i];
      var outcome := Migrate(etcd, c, kms, keys, seed + i);
      SameMeaningTransitive(c, Listed(keys), first, before, etcd.store - {BACKEND_ENCRYPTED_FILE});
      outcomes := outcomes + [outcome];
    }
  }

  ghost predicate AllDone(c: Crypto, kms: bool, keys: seq<string>, s: Store) {
    forall k :: k in keys && k in s ==> Done(c, kms, k, s[k])
  }
}
