/** `keygen_with_initial_keys`: normalise the indices of the supplied key buffers, deserialize
    each key id's buffer once, and hand the resulting map to the module's keygen. */
module InitialKeys {
  import opened Results
  import opened Errors
  import opened Dtypes
  import opened Bridges

  /** The items of the `input_idx_to_key_buffer` dictionary, in insertion order. */
  type KeyBuffers = seq<(KeyIndex, Bytes)>

  /** The arguments `module.keygen` is called with. */
  datatype KeygenCall<K> = KeygenCall(
    force: bool,
    seed: Option<int>,
    encryptionSeed: Option<int>,
    initialKeys: map<nat, K>)

  /** The `(function, position)` an index names: a tuple as given, a bare position paired with
      the default function, and RuntimeError for a bare position without a default. */
  function ResolveKeyIndex(defaultFunction: Option<string>, idx: KeyIndex): (r: Result<(string, int), BridgeError>)
    ensures idx.FunctionInput? ==> r == Success((idx.funcName, idx.pos))
    ensures idx.Position? ==> (r.Success? <==> defaultFunction.Some?)
    ensures idx.Position? && r.Success? ==> r.value == (defaultFunction.value, idx.pos)
    ensures r.Failure? ==> r.error == FunctionNameRequired
  {
    match idx
    case FunctionInput(f, i) => Success((f, i))
    case Position(i) =>
      if defaultFunction.Some? then Success((defaultFunction.value, i)) else Failure(FunctionNameRequired)
  }

  /** The key id (`input_keyid_at`) of the input an index names, or `None` when the index does
      not resolve. */
  function EntryKeyId(defaultFunction: Option<string>, keyIdAt: (string, int) -> nat, idx: KeyIndex): (k: Option<nat>) {
    match ResolveKeyIndex(defaultFunction, idx)
    case Success(p) => Some(keyIdAt(p.0, p.1))
    case Failure(_) => None
  }

  /** The key id of every entry, in order. */
  function EntryKeyIds(defaultFunction: Option<string>, keyIdAt: (string, int) -> nat, entries: KeyBuffers): (ids: seq<Option<nat>>)
  {
    seq(|entries|, i requires 0 <= i < |entries| => EntryKeyId(defaultFunction, keyIdAt, entries[i].0))
  }

  /** Entry `i` is the first to name its key id. */
  ghost predicate FirstOccurrence(ids: seq<Option<nat>>, i: nat)
    requires i < |ids|
  {
    forall j :: 0 <= j < i ==> ids[j] != ids[i]
  }

  /** The key ids named by the first `n` entries. */
  ghost function KeyIdsOf(ids: seq<Option<nat>>, n: nat): (keyIds: set<nat>)
    requires n <= |ids|
  {
    set j | 0 <= j < n && ids[j].Some? :: ids[j].value
  }

  /** Entry `i` stops the loop if reached: its index does not resolve, or it is the first for
      its key id and its buffer does not deserialize. */
  ghost predicate Rejected<K>(deserialize: (Bytes, nat) -> Option<K>, entries: KeyBuffers, ids: seq<Option<nat>>, i: nat)
    requires |ids| == |entries| && i < |ids|
  {
    ids[i].None? || (FirstOccurrence(ids, i) && deserialize(entries[i].1, ids[i].value).None?)
  }

  /** The exception a rejected entry raises. */
  function RejectionError(defaultFunction: Option<string>, idx: KeyIndex): (e: BridgeError) {
    if ResolveKeyIndex(defaultFunction, idx).Failure? then FunctionNameRequired
    else DeserializationFailed(idx)
  }

  ghost predicate NoDuplicates(s: seq<nat>) {
    forall i, j :: 0 <= i < j < |s| ==> s[i] != s[j]
  }

  lemma KeyIdsOfStep(ids: seq<Option<nat>>, n: nat)
    requires n < |ids|
    ensures ids[n].Some? ==> KeyIdsOf(ids, n + 1) == KeyIdsOf(ids, n) + {ids[n].value}
    ensures ids[n].None? ==> KeyIdsOf(ids, n + 1) == KeyIdsOf(ids, n)
  {
  }

  /** Entry `n` with a key id is first for it exactly when that id is not named earlier. */
  lemma FirstOccurrenceIff(ids: seq<Option<nat>>, n: nat)
    requires n < |ids| && ids[n].Some?
    ensures FirstOccurrence(ids, n) <==> ids[n].value !in KeyIdsOf(ids, n)
  {
    if ids[n].value in KeyIdsOf(ids, n) {
      var j :| 0 <= j < n && ids[j].Some? && ids[j].value == ids[n].value;
      assert ids[j] == ids[n];
    }
  }

  /** None of the first `n` entries is rejected. */
  ghost predicate NoneRejected<K>(deserialize: (Bytes, nat) -> Option<K>, entries: KeyBuffers, ids: seq<Option<nat>>, n: nat)
    requires |ids| == |entries| && n <= |ids|
  {
    forall j :: 0 <= j < n ==> !Rejected(deserialize, entries, ids, j)
  }

  /** Each key id first named among the first `n` entries maps to the key deserialized from
      the buffer of the entry that first names it. */
  ghost predicate FirstBuffersWin<K>(deserialize: (Bytes, nat) -> Option<K>, entries: KeyBuffers, ids: seq<Option<nat>>, n: nat, keys: map<nat, K>)
    requires |ids| == |entries| && n <= |ids|
  {
    forall j :: 0 <= j < n && FirstOccurrence(ids, j) && ids[j].Some? ==>
      ids[j].value in keys && deserialize(entries[j].1, ids[j].value) == Some(keys[ids[j].value])
  }

  /** What the loop has established after its first `n` entries: none was rejected, the map
      holds exactly their key ids, and the first buffer for each id won. */
  ghost predicate Processed<K>(deserialize: (Bytes, nat) -> Option<K>, entries: KeyBuffers, ids: seq<Option<nat>>, n: nat, keys: map<nat, K>)
    requires |ids| == |entries| && n <= |ids|
  {
    && NoneRejected(deserialize, entries, ids, n)
    && keys.Keys == KeyIdsOf(ids, n)
    && FirstBuffersWin(deserialize, entries, ids, n, keys)
  }

  /** An entry whose key id was already seen is skipped. */
  lemma SkipSeenKey<K>(deserialize: (Bytes, nat) -> Option<K>, entries: KeyBuffers, ids: seq<Option<nat>>, n: nat, keys: map<nat, K>)
    requires |ids| == |entries| && n < |ids|
    requires Processed(deserialize, entries, ids, n, keys)
    requires ids[n].Some? && ids[n].value in keys
    ensures Processed(deserialize, entries, ids, n + 1, keys)
  {
    FirstOccurrenceIff(ids, n);
    KeyIdsOfStep(ids, n);
    assert !Rejected(deserialize, entries, ids, n);
  }

  /** An entry with a new key id whose buffer deserializes adds that key. */
  lemma AddNewKey<K>(deserialize: (Bytes, nat) -> Option<K>, entries: KeyBuffers, ids: seq<Option<nat>>, n: nat, keys: map<nat, K>, key: K)
    requires |ids| == |entries| && n < |ids|
    requires Processed(deserialize, entries, ids, n, keys)
    requires ids[n].Some? && ids[n].value !in keys
    requires deserialize(entries[n].1, ids[n].value) == Some(key)
    ensures Processed(deserialize, entries, ids, n + 1, keys[ids[n].value := key])
  {
    var keys' := keys[ids[n].value := key];
    assert NoneRejected(deserialize, entries, ids, n + 1) by {
      FirstOccurrenceIff(ids, n);
      assert !Rejected(deserialize, entries, ids, n);
    }
    assert keys'.Keys == KeyIdsOf(ids, n + 1) by {
      KeyIdsOfStep(ids, n);
    }
    FirstBuffersWinAfterAdd(deserialize, entries, ids, n, keys, key);
  }

  /** Adding the key of a new key id keeps every earlier first buffer's key in place. */
  lemma FirstBuffersWinAfterAdd<K>(deserialize: (Bytes, nat) -> Option<K>, entries: KeyBuffers, ids: seq<Option<nat>>, n: nat, keys: map<nat, K>, key: K)
    requires |ids| == |entries| && n < |ids|
    requires FirstBuffersWin(deserialize, entries, ids, n, keys)
    requires ids[n].Some? && ids[n].value !in keys
    requires deserialize(entries[n].1, ids[n].value) == Some(key)
    ensures FirstBuffersWin(deserialize, entries, ids, n + 1, keys[ids[n].value := key])
  {
    var keys' := keys[ids[n].value := key];
    forall j | 0 <= j < n + 1 && FirstOccurrence(ids, j) && ids[j].Some?
      ensures ids[j].value in keys' && deserialize(entries[j].1, ids[j].value) == Some(keys'[ids[j].value])
    {
      if j < n {
        assert ids[j].value in keys;
      }
    }
  }

  /** The loop of `keygen_with_initial_keys` over the dictionary's items in insertion order,
      followed by the keygen call it leads to. `deserialized` lists the key ids passed to
      `deserialize`, in order. */
  method KeygenWithInitialKeys<K>(
    b: Bridge,
    entries: KeyBuffers,
    force: bool,
    seed: Option<int>,
    encryptionSeed: Option<int>,
    keyIdAt: (string, int) -> nat,
    deserialize: (Bytes, nat) -> Option<K>)
    returns (r: Result<KeygenCall<K>, BridgeError>, deserialized: seq<nat>)
    ensures var ids := EntryKeyIds(b.defaultFunction, keyIdAt, entries);
      r.Success? <==> forall i :: 0 <= i < |entries| ==> !Rejected(deserialize, entries, ids, i)
    ensures var ids := EntryKeyIds(b.defaultFunction, keyIdAt, entries);
      r.Failure? ==> exists i :: (
        && 0 <= i < |entries|
        && Rejected(deserialize, entries, ids, i)
        && (forall j :: 0 <= j < i ==> !Rejected(deserialize, entries, ids, j))
        && r.error == RejectionError(b.defaultFunction, entries[i].0))
    ensures r.Success? ==>
      r.value.force == force && r.value.seed == seed && r.value.encryptionSeed == encryptionSeed
    ensures var ids := EntryKeyIds(b.defaultFunction, keyIdAt, entries);
      r.Success? ==> r.value.initialKeys.Keys == KeyIdsOf(ids, |entries|)
    ensures var ids := EntryKeyIds(b.defaultFunction, keyIdAt, entries);
      r.Success? ==> forall i :: 0 <= i < |entries| && FirstOccurrence(ids, i) && ids[i].Some? ==>
        ids[i].value in r.value.initialKeys
        && deserialize(entries[i].1, ids[i].value) == Some(r.value.initialKeys[ids[i].value])
    ensures NoDuplicates(deserialized)
    ensures r.Success? ==> forall k :: k in deserialized <==> k in r.value.initialKeys
  {
    ghost var ids := EntryKeyIds(b.defaultFunction, keyIdAt, entries);
    var initialKeys: map<nat, K> := map[];
    deserialized := [];
    var n := 0;
    while n < |entries|
      invariant 0 <= n <= |entries|
      invariant Processed(deserialize, entries, ids, n, initialKeys)
      invariant NoDuplicates(deserialized)
      invariant forall k :: k in deserialized <==> k in initialKeys
    {
      var (idx, buffer) := entries[n];
      var resolved := ResolveKeyIndex(b.defaultFunction, idx);
      if resolved.Failure? {
        assert Rejected(deserialize, entries, ids, n);
        r := Failure(FunctionNameRequired);
        return;
      }
      var (funcName, inputIdx) := resolved.value;
      var keyId := keyIdAt(funcName, inputIdx);
      assert ids[n] == Some(keyId);
      if keyId in initialKeys {
        // the key id was seen before: its key is not deserialized again
        SkipSeenKey(deserialize, entries, ids, n, initialKeys);
      } else {
        var key := deserialize(buffer, keyId);
        deserialized := deserialized + [keyId];
        if key.None? {
          FirstOccurrenceIff(ids, n);
          assert Rejected(deserialize, entries, ids, n);
          r := Failure(DeserializationFailed(idx));
          return;
        }
        AddNewKey(deserialize, entries, ids, n, initialKeys, key.value);
        initialKeys := initialKeys[keyId := key.value];
      }
      n := n + 1;
    }
    r := Success(KeygenCall(force, seed, encryptionSeed, initialKeys));
  }
}
