/** `useInMemoryAuthState` (src/utils/whatsapp.js:49-86): the credentials and
    a two-level key store (category, then id) held in memory, seeded from a
    saved auth state and written out again by `toJSON`. */
module KeyStore {
  import opened Base
  import opened Json
  import BufferJson
  import AuthCodec

  /** `keys`: category → id → value. */
  type Store = map<string, map<string, Value>>

  /** `keys[type]?.[id] || null`: a missing or falsy entry reads as null. */
  function Lookup(keys: Store, category: string, id: string): (v: Value)
    ensures Truthy(v) || v == JNull
    ensures Truthy(v) ==> category in keys && id in keys[category] && keys[category][id] == v
  {
    if category in keys && id in keys[category] && Truthy(keys[category][id]) then keys[category][id]
    else JNull
  }

  /** `keys.get(type, ids)`: one entry per requested id. */
  function Get(keys: Store, category: string, ids: seq<string>): (r: map<string, Value>)
    ensures forall id :: id in r <==> id in ids
    ensures forall id :: id in r ==> r[id] == Lookup(keys, category, id)
  {
    if |ids| == 0 then map[]
    else Get(keys, category, ids[..|ids| - 1])[ids[|ids| - 1] := Lookup(keys, category, ids[|ids| - 1])]
  }

  /** `keys.set(data)`: for each category in data, `Object.assign` its entries
      over the stored ones, creating the category when missing. */
  function Set(keys: Store, data: Store): (r: Store)
    ensures r.Keys == keys.Keys + data.Keys
  {
    map category | category in keys.Keys + data.Keys ::
      if category in data then (if category in keys then keys[category] else map[]) + data[category]
      else keys[category]
  }

  /** After `set(data)`, `get` reads data's entry for every id data sets in
      that category and the old entry for everything else. */
  lemma SetThenGet(keys: Store, data: Store, category: string, ids: seq<string>)
    ensures var r := Get(Set(keys, data), category, ids);
      forall id :: id in r ==>
        r[id] == (if category in data && id in data[category] then Lookup(data, category, id)
                  else Lookup(keys, category, id))
  {
  }

  /** An id never set in a category reads as null. */
  lemma NeverSetIsNull(keys: Store, data: Store, category: string, ids: seq<string>, id: string)
    requires id in ids
    requires category !in keys || id !in keys[category]
    requires category !in data || id !in data[category]
    ensures Get(Set(keys, data), category, ids)[id] == JNull
  {
  }

  /** Setting the same data twice changes nothing more. */
  lemma SetIdempotent(keys: Store, data: Store)
    ensures Set(Set(keys, data), data) == Set(keys, data)
  {
    var once := Set(keys, data);
    var twice := Set(once, data);
    forall category | category in twice
      ensures twice[category] == once[category]
    {
      if category in data {
        assert once[category] + data[category] == once[category];
      }
    }
  }

  /** The credentials and the key store of one connection. */
  datatype AuthState = AuthState(creds: Value, keys: Store)

  /** The key store as a JavaScript object of objects. */
  function StoreValue(keys: Store): (v: Value)
    ensures v.JObj? && v.fields.Keys == keys.Keys
  {
    JObj(map category | category in keys :: JObj(keys[category]))
  }

  /** Reading an object of objects back as a key store; entries that are not
      objects are dropped. */
  function StoreOf(v: Value): Store {
    if v.JObj? then map category | category in v.fields && v.fields[category].JObj? :: v.fields[category].fields
    else map[]
  }

  lemma StoreRoundTrip(keys: Store)
    ensures StoreOf(StoreValue(keys)) == keys
  {
  }

  /** `toJSON()`: the credentials and the key store written with the buffer
      replacer and parsed back without a reviver, so buffers stay tags. */
  function Snapshot(s: AuthState): (snap: Value)
    ensures IsPlain(snap)
    ensures snap == SnapshotWith(BufferJson.AsWritten, s)
  {
    SnapshotWith(BufferJson.AsWritten, s)
  }

  /** `toJSON()` with the given replacer in place of `bufferReplacer`. */
  function SnapshotWith(r: BufferJson.Replacer, s: AuthState): (snap: Value)
    ensures IsPlain(snap)
    ensures Field(snap, "creds") == Some(BufferJson.Stringified(r, s.creds))
    ensures Field(snap, "keys") == Some(BufferJson.Stringified(r, StoreValue(s.keys)))
  {
    var creds := BufferJson.Stringified(r, s.creds);
    var keys := BufferJson.Stringified(r, StoreValue(s.keys));
    var fields := map["creds" := creds, "keys" := keys];
    assert forall k :: k in fields ==> fields[k] == creds || fields[k] == keys;
    JObj(fields)
  }

  /** `JSON.parse(JSON.stringify(x), bufferReviver)`. */
  function DeepCopy(v: Value): Option<Value> {
    BufferJson.ReviveAll(BufferJson.Stringified(BufferJson.NoReplacer, v))
  }

  /** `useInMemoryAuthState(initialAuthJson)`: a truthy `creds` or `keys`
      field of the saved state is deep-copied with the reviver; otherwise
      the credentials are `newCreds` (what `initAuthCreds()` returned) and the
      store is empty. None where the reviver throws. */
  function InitInMemory(initial: Option<Value>, newCreds: Value): (r: Option<AuthState>)
    ensures (initial.None? || !TruthyField(initial.value, "creds")) && r.Some? ==> r.value.creds == newCreds
    ensures (initial.None? || !TruthyField(initial.value, "keys")) && r.Some? ==> r.value.keys == map[]
  {
    var creds :- if initial.Some? && TruthyField(initial.value, "creds")
      then DeepCopy(Field(initial.value, "creds").value) else Some(newCreds);
    var keys :- if initial.Some? && TruthyField(initial.value, "keys")
      then DeepCopy(Field(initial.value, "keys").value) else Some(JObj(map[]));
    Some(AuthState(creds, StoreOf(keys)))
  }

  /** No stored credential or key looks like a tagged buffer. */
  predicate Storable(s: AuthState) {
    s.creds.JObj? && TagFree(s.creds) && TagFree(StoreValue(s.keys))
  }

  /** Every buffer among the credentials and keys is a Node `Buffer`. */
  predicate NodeOnly(s: AuthState) {
    NodeBuffersOnly(s.creds) && NodeBuffersOnly(StoreValue(s.keys))
  }

  /** Reading a snapshot with the reviver gives the credentials and keys
      back as the code as written reads them (`BufferJson.AsRead`): exactly,
      when every buffer in them is a Node `Buffer`. */
  lemma ReviveSnapshot(s: AuthState)
    requires Storable(s)
    ensures BufferJson.ReviveAll(Snapshot(s))
         == Some(JObj(map["creds" := BufferJson.AsRead(s.creds), "keys" := BufferJson.AsRead(StoreValue(s.keys))]))
    ensures NodeOnly(s) ==> BufferJson.ReviveAll(Snapshot(s)) == Some(JObj(map["creds" := s.creds, "keys" := StoreValue(s.keys)]))
  {
    BufferJson.AsWrittenRoundTrip(s.creds);
    BufferJson.AsWrittenRoundTrip(StoreValue(s.keys));
    ReviveAuthObject(BufferJson.Stringified(BufferJson.AsWritten, s.creds), BufferJson.AsRead(s.creds),
      BufferJson.Stringified(BufferJson.AsWritten, StoreValue(s.keys)), BufferJson.AsRead(StoreValue(s.keys)));
    if NodeOnly(s) {
      BufferJson.AsReadIdentity(s.creds);
      BufferJson.AsReadIdentity(StoreValue(s.keys));
    }
  }

  /** With the corrected replacer a snapshot revives to the credentials and
      keys for every kind of buffer, each now a Node `Buffer`. */
  lemma ReviveCorrectedSnapshot(s: AuthState)
    requires Storable(s)
    ensures BufferJson.ReviveAll(SnapshotWith(BufferJson.Corrected, s))
         == Some(JObj(map["creds" := AsNode(s.creds), "keys" := AsNode(StoreValue(s.keys))]))
  {
    BufferJson.CorrectedRoundTrip(s.creds);
    BufferJson.CorrectedRoundTrip(StoreValue(s.keys));
    ReviveAuthObject(BufferJson.Stringified(BufferJson.Corrected, s.creds), AsNode(s.creds),
      BufferJson.Stringified(BufferJson.Corrected, StoreValue(s.keys)), AsNode(StoreValue(s.keys)));
  }

  /** `{creds, keys}` revives field by field. */
  lemma ReviveAuthObject(creds: Value, creds': Value, keys: Value, keys': Value)
    requires BufferJson.ReviveAll(creds) == Some(creds') && BufferJson.ReviveAll(keys) == Some(keys')
    ensures BufferJson.ReviveAll(JObj(map["creds" := creds, "keys" := keys]))
         == Some(JObj(map["creds" := creds', "keys" := keys']))
  {
    var revived := map["creds" := creds', "keys" := keys'];
    assert Field(JObj(revived), "buffer") == None && Field(JObj(revived), "type") == None;
    BufferJson.ReviveObject(map["creds" := creds, "keys" := keys], revived);
  }

  /** Restoring an already revived state is the identity: seeding
      `useInMemoryAuthState` with credentials and keys made of Node buffers
      gives them back. */
  lemma RestoreRevived(creds: Value, keys: Store, newCreds: Value)
    requires creds.JObj? && TagFree(creds) && NodeBuffersOnly(creds)
    requires TagFree(StoreValue(keys)) && NodeBuffersOnly(StoreValue(keys))
    ensures var saved := JObj(map["creds" := creds, "keys" := StoreValue(keys)]);
      InitInMemory(Some(saved), newCreds) == Some(AuthState(creds, keys))
  {
    BufferJson.DeepCopyIdentity(creds);
    BufferJson.DeepCopyIdentity(StoreValue(keys));
    StoreRoundTrip(keys);
    SeedFromCopies(creds, StoreValue(keys), newCreds);
  }

  /** Saved credentials and keys that are objects and deep-copy to
      themselves seed the state as they are. */
  lemma SeedFromCopies(creds: Value, keys: Value, newCreds: Value)
    requires creds.JObj? && keys.JObj?
    requires DeepCopy(creds) == Some(creds) && DeepCopy(keys) == Some(keys)
    ensures InitInMemory(Some(JObj(map["creds" := creds, "keys" := keys])), newCreds) == Some(AuthState(creds, StoreOf(keys)))
  {
    var saved := JObj(map["creds" := creds, "keys" := keys]);
    assert TruthyField(saved, "creds") && Field(saved, "creds").value == creds;
    assert TruthyField(saved, "keys") && Field(saved, "keys").value == keys;
  }

  /** The key store the code as written reads back. */
  function ReadStore(keys: Store): (r: Store)
    ensures StoreValue(r) == BufferJson.AsRead(StoreValue(keys))
  {
    var v := BufferJson.AsRead(StoreValue(keys));
    assert forall category :: category in v.fields ==> v.fields[category] == BufferJson.AsRead(JObj(keys[category]));
    StoreOf(v)
  }

  /** The whole persistence path: `toJSON`, `encrypt`, `decrypt` and
      `useInMemoryAuthState` give back the credentials and keys as the code
      as written reads them, with or without an encryption key; exactly the
      state, when every buffer in it is a Node `Buffer`. */
  lemma PersistRestore(c: AuthCodec.Config, s: AuthState, iv: Bytes, newCreds: Value)
    requires |iv| == 12 && AuthCodec.AeadInverts(c.aead) && AuthCodec.TextRoundTrips(c.text)
    requires AuthCodec.KeyConfigured(c) ==> |AuthCodec.KeyBytes(c)| == 32
    requires Storable(s)
    ensures AuthCodec.Encrypt(c, Snapshot(s), iv).Ok?
    ensures var saved := AuthCodec.Decrypt(c, AuthCodec.Encrypt(c, Snapshot(s), iv).value);
      saved.Ok? && InitInMemory(Some(saved.value), newCreds) == Some(AuthState(BufferJson.AsRead(s.creds), ReadStore(s.keys)))
    ensures NodeOnly(s) ==> var saved := AuthCodec.Decrypt(c, AuthCodec.Encrypt(c, Snapshot(s), iv).value);
      saved.Ok? && InitInMemory(Some(saved.value), newCreds) == Some(s)
  {
    AuthCodec.PlainRoundTrip(c, Snapshot(s), iv);
    ReviveSnapshot(s);
    BufferJson.AsReadTagFree(s.creds);
    BufferJson.AsReadTagFree(StoreValue(s.keys));
    RestoreRevived(BufferJson.AsRead(s.creds), ReadStore(s.keys), newCreds);
    if NodeOnly(s) {
      BufferJson.AsReadIdentity(s.creds);
      BufferJson.AsReadIdentity(StoreValue(s.keys));
      StoreValueInjective(ReadStore(s.keys), s.keys);
    }
  }

  /** Two stores written as the same object are the same store. */
  lemma StoreValueInjective(a: Store, b: Store)
    requires StoreValue(a) == StoreValue(b)
    ensures a == b
  {
    StoreRoundTrip(a);
    StoreRoundTrip(b);
  }
}
