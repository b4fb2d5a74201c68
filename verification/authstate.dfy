/** The transport's credential and signal-key persistence for one session
    (server/src/baileys/useSupabaseAuthState.ts), over an in-memory `auth_sessions` key/value
    table. Values are kept as what `JSON.parse` makes of the stored text: either the value that was
    written or something unparsable. */
module AuthState {
  import opened Wrappers
  import opened Seqs

  datatype Stored<V> = Parsed(value: V) | Unparsable

  /** The `auth_sessions` rows by key, and whether the store answers. */
  datatype KvStore<V> = KvStore(rows: map<string, Stored<V>>, up: bool)

  /** The row key of `key` in session `session`. */
  function StoreKey(session: string, key: string): string {
    session + ":" + key
  }

  /** The key a signal value of `category` with id `id` is stored under. */
  function SignalKey(category: string, id: string): string {
    category + "-" + id
  }

  /** The category whose values are converted to a protocol object after reading. */
  const AppStateSyncKey: string := "app-state-sync-key"

  /** Within one session, different keys are different rows. */
  lemma StoreKeyInjective(session: string, a: string, b: string)
    requires StoreKey(session, a) == StoreKey(session, b)
    ensures a == b
  {
    var n := |session| + 1;
    assert a == StoreKey(session, a)[n..];
    assert b == StoreKey(session, b)[n..];
  }

  /** `readData(key)`: the parsed value, or null when the store fails, the row is missing or its
      text does not parse. */
  function ReadData<V>(kv: KvStore<V>, session: string, key: string): (r: Option<V>)
    ensures r.Some? <==> kv.up && StoreKey(session, key) in kv.rows && kv.rows[StoreKey(session, key)].Parsed?
    ensures r.Some? ==> r.value == kv.rows[StoreKey(session, key)].value
  {
    var k := StoreKey(session, key);
    if kv.up && k in kv.rows && kv.rows[k].Parsed? then Some(kv.rows[k].value) else None
  }

  /** `writeData(value, key)`: an upsert of the row; a store error is logged only. */
  function WriteData<V>(kv: KvStore<V>, session: string, key: string, v: V): (r: KvStore<V>)
    ensures r.up == kv.up
    ensures kv.up ==> r.rows == kv.rows[StoreKey(session, key) := Parsed(v)]
    ensures !kv.up ==> r == kv
  {
    if kv.up then kv.(rows := kv.rows[StoreKey(session, key) := Parsed(v)]) else kv
  }

  /** `removeData(key)`: a delete of the row; a store error is logged only. */
  function RemoveData<V>(kv: KvStore<V>, session: string, key: string): (r: KvStore<V>)
    ensures r.up == kv.up
    ensures kv.up ==> r.rows == kv.rows - {StoreKey(session, key)}
    ensures !kv.up ==> r == kv
  {
    if kv.up then kv.(rows := kv.rows - {StoreKey(session, key)}) else kv
  }

  /** What is read back under a key after a write or a remove under that key, or under another. */
  lemma ReadAfterWrite<V>(kv: KvStore<V>, session: string, key: string, other: string, v: V)
    requires kv.up
    ensures ReadData(WriteData(kv, session, key, v), session, key) == Some(v)
    ensures ReadData(RemoveData(kv, session, key), session, key) == None
    ensures other != key ==> ReadData(WriteData(kv, session, key, v), session, other) == ReadData(kv, session, other)
    ensures other != key ==> ReadData(RemoveData(kv, session, key), session, other) == ReadData(kv, session, other)
  {
    if other != key && StoreKey(session, other) == StoreKey(session, key) {
      StoreKeyInjective(session, other, key);
    }
  }

  /** The credentials a session starts with: the stored `creds`, or `initAuthCreds()` (here `initial`) when none can be read. */
  function InitCreds<V>(kv: KvStore<V>, session: string, initial: V): (r: V)
    ensures ReadData(kv, session, "creds").Some? ==> r == ReadData(kv, session, "creds").value
    ensures ReadData(kv, session, "creds").None? ==> r == initial
  {
    ReadData(kv, session, "creds").GetOr(initial)
  }

  /** `saveCreds()`: writes the credentials under `creds`. */
  function SaveCreds<V>(kv: KvStore<V>, session: string, creds: V): (r: KvStore<V>)
    ensures kv.up ==> r.rows == kv.rows[StoreKey(session, "creds") := Parsed(creds)]
    ensures !kv.up ==> r == kv
  {
    WriteData(kv, session, "creds", creds)
  }

  /** Saved credentials are the ones the next start of the session gets. */
  lemma SavedCredsAreRestored<V>(kv: KvStore<V>, session: string, creds: V, initial: V)
    requires kv.up
    ensures InitCreds(SaveCreds(kv, session, creds), session, initial) == creds
  {
  }

  /** `keys.get(type, ids)`: every requested id, mapped to its stored value or null; values of
      `app-state-sync-key` are passed through the protocol conversion `toProto`. */
  function KeysGet<V>(kv: KvStore<V>, session: string, category: string, ids: seq<string>, toProto: V -> V)
    : (r: map<string, Option<V>>)
    ensures r.Keys == set i | 0 <= i < |ids| :: ids[i]
    ensures forall id :: id in r ==> (r[id].Some? <==> ReadData(kv, session, SignalKey(category, id)).Some?)
    ensures forall id :: id in r && category != AppStateSyncKey ==> r[id] == ReadData(kv, session, SignalKey(category, id))
    ensures forall id :: id in r && category == AppStateSyncKey && r[id].Some? ==>
              r[id].value == toProto(ReadData(kv, session, SignalKey(category, id)).value)
  {
    map id | id in (set i | 0 <= i < |ids| :: ids[i]) ::
      var v := ReadData(kv, session, SignalKey(category, id));
      if category == AppStateSyncKey && v.Some? then Some(toProto(v.value)) else v
  }

  /** One `(category, id, value)` of the object passed to `keys.set`; a null value is a removal. */
  datatype Entry<V> = Entry(category: string, id: string, value: Option<V>)

  function EntryKey<V>(e: Entry<V>): string {
    SignalKey(e.category, e.id)
  }

  /** One entry of `keys.set`: a value is written, a null removes the row. */
  function ApplyEntry<V>(kv: KvStore<V>, session: string, e: Entry<V>): KvStore<V> {
    match e.value
    case Some(v) => WriteData(kv, session, EntryKey(e), v)
    case None => RemoveData(kv, session, EntryKey(e))
  }

  /** `keys.set(data)`: one write or removal per entry. The source issues them all at once and
      awaits them together; the model applies them one after another in the order listed, which
      is one of the orders the store may see. */
  function KeysSet<V>(kv: KvStore<V>, session: string, entries: seq<Entry<V>>): (r: KvStore<V>)
    ensures r.up == kv.up
    ensures !kv.up ==> r == kv
  {
    if entries == [] then kv
    else ApplyEntry(KeysSet(kv, session, entries[..|entries| - 1]), session, entries[|entries| - 1])
  }

  /** `keys.set` leaves every key no entry names as it was. */
  lemma {:induction false} KeysSetKeepsOthers<V>(kv: KvStore<V>, session: string, entries: seq<Entry<V>>, key: string)
    requires forall i :: 0 <= i < |entries| ==> EntryKey(entries[i]) != key
    ensures ReadData(KeysSet(kv, session, entries), session, key) == ReadData(kv, session, key)
  {
    if entries != [] {
      var prefix := entries[..|entries| - 1];
      var e := entries[|entries| - 1];
      var before := KeysSet(kv, session, prefix);
      KeysSetKeepsOthers(kv, session, prefix, key);
      if kv.up {
        match e.value {
          case Some(v) => ReadAfterWrite(before, session, EntryKey(e), key, v);
          case None =>
            if StoreKey(session, key) == StoreKey(session, EntryKey(e)) {
              StoreKeyInjective(session, key, EntryKey(e));
            }
        }
      }
    }
  }

  /** In the listed order, a key ends up with the value of the last entry naming it (nothing,
      for a null). */
  lemma {:induction false} KeysSetLastWins<V>(kv: KvStore<V>, session: string, entries: seq<Entry<V>>, i: nat)
    requires kv.up
    requires i < |entries|
    requires forall j :: i < j < |entries| ==> EntryKey(entries[j]) != EntryKey(entries[i])
    ensures ReadData(KeysSet(kv, session, entries), session, EntryKey(entries[i])) == entries[i].value
  {
    var prefix := entries[..|entries| - 1];
    var e := entries[|entries| - 1];
    var before := KeysSet(kv, session, prefix);
    if i == |entries| - 1 {
      match e.value {
        case Some(v) => ReadAfterWrite(before, session, EntryKey(e), EntryKey(e), v);
        case None =>
      }
    } else {
      KeysSetLastWins(kv, session, prefix, i);
      match e.value {
        case Some(v) => ReadAfterWrite(before, session, EntryKey(e), EntryKey(entries[i]), v);
        case None =>
          if StoreKey(session, EntryKey(entries[i])) == StoreKey(session, EntryKey(e)) {
            StoreKeyInjective(session, EntryKey(entries[i]), EntryKey(e));
          }
      }
    }
  }

  /** An entry whose key no other entry names decides that key whatever order the concurrent
      writes land in: afterwards the key holds the entry's value (nothing, for a null). */
  lemma KeysSetDistinct<V>(kv: KvStore<V>, session: string, entries: seq<Entry<V>>, i: nat)
    requires kv.up
    requires i < |entries|
    requires forall j :: 0 <= j < |entries| && j != i ==> EntryKey(entries[j]) != EntryKey(entries[i])
    ensures ReadData(KeysSet(kv, session, entries), session, EntryKey(entries[i])) == entries[i].value
  {
    KeysSetLastWins(kv, session, entries, i);
  }

  /** When no two entries name the same key, every order of the writes leaves the same reads. */
  lemma KeysSetOrderFree<V>(kv: KvStore<V>, session: string, entries: seq<Entry<V>>, other: seq<Entry<V>>, key: string)
    requires kv.up && multiset(other) == multiset(entries)
    requires forall i, j :: 0 <= i < |entries| && 0 <= j < |entries| && i != j ==> EntryKey(entries[i]) != EntryKey(entries[j])
    ensures ReadData(KeysSet(kv, session, entries), session, key) == ReadData(KeysSet(kv, session, other), session, key)
  {
    if i :| 0 <= i < |entries| && EntryKey(entries[i]) == key {
      assert entries[i] in multiset(other);
      var k :| 0 <= k < |other| && other[k] == entries[i];
      forall j | 0 <= j < |other| && j != k
        ensures EntryKey(other[j]) != key
      {
        OtherEntryElsewhere(entries, other, i, k, j);
      }
      KeysSetDistinct(kv, session, entries, i);
      KeysSetDistinct(kv, session, other, k);
    } else {
      forall j | 0 <= j < |other|
        ensures EntryKey(other[j]) != key
      {
        assert other[j] in multiset(entries);
      }
      KeysSetKeepsOthers(kv, session, entries, key);
      KeysSetKeepsOthers(kv, session, other, key);
    }
  }

  /** In a reordering of entries with distinct keys, an entry at another position than `k` is an
      entry other than `entries[i]`, so it names another key. */
  lemma OtherEntryElsewhere<V>(entries: seq<Entry<V>>, other: seq<Entry<V>>, i: nat, k: nat, j: nat)
    requires multiset(other) == multiset(entries)
    requires forall a, b :: 0 <= a < |entries| && 0 <= b < |entries| && a != b ==> EntryKey(entries[a]) != EntryKey(entries[b])
    requires i < |entries| && k < |other| && j < |other| && j != k && other[k] == entries[i]
    ensures EntryKey(other[j]) != EntryKey(entries[i])
  {
    var x := entries[i];
    OccursOnce(entries, i);
    if other[j] == x {
      // `x` would occur at both `j` and `k` in `other` but only once in `entries`.
      if j < k { OccursTwice(other, j, k); } else { OccursTwice(other, k, j); }
      assert false;
    }
    assert other[j] in multiset(entries);
    var a :| 0 <= a < |entries| && entries[a] == other[j];
  }



  /** A value set for a category other than `app-state-sync-key` is what `keys.get` returns for it. */
  lemma SetThenGet<V>(kv: KvStore<V>, session: string, category: string, id: string, v: V, toProto: V -> V)
    requires kv.up && category != AppStateSyncKey
    ensures KeysGet(KeysSet(kv, session, [Entry(category, id, Some(v))]), session, category, [id], toProto) == map[id := Some(v)]
  {
    var entries := [Entry(category, id, Some(v))];
    KeysSetLastWins(kv, session, entries, 0);
    var r := KeysGet(KeysSet(kv, session, entries), session, category, [id], toProto);
    assert (set i | 0 <= i < |[id]| :: [id][i]) == {id} by {
      assert [id][0] == id;
    }
    assert r.Keys == {id};
    assert r[id] == Some(v);
  }

  /** An app-state sync key comes back through the protocol conversion of the value set. */
  lemma SetThenGetAppState<V>(kv: KvStore<V>, session: string, id: string, v: V, toProto: V -> V)
    requires kv.up
    ensures KeysGet(KeysSet(kv, session, [Entry(AppStateSyncKey, id, Some(v))]), session, AppStateSyncKey, [id], toProto)
            == map[id := Some(toProto(v))]
  {
    var entries := [Entry(AppStateSyncKey, id, Some(v))];
    KeysSetLastWins(kv, session, entries, 0);
    var r := KeysGet(KeysSet(kv, session, entries), session, AppStateSyncKey, [id], toProto);
    assert (set i | 0 <= i < |[id]| :: [id][i]) == {id} by {
      assert [id][0] == id;
    }
    assert r.Keys == {id};
    assert r[id] == Some(toProto(v));
  }
}
