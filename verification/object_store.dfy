/** The API server as the webhooks use it: claims and templates by name, and the published slices. */
module ObjectStore {
  import opened Options
  import opened Capacities

  datatype Kind = Claim | Template

  datatype Key = Key(kind: Kind, namespace: string, name: string)

  /** A claim or template: its requests, and whether it carries the DRA label. */
  datatype Object = Object(requests: seq<Request>, labelled: bool)

  type Store = map<Key, Object>

  /** An object the webhooks create: its name and its one request. */
  datatype Entry = Entry(name: string, request: Request)

  function EntryNames(entries: seq<Entry>): (r: seq<string>)
    ensures |r| == |entries|
  {
    seq(|entries|, i requires 0 <= i < |entries| => entries[i].name)
  }

  function KeysOf(kind: Kind, namespace: string, names: seq<string>): set<Key> {
    set n | n in names :: Key(kind, namespace, n)
  }

  /** The objects created for the entries. */
  function Stored(kind: Kind, namespace: string, labelled: bool, entries: seq<Entry>): Store {
    if entries == [] then map[]
    else
      var n := |entries| - 1;
      Stored(kind, namespace, labelled, entries[..n])[
        Key(kind, namespace, entries[n].name) := Object([entries[n].request], labelled)]
  }

  /** The entries can be created one by one: their names are distinct and not taken. */
  predicate Fresh(kind: Kind, namespace: string, entries: seq<Entry>, store: Store) {
    forall i | 0 <= i < |entries| ::
      Key(kind, namespace, entries[i].name) !in store && forall j | 0 <= j < i :: entries[j].name != entries[i].name
  }

  lemma {:induction false} StoredKeys(kind: Kind, namespace: string, labelled: bool, entries: seq<Entry>)
    ensures Stored(kind, namespace, labelled, entries).Keys == KeysOf(kind, namespace, EntryNames(entries))
  {
    if entries != [] {
      var n := |entries| - 1;
      StoredKeys(kind, namespace, labelled, entries[..n]);
      assert EntryNames(entries) == EntryNames(entries[..n]) + [entries[n].name];
    }
  }

  /** Every created object holds the request of its own entry. */
  lemma {:induction false} StoredAt(kind: Kind, namespace: string, labelled: bool, entries: seq<Entry>, i: nat)
    requires i < |entries| && Fresh(kind, namespace, entries, map[])
    ensures var key := Key(kind, namespace, entries[i].name);
            var objects := Stored(kind, namespace, labelled, entries);
            key in objects && objects[key] == Object([entries[i].request], labelled)
  {
    var n := |entries| - 1;
    if i < n {
      StoredAt(kind, namespace, labelled, entries[..n], i);
      assert entries[i].name != entries[n].name;
    }
  }

  lemma {:induction false} StoredLabelled(kind: Kind, namespace: string, labelled: bool, entries: seq<Entry>)
    ensures forall k | k in Stored(kind, namespace, labelled, entries) ::
      k.kind == kind && k.namespace == namespace && Stored(kind, namespace, labelled, entries)[k].labelled == labelled
  {
    if entries != [] { StoredLabelled(kind, namespace, labelled, entries[..|entries| - 1]); }
  }

  lemma {:induction false} StoredMore(kind: Kind, namespace: string, labelled: bool, a: seq<Entry>, b: seq<Entry>)
    ensures Stored(kind, namespace, labelled, a + b)
            == Stored(kind, namespace, labelled, a) + Stored(kind, namespace, labelled, b)
  {
    if b == [] {
      assert a + b == a;
    } else {
      var n := |b| - 1;
      StoredMore(kind, namespace, labelled, a, b[..n]);
      assert (a + b)[..|a| + n] == a + b[..n];
    }
  }

  /** Entries are fresh together when the second are fresh once the first are stored. */
  lemma FreshMore(kind: Kind, namespace: string, labelled: bool, a: seq<Entry>, b: seq<Entry>, store: Store)
    requires Fresh(kind, namespace, a, store)
    ensures Fresh(kind, namespace, a + b, store)
            <==> Fresh(kind, namespace, b, store + Stored(kind, namespace, labelled, a))
  {
    hide Stored;
    StoredKeys(kind, namespace, labelled, a);
    var now := store + Stored(kind, namespace, labelled, a);
    var all := a + b;
    forall i | 0 <= i < |b|
      ensures Key(kind, namespace, b[i].name) in now
              <==> Key(kind, namespace, b[i].name) in store || exists j | 0 <= j < |a| :: a[j].name == b[i].name
    {
      assert Key(kind, namespace, b[i].name) in KeysOf(kind, namespace, EntryNames(a)) <==> b[i].name in EntryNames(a);
      assert forall j | 0 <= j < |a| :: EntryNames(a)[j] == a[j].name;
    }
    assert forall i | 0 <= i < |a| :: all[i] == a[i];
    assert forall i | 0 <= i < |b| :: all[|a| + i] == b[i];
    if Fresh(kind, namespace, b, now) {
      forall i | |a| <= i < |all|
        ensures Key(kind, namespace, all[i].name) !in store && forall j | 0 <= j < i :: all[j].name != all[i].name
      {
        assert all[i] == b[i - |a|];
        assert forall j | |a| <= j < i :: all[j] == b[j - |a|];
      }
    }
    if Fresh(kind, namespace, all, store) {
      forall i | 0 <= i < |b|
        ensures Key(kind, namespace, b[i].name) !in now && forall j | 0 <= j < i :: b[j].name != b[i].name
      {
        assert all[|a| + i] == b[i] && forall j | 0 <= j < i :: all[|a| + j] == b[j];
      }
    }
  }

  /** Creating the second entries on top of the first is creating all of them. */
  lemma CreatedMore(kind: Kind, namespace: string, labelled: bool, a: seq<Entry>, b: seq<Entry>, store: Store)
    requires Fresh(kind, namespace, a, store)
    requires Fresh(kind, namespace, b, store + Stored(kind, namespace, labelled, a))
    ensures Fresh(kind, namespace, a + b, store)
    ensures store + Stored(kind, namespace, labelled, a) + Stored(kind, namespace, labelled, b)
            == store + Stored(kind, namespace, labelled, a + b)
    ensures EntryNames(a + b) == EntryNames(a) + EntryNames(b)
  {
    hide Fresh, Stored;
    FreshMore(kind, namespace, labelled, a, b, store);
    StoredMore(kind, namespace, labelled, a, b);
  }

  lemma FreshPrefix(kind: Kind, namespace: string, a: seq<Entry>, b: seq<Entry>, store: Store)
    requires Fresh(kind, namespace, a + b, store)
    ensures Fresh(kind, namespace, a, store)
  {
    assert forall i | 0 <= i < |a| :: (a + b)[i] == a[i];
  }

  /** Deleting what was created restores the store. */
  lemma Undone(kind: Kind, namespace: string, labelled: bool, entries: seq<Entry>, store: Store)
    requires Fresh(kind, namespace, entries, store)
    ensures (store + Stored(kind, namespace, labelled, entries)) - KeysOf(kind, namespace, EntryNames(entries)) == store
  {
    hide Stored;
    StoredKeys(kind, namespace, labelled, entries);
  }

  lemma UndoneAlready(kind: Kind, namespace: string, entries: seq<Entry>, store: Store)
    requires Fresh(kind, namespace, entries, store)
    ensures store - KeysOf(kind, namespace, EntryNames(entries)) == store
  {
  }

  lemma NothingStored(kind: Kind, namespace: string, labelled: bool)
    ensures Stored(kind, namespace, labelled, []) == map[]
  {
  }

  /** One more object, created under a name that is not taken. */
  lemma StoredOneMore(kind: Kind, namespace: string, labelled: bool, entries: seq<Entry>, e: Entry, store: Store)
    requires Fresh(kind, namespace, entries, store)
    ensures var now, key := store + Stored(kind, namespace, labelled, entries), Key(kind, namespace, e.name);
            && (Fresh(kind, namespace, entries + [e], store) <==> key !in now)
            && now[key := Object([e.request], labelled)]
               == store + Stored(kind, namespace, labelled, entries + [e])
  {
    FreshMore(kind, namespace, labelled, entries, [e], store);
    assert [e][0] == e;
    assert (entries + [e])[..|entries|] == entries;
  }

  /** Deleting what was created now, along with what was created before, leaves only the rest. */
  lemma CleanedUp(kind: Kind, namespace: string, labelled: bool, before: seq<string>, entries: seq<Entry>, store: Store)
    requires Fresh(kind, namespace, entries, store)
    ensures (store + Stored(kind, namespace, labelled, entries)) - KeysOf(kind, namespace, before + EntryNames(entries))
            == store - KeysOf(kind, namespace, before)
  {
    hide Stored;
    Undone(kind, namespace, labelled, entries, store);
    var now := store + Stored(kind, namespace, labelled, entries);
    var a, b := KeysOf(kind, namespace, before), KeysOf(kind, namespace, EntryNames(entries));
    assert KeysOf(kind, namespace, before + EntryNames(entries)) == b + a;
    assert now - (b + a) == now - b - a;
  }

  class ApiServer {
    // A reliable server only refuses to create an object whose name is taken.
    const reliable: bool
    // What a listing of the ResourceSlices returns; None if it fails.
    const slices: Option<seq<DriverSlice>>
    var objects: Store

    constructor (reliable: bool, slices: Option<seq<DriverSlice>>, objects: Store)
      ensures this.reliable == reliable && this.slices == slices && this.objects == objects
    {
      this.reliable, this.slices, this.objects := reliable, slices, objects;
    }

    method Create(key: Key, object': Object) returns (ok: bool)
      modifies this
      ensures ok ==> key !in old(objects) && objects == old(objects)[key := object']
      ensures !ok ==> objects == old(objects)
      ensures reliable && key !in old(objects) ==> ok
    {
      if key in objects { return false; }
      if !reliable {
        if * { return false; }
      }
      objects := objects[key := object'];
      return true;
    }

    method Delete(key: Key)
      modifies this
      ensures objects == old(objects) - {key}
    {
      objects := objects - {key};
    }

    /** The clean-up loop of both webhooks. */
    method DeleteAll(kind: Kind, namespace: string, names: seq<string>)
      modifies this
      ensures objects == old(objects) - KeysOf(kind, namespace, names)
    {
      for i := 0 to |names|
        invariant objects == old(objects) - KeysOf(kind, namespace, names[..i])
      {
        assert names[..i + 1] == names[..i] + [names[i]];
        Delete(Key(kind, namespace, names[i]));
      }
      assert names[..|names|] == names;
    }
  }
}
