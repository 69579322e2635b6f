/** Effects of secret evaluation on the store: what one write changes, and what a whole evaluation keeps. */
module SecretStore {
  import opened GoStrings
  import opened Secrets

  /** At most one object answers to the lookup labels of an app's secret. */
  ghost predicate Unique(store: Store) {
    forall app, name, u, v ::
      u in store && v in store && Selects(app, name, store[u]) && Selects(app, name, store[v]) ==> u == v
  }

  datatype Entry = Entry(uid: nat, obj: SecretObj)

  ghost function EntryOf(store: Store, app: App, name: string): Option<Entry> {
    var u := Find(store, app, name);
    if u.None? then None else Some(Entry(u.value, store[u.value]))
  }

  ghost function DataOf(e: Option<Entry>): Data { if e.Some? then e.value.obj.data else map[] }

  /** The keys whose values, once generated, outlive later passes. */
  function StickyKeys(kind: Kind): set<string> {
    match kind
    case Token => {TOKEN}
    case Basic => {USERNAME, PASSWORD}
    case _ => {}
  }

  /** A rewritten secret keeps its generated values unless the specification supplies one, and inert text where the template is blank. */
  ghost predicate DataKept(spec: Spec, def: SecretDef, before: Data, after: Data) {
    && (forall k :: k in StickyKeys(def.kind) && Get(before, k) != "" ==>
          Get(after, k) == Get(before, k) || (Get(def.data, k) != "" && Get(after, k) == Get(def.data, k)))
    && (def.kind.Template? ==>
          forall k :: k in def.keys && Get(def.data, k) == "" && Inert(spec, Get(before, k)) ==> Get(after, k) == Get(before, k))
  }

  ghost predicate Rewritten(spec: Spec, def: SecretDef, before: Option<Entry>, after: Option<Entry>) {
    && after.Some?
    && (before.Some? ==> after.value.uid == before.value.uid)
    && DataKept(spec, def, DataOf(before), DataOf(after))
  }

  /** Only unprotected secrets of the app itself change, each in the permitted way. */
  ghost predicate Evolves(spec: Spec, protected: set<string>, s: Store, s': Store) {
    && (Unique(s) ==> Unique(s'))
    && forall app, n {:trigger EntryOf(s', app, n)} :: EntryOf(s', app, n) == EntryOf(s, app, n) ||
         (app == spec.app && n in spec.defs && n !in protected &&
          Rewritten(spec, spec.defs[n], EntryOf(s, app, n), EntryOf(s', app, n)))
  }

  lemma EvolvesTransitive(spec: Spec, p: set<string>, q: set<string>, s0: Store, s1: Store, s2: Store)
    requires Evolves(spec, p, s0, s1) && Evolves(spec, q, s1, s2) && p <= q
    ensures Evolves(spec, p, s0, s2)
  {
    forall app, n
      ensures EntryOf(s2, app, n) == EntryOf(s0, app, n) ||
              (app == spec.app && n in spec.defs && n !in p &&
               Rewritten(spec, spec.defs[n], EntryOf(s0, app, n), EntryOf(s2, app, n)))
    {
      assert EntryOf(s1, app, n) == EntryOf(s1, app, n);
      assert EntryOf(s1, app, n) == EntryOf(s0, app, n) ||
             (app == spec.app && n in spec.defs && n !in p &&
              Rewritten(spec, spec.defs[n], EntryOf(s0, app, n), EntryOf(s1, app, n)));
      assert EntryOf(s2, app, n) == EntryOf(s1, app, n) ||
             (app == spec.app && n in spec.defs && n !in q &&
              Rewritten(spec, spec.defs[n], EntryOf(s1, app, n), EntryOf(s2, app, n)));
    }
  }

  /** An object answers to one app and name at most. */
  lemma SelectsInjective(o: SecretObj, app: App, name: string, app': App, name': string)
    requires Selects(app, name, o) && Selects(app', name', o)
    ensures app == app' && name == name'
  {
  }

  /** A written object answers to its own app and name, and to no other. */
  lemma WrittenObjectIdentity(spec: Spec, name: string, o: SecretObj, app: App, other: string)
    requires spec.Valid() && name in spec.defs && o.namespace == spec.app.namespace && o.labels == spec.labelsFor(name)
    ensures Selects(app, other, o) <==> app == spec.app && other == name
  {
    assert Selects(spec.app, name, o);
    if Selects(app, other, o) {
      SelectsInjective(o, app, other, spec.app, name);
    }
  }

  lemma FindIs(store: Store, app: App, name: string, u: nat)
    requires u in store && Selects(app, name, store[u])
    requires forall v :: v in store && Selects(app, name, store[v]) ==> u <= v
    ensures Find(store, app, name) == Some(u)
  {
  }

  lemma FindNone(store: Store, app: App, name: string)
    requires forall v :: v in store ==> !Selects(app, name, store[v])
    ensures Find(store, app, name) == None
  {
  }

  lemma EntryWritten(store: Store, uid: nat, o: SecretObj, app: App, n: string)
    requires Selects(app, n, o)
    requires Find(store, app, n) == if uid in store then Some(uid) else None
    ensures Find(store[uid := o], app, n) == Some(uid)
  {
    FindIs(store[uid := o], app, n, uid);
  }

  lemma EntryUntouched(store: Store, uid: nat, o: SecretObj, app: App, n: string)
    requires !Selects(app, n, o) && (uid !in store || !Selects(app, n, store[uid]))
    ensures EntryOf(store[uid := o], app, n) == EntryOf(store, app, n)
  {
    var f := Find(store, app, n);
    if f.Some? {
      FindIs(store[uid := o], app, n, f.value);
    } else {
      FindNone(store[uid := o], app, n);
    }
  }

  /** The store after one write of a secret object. */
  ghost function Put(spec: Spec, store: Store, uid: nat, name: string, data: Data): Store {
    store[uid := SecretObj(spec.app.namespace, spec.labelsFor(name), spec.annotationsFor(name), data)]
  }

  ghost function TargetUid(spec: Spec, w: World, store: Store, name: string): nat {
    var e := Find(store, spec.app, name);
    if e.Some? then e.value else w.newUid(store)
  }

  /** The object overwritten by a write answered to nobody but its own app and name. */
  lemma TargetIsOwn(spec: Spec, w: World, store: Store, name: string, app: App, n: string)
    requires w.Valid() && (app != spec.app || n != name)
    ensures var uid := TargetUid(spec, w, store, name); uid !in store || !Selects(app, n, store[uid])
  {
    var uid := TargetUid(spec, w, store, name);
    if uid in store && Selects(app, n, store[uid]) {
      SelectsInjective(store[uid], app, n, spec.app, name);
    }
  }

  /** A write changes the entry it is for, and no other entry of any app. */
  lemma PutEntries(spec: Spec, w: World, store: Store, name: string, data: Data, app: App, n: string)
    requires spec.Valid() && w.Valid() && name in spec.defs
    ensures var uid := TargetUid(spec, w, store, name);
            var s' := Put(spec, store, uid, name, data);
            if app == spec.app && n == name then Find(s', app, n) == Some(uid) && s'[uid].data == data
            else EntryOf(s', app, n) == EntryOf(store, app, n)
  {
    var uid := TargetUid(spec, w, store, name);
    var s' := Put(spec, store, uid, name, data);
    var o := s'[uid];
    WrittenObjectIdentity(spec, name, o, app, n);
    if app == spec.app && n == name {
      EntryWritten(store, uid, o, app, n);
    } else {
      TargetIsOwn(spec, w, store, name, app, n);
      EntryUntouched(store, uid, o, app, n);
    }
  }

  lemma PutUnique(spec: Spec, w: World, store: Store, name: string, data: Data)
    requires spec.Valid() && w.Valid() && name in spec.defs && Unique(store)
    ensures Unique(Put(spec, store, TargetUid(spec, w, store, name), name, data))
  {
    var uid := TargetUid(spec, w, store, name);
    var s' := Put(spec, store, uid, name, data);
    forall app, n, u, v | u in s' && v in s' && Selects(app, n, s'[u]) && Selects(app, n, s'[v]) ensures u == v {
      WrittenObjectIdentity(spec, name, s'[uid], app, n);
      assert (u != uid ==> s'[u] == store[u]) && (v != uid ==> s'[v] == store[v]);
    }
  }

  lemma PutEvolves(spec: Spec, w: World, store: Store, name: string, data: Data, protected: set<string>)
    requires spec.Valid() && w.Valid() && name in spec.defs && name !in protected
    requires DataKept(spec, spec.defs[name], DataOf(EntryOf(store, spec.app, name)), data)
    ensures Evolves(spec, protected, store, Put(spec, store, TargetUid(spec, w, store, name), name, data))
  {
    var s' := Put(spec, store, TargetUid(spec, w, store, name), name, data);
    if Unique(store) { PutUnique(spec, w, store, name, data); }
    forall app, n
      ensures EntryOf(s', app, n) == EntryOf(store, app, n) ||
              (app == spec.app && n in spec.defs && n !in protected &&
               Rewritten(spec, spec.defs[n], EntryOf(store, app, n), EntryOf(s', app, n)))
    {
      PutEntries(spec, w, store, name, data, app, n);
    }
  }

  /** `updateOrCreate` leaves the store alone, or writes the object of its own secret once. */
  lemma SaveStore(spec: Spec, w: World, st: State, name: string, data: Data)
    ensures var s := Save(spec, w, st, name, Find(st.store, spec.app, name), data);
            && s.st.memo == st.memo
            && (s.st.store == st.store || s.st.store == Put(spec, st.store, TargetUid(spec, w, st.store, name), name, data))
  {
  }

  lemma SaveEvolves(spec: Spec, w: World, st: State, name: string, data: Data, protected: set<string>)
    requires spec.Valid() && w.Valid() && name in spec.defs && name !in protected
    requires DataKept(spec, spec.defs[name], DataOf(EntryOf(st.store, spec.app, name)), data)
    ensures Evolves(spec, protected, st.store, Save(spec, w, st, name, Find(st.store, spec.app, name), data).st.store)
  {
    SaveStore(spec, w, st, name, data);
    PutEvolves(spec, w, st.store, name, data, protected);
  }
}
