/**
 Stability of reconciled secrets.  A memoised answer is settled when recomputing it from the stored object
 and the other memoised answers reproduces exactly that object and that answer.
 */
module SecretFixedPoint {
  import opened GoStrings
  import opened Secrets
  import opened SecretStore
  import opened SecretEvaluation

  /** Where the specification leaves a template entry blank, the stored text is rendered again; it must be inert. */
  ghost predicate NoStale(spec: Spec, store: Store) {
    forall n, k {:trigger Inert(spec, Get(DataOf(EntryOf(store, spec.app, n)), k))} ::
      Recursive(spec, n) && k in spec.defs[n].keys && Get(spec.defs[n].data, k) == "" ==>
      Inert(spec, Get(DataOf(EntryOf(store, spec.app, n)), k))
  }

  lemma NoStaleKept(spec: Spec, stack: seq<string>, st: State, st': State)
    requires NoStale(spec, st.store) && Keeps(spec, stack, st, st')
    ensures NoStale(spec, st'.store)
  {
    forall n, k | Recursive(spec, n) && k in spec.defs[n].keys && Get(spec.defs[n].data, k) == ""
      ensures Inert(spec, Get(DataOf(EntryOf(st'.store, spec.app, n)), k))
    {
      assert Inert(spec, Get(DataOf(EntryOf(st.store, spec.app, n)), k));
      assert EntryOf(st'.store, spec.app, n) == EntryOf(st.store, spec.app, n) ||
             Rewritten(spec, spec.defs[n], EntryOf(st.store, spec.app, n), EntryOf(st'.store, spec.app, n));
    }
  }

  // ---------- Rendering from memoised answers only ----------

  function MemoRef(spec: Spec, memo: map<string, Data>, n: string): Option<Data> {
    if n in memo then Some(memo[n])
    else if OriginOf(spec, n).Context? then spec.context(OriginOf(spec, n).reference)
    else None
  }

  function MemoSegment(spec: Spec, memo: map<string, Data>, seg: Segment): Option<string> {
    match seg
    case Text(t) => Some(t)
    case Reference(n, key) =>
      var d := MemoRef(spec, memo, n);
      if d.Some? && Get(d.value, key) != "" then Some(Get(d.value, key)) else None
  }

  function MemoSegments(spec: Spec, memo: map<string, Data>, segs: seq<Segment>): Option<string> {
    if segs == [] then Some("") else
      var head, rest := MemoSegment(spec, memo, segs[0]), MemoSegments(spec, memo, segs[1..]);
      if head.Some? && rest.Some? then Some(head.value + rest.value) else None
  }

  function MemoEntry(spec: Spec, memo: map<string, Data>, text: string): Option<string> {
    var t := MemoSegments(spec, memo, spec.segments(text));
    if t.None? then None else spec.finish(t.value)
  }

  ghost predicate MemoRenders(spec: Spec, memo: map<string, Data>, texts: Data, keys: seq<string>, data: Data) {
    && data.Keys == Elements(keys)
    && forall k :: k in keys ==> MemoEntry(spec, memo, Get(texts, k)) == Some(Get(data, k))
  }

  lemma {:induction false} MemoSegmentsMonotone(spec: Spec, m: map<string, Data>, m': map<string, Data>, segs: seq<Segment>)
    requires MemoGrows(m, m') && MemoSegments(spec, m, segs).Some?
    requires forall n :: n in m' ==> !OriginOf(spec, n).Context?
    ensures MemoSegments(spec, m', segs) == MemoSegments(spec, m, segs)
  {
    if segs != [] {
      MemoSegmentsMonotone(spec, m, m', segs[1..]);
    }
  }

  lemma MemoRendersCons(spec: Spec, memo: map<string, Data>, texts: Data, keys: seq<string>, data: Data, text: string)
    requires keys != [] && MemoRenders(spec, memo, texts, keys[1..], data)
    requires MemoEntry(spec, memo, Get(texts, keys[0])) == Some(text)
    ensures MemoRenders(spec, memo, texts, keys, data[keys[0] := text])
  {
    assert forall k :: k in keys <==> k == keys[0] || k in keys[1..];
  }

  // ---------- Settled answers ----------

  /** Regenerating from the stored data reproduces it, without drawing new values. */
  ghost predicate FixedData(spec: Spec, memo: map<string, Data>, name: string, def: SecretDef, data: Data) {
    match def.kind
    case Opaque => Seed(Some(data), def.data, def.keys) == data
    case Basic => Seed(Some(data), def.data, [USERNAME, PASSWORD]) == data && Get(data, USERNAME) != "" && Get(data, PASSWORD) != ""
    case Token => Seed(Some(data), def.data, [TOKEN]) == data && (Get(data, TOKEN) != "" || def.length == Some(0))
    case Generated => spec.jobOutput(name) == Some(data)
    case Template => spec.pullable && MemoRenders(spec, memo, Seed(Some(data), def.data, def.keys), def.keys, data)
    case Unknown => false
  }

  ghost predicate Settled(spec: Spec, store: Store, memo: map<string, Data>, n: string, answer: Data) {
    match OriginOf(spec, n)
    case Context(_) => false
    case External(ns, reference) => spec.lookup(ns, reference) == Some(answer)
    case Local =>
      n in spec.defs &&
      var e := EntryOf(store, spec.app, n);
      && e.Some?
      && e.value.obj.labels == spec.labelsFor(n)
      && e.value.obj.annotations == spec.annotationsFor(n)
      && spec.decrypt(e.value.obj.data) == Some(answer)
      && FixedData(spec, memo, n, spec.defs[n], e.value.obj.data)
  }

  ghost predicate AllSettled(spec: Spec, store: Store, memo: map<string, Data>) {
    forall n {:trigger Settled(spec, store, memo, n, memo[n])} :: n in memo ==> Settled(spec, store, memo, n, memo[n])
  }

  lemma SettledMonotone(spec: Spec, store: Store, m: map<string, Data>, store': Store, m': map<string, Data>, n: string, answer: Data)
    requires Settled(spec, store, m, n, answer) && MemoGrows(m, m')
    requires forall n' :: n' in m' ==> !OriginOf(spec, n').Context?
    requires EntryOf(store', spec.app, n) == EntryOf(store, spec.app, n)
    ensures Settled(spec, store', m', n, answer)
  {
    if OriginOf(spec, n).Local? && spec.defs[n].kind.Template? {
      var def := spec.defs[n];
      var data := EntryOf(store, spec.app, n).value.obj.data;
      var texts := Seed(Some(data), def.data, def.keys);
      forall k | k in def.keys ensures MemoEntry(spec, m', Get(texts, k)) == Some(Get(data, k)) {
        assert MemoEntry(spec, m, Get(texts, k)) == Some(Get(data, k));
        MemoSegmentsMonotone(spec, m, m', spec.segments(Get(texts, k)));
      }
    }
  }

  lemma SettledNotContext(spec: Spec, store: Store, memo: map<string, Data>)
    requires AllSettled(spec, store, memo)
    ensures forall n :: n in memo ==> !OriginOf(spec, n).Context?
  {
    forall n | n in memo ensures !OriginOf(spec, n).Context? {
      assert Settled(spec, store, memo, n, memo[n]);
    }
  }

  lemma AllSettledKept(spec: Spec, st: State, st': State, stack: seq<string>)
    requires AllSettled(spec, st.store, st.memo) && Keeps(spec, stack, st, st') && st'.memo == st.memo
    ensures AllSettled(spec, st'.store, st'.memo)
  {
    SettledNotContext(spec, st.store, st.memo);
    forall n | n in st'.memo ensures Settled(spec, st'.store, st'.memo, n, st'.memo[n]) {
      assert EntryOf(st'.store, spec.app, n) == EntryOf(st.store, spec.app, n);
      SettledMonotone(spec, st.store, st.memo, st'.store, st'.memo, n, st.memo[n]);
    }
  }

  lemma AllSettledAdd(spec: Spec, store: Store, memo: map<string, Data>, n: string, answer: Data)
    requires AllSettled(spec, store, memo) && Settled(spec, store, memo, n, answer) && n !in memo
    ensures AllSettled(spec, store, memo[n := answer])
  {
    var m' := memo[n := answer];
    SettledNotContext(spec, store, memo);
    forall n' | n' in m' ensures Settled(spec, store, m', n', m'[n']) {
      SettledMonotone(spec, store, memo, store, m', n', m'[n']);
    }
  }

  /** Seeding from data that already honours the specification changes nothing. */
  lemma SeedFixed(from: Data, keys: seq<string>, data: Data)
    requires data.Keys == Elements(keys)
    requires forall k :: k in keys && k in from && from[k] != "" ==> data[k] == from[k]
    ensures Seed(Some(data), from, keys) == data
  {
  }

  lemma BasicDataFixed(w: World, draws: nat, def: SecretDef, prior: Option<Data>)
    ensures var d := BasicData(w, draws, Seed(prior, def.data, [USERNAME, PASSWORD]));
            d.Ok? ==> Seed(Some(d.value), def.data, [USERNAME, PASSWORD]) == d.value && Get(d.value, USERNAME) != "" && Get(d.value, PASSWORD) != ""
  {
    var seeded := Seed(prior, def.data, [USERNAME, PASSWORD]);
    BasicKept(w, draws, seeded);
    var d := BasicData(w, draws, seeded);
    if d.Ok? {
      assert Elements([USERNAME, PASSWORD]) == {USERNAME, PASSWORD};
      forall k | k in [USERNAME, PASSWORD] && k in def.data && def.data[k] != "" ensures d.value[k] == def.data[k] {
        assert seeded[k] == def.data[k];
      }
      SeedFixed(def.data, [USERNAME, PASSWORD], d.value);
    }
  }

  lemma TokenDataFixed(w: World, draws: nat, def: SecretDef, prior: Option<Data>)
    ensures var d := TokenData(w, draws, def, Seed(prior, def.data, [TOKEN]));
            d.Ok? ==> Seed(Some(d.value), def.data, [TOKEN]) == d.value && (Get(d.value, TOKEN) != "" || def.length == Some(0))
  {
    var seeded := Seed(prior, def.data, [TOKEN]);
    TokenKept(w, draws, def, seeded);
    var d := TokenData(w, draws, def, seeded);
    if d.Ok? {
      assert Elements([TOKEN]) == {TOKEN};
      SeedFixed(def.data, [TOKEN], d.value);
    }
  }

  lemma PlainDataFixed(spec: Spec, w: World, draws: nat, name: string, prior: Option<Data>, memo: map<string, Data>)
    requires spec.Valid() && name in spec.defs && !spec.defs[name].kind.Template?
    ensures var d := PlainData(spec, w, draws, name, spec.defs[name], prior);
            d.Ok? ==> FixedData(spec, memo, name, spec.defs[name], d.value)
  {
    var def := spec.defs[name];
    match def.kind
    case Opaque => SeedFixed(def.data, def.keys, Seed(prior, def.data, def.keys));
    case Basic => BasicDataFixed(w, draws, def, prior);
    case Token => TokenDataFixed(w, draws, def, prior);
    case _ =>
  }

  /** A settled secret is regenerated to the data it has, whatever the entropy. */
  lemma FixedDataReplays(spec: Spec, w: World, draws: nat, name: string, memo: map<string, Data>, data: Data)
    requires name in spec.defs && !spec.defs[name].kind.Template? && FixedData(spec, memo, name, spec.defs[name], data)
    ensures PlainData(spec, w, draws, name, spec.defs[name], Some(data)) == Ok(data)
  {
    var def := spec.defs[name];
    if def.kind.Token? && Get(data, TOKEN) == "" {
      assert data[TOKEN := ""] == data;
    }
  }

  /** The texts a template was rendered from are the ones it will be rendered from again. */
  lemma TextsFixed(spec: Spec, store: Store, name: string, data: Data)
    requires spec.Valid() && Recursive(spec, name) && NoStale(spec, store)
    requires forall k :: k in spec.defs[name].keys && Inert(spec, Get(Texts(spec, store, name), k)) ==> Get(data, k) == Get(Texts(spec, store, name), k)
    ensures Seed(Some(data), spec.defs[name].data, spec.defs[name].keys) == Texts(spec, store, name)
  {
    var def := spec.defs[name];
    var texts := Texts(spec, store, name);
    forall k | k in def.keys ensures SeedValue(Some(data), def.data, k) == Get(texts, k) {
      assert k in def.data;
      if def.data[k] == "" {
        assert Inert(spec, Get(DataOf(EntryOf(store, spec.app, name)), k));
      }
    }
  }
}
