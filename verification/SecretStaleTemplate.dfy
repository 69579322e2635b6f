/**
 Why the fixed point needs a premise, and exactly which.  A template entry that the specification leaves
 blank is rendered from its stored text, so text that came out of one pass is a template for the next.
 */
module SecretStaleTemplate {
  import opened GoStrings
  import opened Secrets
  import opened SecretStore
  import opened SecretEvaluation
  import opened SecretFixedPoint
  import opened SecretSettling
  import opened SecretReplay
  import opened SecretSecondPass
  import opened SecretTheorems

  /** Text "A" asks for key x of secret a, whose value is "B"; "B" asks for key x of b, whose value is "v". */
  function StaleSpec(): Spec {
    Spec(App("ns", "app"), "",
         map["t" := SecretDef(Template, map["k" := ""], ["k"], None, "", map[], map[], "", "")],
         [Binding("a", "ra"), Binding("b", "rb")],
         (n: string) => LabelsForSecret(App("ns", "app"), n, map[], map[], [], ""),
         (n: string) => map[],
         (ns: string, r: string) => if r == "ra" then Some(map["x" := "B"]) else if r == "rb" then Some(map["x" := "v"]) else None,
         (r: string) => None,
         true,
         (t: string) => if t == "" then [] else if t == "A" then [Reference("a", "x")] else if t == "B" then [Reference("b", "x")] else [Text(t)],
         (t: string) => Some(t),
         (d: Data) => Some(d),
         (n: string) => None)
  }

  function StaleObject(text: string): SecretObj {
    SecretObj("ns", LabelsForSecret(App("ns", "app"), "t", map[], map[], [], ""), map[], map["k" := text])
  }

  lemma StaleSpecValid()
    ensures StaleSpec().Valid()
  {
    forall n ensures HasLookupLabels(App("ns", "app"), n, StaleSpec().labelsFor(n)) {
      LookupLabelsSurvive(App("ns", "app"), n, map[], map[], [], "");
    }
  }

  /** The references of the two texts are answered from outside the store. */
  lemma StaleReference(w: World, depth: nat, st: State, text: string)
    requires StaleSpec().Valid() && depth > 0 && (text == "A" || text == "B") && st.memo == map[]
    ensures var r := if text == "A" then "a" else "b";
            var s := GetOrCreate(StaleSpec(), w, depth, st, r);
            s.answer == Ok(map["x" := if text == "A" then "B" else "v"]) && s.st.store == st.store && s.st.writes == st.writes
  {
    var spec := StaleSpec();
    var bs := spec.bindings;
    assert bs[..1] == [Binding("a", "ra")];
    assert LastBinding(bs[..1], "a") == "ra";
    assert OriginOf(spec, "a") == External("ns", "ra") && OriginOf(spec, "b") == External("ns", "rb");
  }

  /** One pass replaces the stored text by the value its reference names. */
  lemma StalePass(w: World, text: string, next: string)
    requires StaleSpec().Valid() && w.Valid() && ApiUp(w)
    requires (text == "A" && next == "B") || (text == "B" && next == "v")
    ensures var st := Start(map[0 := StaleObject(text)]);
            var st' := Pass(StaleSpec(), w, 3, st, ["t"]);
            && PassOk(StaleSpec(), w, 3, st, ["t"])
            && st'.store == map[0 := StaleObject(next)] && st'.writes == ["t"]
  {
    var st := Start(map[0 := StaleObject(text)]);
    StaleGenerate(w, st.(calls := 1), text, next);
    StaleOrigin();
    GetsTemplate(StaleSpec(), w, 3, st, "t");
    PassOfOne(StaleSpec(), w, 3, st, "t");
  }

  lemma StaleOrigin()
    ensures OriginOf(StaleSpec(), "t") == Local
  {
    var bs := StaleSpec().bindings;
    assert LastBinding(bs[..0], "t") == "" && LastBinding(bs[..1], "t") == "";
  }

  lemma StaleGenerate(w: World, st: State, text: string, next: string)
    requires StaleSpec().Valid() && ApiUp(w) && st.memo == map[] && st.store == map[0 := StaleObject(text)]
    requires (text == "A" && next == "B") || (text == "B" && next == "v")
    ensures var s := GenerateTemplate(StaleSpec(), w, 3, st, "t");
            s.answer == Ok(map["k" := next]) && s.st.store == map[0 := StaleObject(next)] && s.st.writes == st.writes + ["t"]
  {
    LookupLabelsSurvive(App("ns", "app"), "t", map[], map[], [], "");
    FindIs(st.store, App("ns", "app"), "t", 0);
    StaleText(st.store, text);
    StaleRender(w, st, text, next);
    StaleSave(w, st.store, text, next);
  }

  lemma StaleText(store: Store, text: string)
    requires Find(store, App("ns", "app"), "t") == Some(0) && store[0] == StaleObject(text) && text != ""
    ensures Texts(StaleSpec(), store, "t") == map["k" := text]
  {
  }

  lemma StaleRender(w: World, st: State, text: string, next: string)
    requires StaleSpec().Valid() && st.memo == map[] && ((text == "A" && next == "B") || (text == "B" && next == "v"))
    ensures var s := RenderEntries(StaleSpec(), w, 3, st, map["k" := text], ["k"]);
            s.answer == Ok(map["k" := next]) && s.st.store == st.store && s.st.writes == st.writes
  {
    var spec := StaleSpec();
    StaleReference(w, 2, st, text);
    var segs := spec.segments(text);
    assert segs[1..] == [] && ["k"][1..] == [];
    var head := RenderSegment(spec, w, 3, st, segs[0]);
    assert head.answer == Ok(next);
    assert RenderSegments(spec, w, 3, head.st, segs[1..]) == Step(Ok(""), head.st);
    assert next + "" == next;
    assert RenderSegments(spec, w, 3, st, segs) == Step(Ok(next), head.st);
    assert RenderEntries(spec, w, 3, head.st, map["k" := text], ["k"][1..]) == Step(Ok(map[]), head.st);
  }

  lemma StaleSave(w: World, store: Store, text: string, next: string)
    requires ApiUp(w) && store == map[0 := StaleObject(text)] && text != next
    ensures forall st: State :: st.store == store ==>
              var s := Save(StaleSpec(), w, st, "t", Some(0), map["k" := next]);
              s.answer == Ok(map["k" := next]) && s.st.store == map[0 := StaleObject(next)] && s.st.writes == st.writes + ["t"]
  {
    assert (map["k" := next])["k"] != (map["k" := text])["k"];
  }

  /** Two successful passes with the same specification, and the second one writes. */
  lemma StaleTemplateIsNoFixedPoint(w: World)
    requires w.Valid() && ApiUp(w)
    ensures StaleSpec().Valid()
    ensures var store: Store := map[0 := StaleObject("A")];
            var one := Pass(StaleSpec(), w, 3, Start(store), ["t"]);
            PassOk(StaleSpec(), w, 3, Start(store), ["t"]) &&
            Pass(StaleSpec(), w, 3, Start(one.store), ["t"]).writes == ["t"]
  {
    StaleSpecValid();
    StalePass(w, "A", "B");
    StalePass(w, "B", "v");
  }

  // ---------- Exactly when a pass is a fixed point ----------

  /** The same app with the same specification, over an environment in which the same texts are inert; its answers may differ. */
  ghost predicate SameApp(spec: Spec, other: Spec) {
    && other.app == spec.app && other.statusNamespace == spec.statusNamespace
    && other.defs == spec.defs && other.bindings == spec.bindings
    && other.labelsFor == spec.labelsFor && other.annotationsFor == spec.annotationsFor
    && forall t :: Inert(other, t) <==> Inert(spec, t)
  }

  /** If a first pass answers every name, a second one writes nothing. */
  ghost predicate SecondPassIdle(spec: Spec, store: Store, w: World, depth: nat, names: seq<string>, w': World, depth': nat)
    requires spec.Valid()
  {
    PassOk(spec, w, depth, Start(store), names) ==>
      Pass(spec, w', depth', Start(Pass(spec, w, depth, Start(store), names).store), names).writes == []
  }

  ghost predicate FixedPointInEveryEnvironment(spec: Spec, store: Store) {
    forall other: Spec, w: World, depth: nat, names, w': World, depth': nat {:trigger SecondPassIdle(other, store, w, depth, names, w', depth')} ::
      SameApp(spec, other) && other.Valid() && w.Valid() ==> SecondPassIdle(other, store, w, depth, names, w', depth')
  }

  /** The object of secret `x` has text to be rendered under its key `k`, which the specification leaves blank. */
  ghost predicate Stale(spec: Spec, store: Store, x: string, k: string) {
    && Recursive(spec, x) && k in spec.defs[x].keys && Get(spec.defs[x].data, k) == ""
    && !Inert(spec, Get(DataOf(EntryOf(store, spec.app, x)), k))
  }

  /** Every text renders, inert text to itself and other text to yet another text that is not inert. */
  ghost predicate Restless(spec: Spec, render: string -> string) {
    && spec.Valid() && spec.pullable
    && (forall t :: spec.segments(t) == if t == "" then [] else [Text(t)])
    && (forall t :: spec.finish(t) == Some(render(t)))
    && (forall t {:trigger render(t)} :: Inert(spec, t) || (render(t) != t && !Inert(spec, render(t))))
    && (forall d :: spec.decrypt(d) == Some(d))
  }

  /** Two texts are exchanged and inert ones left alone. */
  function Swap(spec: Spec, a: string, b: string): string -> string {
    (t: string) => if Inert(spec, t) then t else if t == a then b else a
  }

  function SwappingSpec(spec: Spec, a: string, b: string): Spec {
    spec.(pullable := true,
          segments := (t: string) => if t == "" then [] else [Text(t)],
          finish := (t: string) => Some(Swap(spec, a, b)(t)),
          decrypt := (d: Data) => Some(d))
  }

  lemma SwappingIsRestless(spec: Spec, a: string, b: string)
    requires spec.Valid() && a != b && !Inert(spec, a) && !Inert(spec, b)
    ensures Restless(SwappingSpec(spec, a, b), Swap(spec, a, b)) && SameApp(spec, SwappingSpec(spec, a, b))
  {
    var swapping := SwappingSpec(spec, a, b);
    assert Inert(spec, "");
    forall t ensures Inert(swapping, t) <==> Inert(spec, t) {
      SingleText(t);
      assert swapping.finish(t) == Some(Swap(spec, a, b)(t));
      assert t != "" ==> swapping.segments(t) == [Text(t)];
      assert t == "" ==> swapping.segments(t) == [];
    }
  }

  lemma SingleText(t: string)
    ensures TextOnly([Text(t)]) && TextOf([Text(t)]) == t
  {
    assert [Text(t)][1..] == [] && t + "" == t;
  }

  lemma PlainText(spec: Spec, w: World, st: State, text: string)
    requires spec.Valid() && spec.segments(text) == if text == "" then [] else [Text(text)]
    ensures RenderSegments(spec, w, 1, st, spec.segments(text)) == Step(Ok(text), st)
  {
    if text != "" {
      var segs := [Text(text)];
      assert segs[1..] == [];
      assert RenderSegments(spec, w, 1, st, segs[1..]) == Step(Ok(""), st);
      assert text + "" == text;
    }
  }

  /** What a pass makes of the texts of a template. */
  function Rendered(render: string -> string, texts: Data, keys: seq<string>): Data { map k | k in keys :: render(Get(texts, k)) }

  lemma {:induction false} RestlessRender(spec: Spec, render: string -> string, w: World, st: State, texts: Data, keys: seq<string>)
    requires Restless(spec, render)
    ensures RenderEntries(spec, w, 1, st, texts, keys) == Step(Ok(Rendered(render, texts, keys)), st)
    decreases |keys|
  {
    if keys != [] {
      PlainText(spec, w, st, Get(texts, keys[0]));
      RestlessRender(spec, render, w, st, texts, keys[1..]);
      RenderedCons(render, texts, keys);
    }
  }

  lemma RenderedCons(render: string -> string, texts: Data, keys: seq<string>)
    requires keys != []
    ensures Rendered(render, texts, keys) == Rendered(render, texts, keys[1..])[keys[0] := render(Get(texts, keys[0]))]
  {
    assert forall k :: k in keys <==> k == keys[0] || k in keys[1..];
  }

  /** One pass over the template writes it, and leaves it stale. */
  lemma RestlessPass(spec: Spec, render: string -> string, w: World, store: Store, x: string, k: string)
    requires Restless(spec, render) && w.Valid() && ApiUp(w) && Stale(spec, store, x, k)
    ensures var st' := Pass(spec, w, 1, Start(store), [x]);
            PassOk(spec, w, 1, Start(store), [x]) && st'.writes == [x] && Stale(spec, st'.store, x, k)
  {
    var called := Start(store).(calls := 1);
    RestlessTemplate(spec, render, w, called, x, k);
    GetsTemplate(spec, w, 1, Start(store), x);
    PassOfOne(spec, w, 1, Start(store), x);
  }

  /** With a working API a template that is generated is the answer. */
  lemma GetsTemplate(spec: Spec, w: World, depth: nat, st: State, x: string)
    requires spec.Valid() && depth > 0 && ApiUp(w) && x !in st.memo && Recursive(spec, x)
    ensures var g := GenerateTemplate(spec, w, depth, st.(calls := st.calls + 1), x);
            var s := GetOrCreate(spec, w, depth, st, x);
            s.answer == g.answer && s.st.store == g.st.store && s.st.writes == g.st.writes
  {
    GenerateUp(spec, w, depth, st, x);
    GetGenerates(spec, w, depth, st, x);
  }

  lemma PassOfOne(spec: Spec, w: World, depth: nat, st: State, x: string)
    requires spec.Valid()
    ensures PassOk(spec, w, depth, st, [x]) == GetOrCreate(spec, w, depth, st, x).answer.Ok?
    ensures Pass(spec, w, depth, st, [x]) == GetOrCreate(spec, w, depth, st, x).st
  {
    assert [x][1..] == [];
  }

  lemma RestlessTemplate(spec: Spec, render: string -> string, w: World, st: State, x: string, k: string)
    requires Restless(spec, render) && w.Valid() && ApiUp(w) && Stale(spec, st.store, x, k)
    ensures var s := GenerateTemplate(spec, w, 1, st, x);
            s.answer.Ok? && s.st.writes == st.writes + [x] && Stale(spec, s.st.store, x, k)
  {
    var texts, keys := Texts(spec, st.store, x), spec.defs[x].keys;
    RestlessRender(spec, render, w, st, texts, keys);
    assert k in spec.defs[x].data;
    assert Get(texts, k) == Get(DataOf(EntryOf(st.store, spec.app, x)), k);
    SaveOther(spec, w, st, x, Rendered(render, texts, keys));
  }

  /** Saving data that differs from what is stored writes it. */
  lemma SaveOther(spec: Spec, w: World, st: State, x: string, data: Data)
    requires spec.Valid() && w.Valid() && ApiUp(w) && x in spec.defs && spec.decrypt(data) == Some(data)
    requires data != DataOf(EntryOf(st.store, spec.app, x)) && EntryOf(st.store, spec.app, x).Some?
    ensures var s := Save(spec, w, st, x, Find(st.store, spec.app, x), data);
            s.answer == Ok(data) && s.st.writes == st.writes + [x] && DataOf(EntryOf(s.st.store, spec.app, x)) == data
  {
    SaveEntry(spec, w, st, x, data);
  }

  lemma {:induction false} UidBound(uids: set<nat>) returns (bound: nat)
    ensures forall u :: u in uids ==> u < bound
  {
    bound := 0;
    if uids != {} {
      var u :| u in uids;
      var rest := uids - {u};
      bound := UidBound(rest);
      assert forall v :: v in uids ==> v == u || v in rest;
      bound := if bound > u then bound else u + 1;
    }
  }

  lemma UnusedUid(store: Store)
    ensures exists u: nat :: u !in store
  {
    var bound := UidBound(store.Keys);
    assert bound !in store;
  }

  /** A world in which every call succeeds. */
  ghost function CalmWorld(): (w: World)
    ensures w.Valid() && ApiUp(w)
  {
    World((c: nat) => true, (c: nat) => Some(0), "a", (s: Store) => UnusedUid(s); var u: nat :| u !in s; u, (n: string, c: nat) => false)
  }

  /**
   A pass is a fixed point, whatever the environment answers (outside secrets, what a reference or an expression
   stands for, encryption, API, randomness), exactly when the stored text under every blank entry of a generated
   template is inert.  Texts `a` and `b` are any two that are not inert, such as two references.
   */
  lemma FixedPointIff(spec: Spec, store: Store, a: string, b: string)
    requires spec.Valid() && a != b && !Inert(spec, a) && !Inert(spec, b)
    ensures FixedPointInEveryEnvironment(spec, store) <==> NoStale(spec, store)
  {
    if NoStale(spec, store) {
      forall other: Spec, w: World, depth: nat, names, w': World, depth': nat | SameApp(spec, other) && other.Valid() && w.Valid()
        ensures SecondPassIdle(other, store, w, depth, names, w', depth')
      {
        NoStaleSame(spec, other, store);
        if PassOk(other, w, depth, Start(store), names) {
          SecondPassWritesNothing(other, w, depth, store, names, w', depth');
        }
      }
    } else {
      var x, k :| Recursive(spec, x) && k in spec.defs[x].keys && Get(spec.defs[x].data, k) == "" &&
                  !Inert(spec, Get(DataOf(EntryOf(store, spec.app, x)), k));
      var text := Get(DataOf(EntryOf(store, spec.app, x)), k);
      RestlessTwice(spec, store, x, k, text, if text == a then b else a);
    }
  }

  lemma RestlessTwice(spec: Spec, store: Store, x: string, k: string, text: string, next: string)
    requires spec.Valid() && Stale(spec, store, x, k) && text != next && !Inert(spec, text) && !Inert(spec, next)
    ensures !FixedPointInEveryEnvironment(spec, store)
  {
    var other, w := SwappingSpec(spec, text, next), CalmWorld();
    SwappingIsRestless(spec, text, next);
    StaleSame(spec, other, store, x, k);
    RestlessPass(other, Swap(spec, text, next), w, store, x, k);
    RestlessPass(other, Swap(spec, text, next), w, Pass(other, w, 1, Start(store), [x]).store, x, k);
    assert !SecondPassIdle(other, store, w, 1, [x], w, 1);
  }

  lemma StaleSame(spec: Spec, other: Spec, store: Store, x: string, k: string)
    requires SameApp(spec, other)
    ensures Stale(other, store, x, k) == Stale(spec, store, x, k)
  {
    assert OriginOf(spec, x) == OriginOf(other, x);
  }

  lemma NoStaleSame(spec: Spec, other: Spec, store: Store)
    requires SameApp(spec, other) && NoStale(spec, store)
    ensures NoStale(other, store)
  {
    forall n, k | Recursive(other, n) && k in other.defs[n].keys && Get(other.defs[n].data, k) == ""
      ensures Inert(other, Get(DataOf(EntryOf(store, other.app, n)), k))
    {
      StaleSame(spec, other, store, n, k);
      assert Inert(spec, Get(DataOf(EntryOf(store, spec.app, n)), k));
    }
  }
}
