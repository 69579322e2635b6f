/**
 What every evaluation of a secret keeps, whatever its outcome and whatever the references look like:
 answers already given stay valid, a secret being evaluated is never answered or written by an inner
 evaluation of itself, and the store only evolves in the permitted way.
 */
module SecretEvaluation {
  import opened GoStrings
  import opened Secrets
  import opened SecretStore

  ghost predicate MemoGrows(m: map<string, Data>, m': map<string, Data>) {
    forall n :: n in m ==> n in m' && m'[n] == m[n]
  }

  function Elements(s: seq<string>): set<string> { set n | n in s }

  /** A secret whose evaluation asks for other secrets. */
  predicate Recursive(spec: Spec, n: string) {
    n in spec.defs && spec.defs[n].kind.Template? && OriginOf(spec, n).Local?
  }

  predicate Mentions(segs: seq<Segment>, r: string) {
    exists i :: 0 <= i < |segs| && segs[i].Reference? && segs[i].secret == r
  }

  /** Secret `r` is referenced by a text of `n` as it stands in the store and the specification. */
  ghost predicate Needs(spec: Spec, store: Store, n: string, r: string) {
    n in spec.defs && exists k :: k in spec.defs[n].keys && Mentions(spec.segments(Get(Texts(spec, store, n), k)), r)
  }

  /** The secrets under evaluation, outermost first, each asked for by the one before it. */
  ghost predicate Stacked(spec: Spec, st: State, stack: seq<string>) {
    && (forall n :: n in stack ==> n !in st.memo && Recursive(spec, n))
    && (forall i :: 0 <= i < |stack| - 1 ==> Needs(spec, st.store, stack[i], stack[i + 1]))
  }

  ghost predicate Asks(spec: Spec, store: Store, stack: seq<string>, x: string) {
    stack == [] || Needs(spec, store, stack[|stack| - 1], x)
  }

  ghost predicate Keeps(spec: Spec, stack: seq<string>, st: State, st': State) {
    && MemoGrows(st.memo, st'.memo)
    && (forall n :: n in stack ==> n !in st'.memo)
    && Evolves(spec, st.memo.Keys + Elements(stack), st.store, st'.store)
  }

  lemma KeepsTransitive(spec: Spec, stack: seq<string>, a: State, b: State, c: State)
    requires Keeps(spec, stack, a, b) && Keeps(spec, stack, b, c)
    ensures Keeps(spec, stack, a, c)
  {
    EvolvesTransitive(spec, a.memo.Keys + Elements(stack), b.memo.Keys + Elements(stack), a.store, b.store, c.store);
  }

  lemma KeepsSame(spec: Spec, stack: seq<string>, st: State, st': State)
    requires st'.store == st.store && st'.memo == st.memo && forall n :: n in stack ==> n !in st.memo
    ensures Keeps(spec, stack, st, st')
  {
  }

  /** Entries on the stack are protected, so what they need does not change. */
  lemma NeedsKept(spec: Spec, stack: seq<string>, st: State, st': State, n: string, r: string)
    requires Keeps(spec, stack, st, st') && n in stack
    ensures Needs(spec, st'.store, n, r) == Needs(spec, st.store, n, r)
    ensures EntryOf(st'.store, spec.app, n) == EntryOf(st.store, spec.app, n)
  {
    assert n in Elements(stack);
    assert EntryOf(st'.store, spec.app, n) == EntryOf(st.store, spec.app, n);
  }

  lemma StackedKept(spec: Spec, stack: seq<string>, st: State, st': State)
    requires Keeps(spec, stack, st, st') && Stacked(spec, st, stack)
    ensures Stacked(spec, st', stack)
  {
    forall i | 0 <= i < |stack| - 1 ensures Needs(spec, st'.store, stack[i], stack[i + 1]) {
      NeedsKept(spec, stack, st, st', stack[i], stack[i + 1]);
    }
  }

  // ---------- Generators keep what they must ----------

  lemma SeedKept(spec: Spec, st: State, name: string, def: SecretDef)
    requires name in spec.defs && def == spec.defs[name]
    ensures var before := DataOf(EntryOf(st.store, spec.app, name));
            var prior := OldData(st.store, Find(st.store, spec.app, name));
            forall k :: SeedValue(prior, def.data, k) ==
                          if Get(def.data, k) != "" then Get(def.data, k) else Get(before, k)
  {
  }

  lemma BasicKept(w: World, draws: nat, seeded: Data)
    ensures var d := BasicData(w, draws, seeded);
            d.Ok? ==> Get(d.value, USERNAME) != "" && Get(d.value, PASSWORD) != "" &&
                      d.value.Keys == seeded.Keys + {USERNAME, PASSWORD} &&
                      forall k :: k in seeded && seeded[k] != "" ==> Get(d.value, k) == seeded[k]
  {
    assert USERNAME[0] != PASSWORD[0];
  }

  lemma TokenKept(w: World, draws: nat, def: SecretDef, seeded: Data)
    ensures var d := TokenData(w, draws, def, seeded);
            d.Ok? ==> (Get(d.value, TOKEN) != "" || def.length == Some(0)) &&
                      d.value.Keys == seeded.Keys + {TOKEN} &&
                      forall k :: k in seeded && seeded[k] != "" ==> Get(d.value, k) == seeded[k]
  {
  }

  lemma PlainDataKept(spec: Spec, w: World, st: State, name: string, def: SecretDef)
    requires name in spec.defs && def == spec.defs[name] && !def.kind.Template?
    ensures var d := PlainData(spec, w, st.draws, name, def, OldData(st.store, Find(st.store, spec.app, name)));
            d.Ok? ==> DataKept(spec, def, DataOf(EntryOf(st.store, spec.app, name)), d.value)
  {
    var prior := OldData(st.store, Find(st.store, spec.app, name));
    SeedKept(spec, st, name, def);
    match def.kind
    case Basic => BasicKept(w, st.draws, Seed(prior, def.data, [USERNAME, PASSWORD]));
    case Token => TokenKept(w, st.draws, def, Seed(prior, def.data, [TOKEN]));
    case _ =>
  }

  // ---------- The evaluation ----------

  lemma {:induction false} GetKeeps(spec: Spec, w: World, depth: nat, st: State, x: string, stack: seq<string>)
    requires spec.Valid() && w.Valid() && Stacked(spec, st, stack) && Asks(spec, st.store, stack, x)
    ensures var s := GetOrCreate(spec, w, depth, st, x);
            Keeps(spec, stack, st, s.st) && (x in stack ==> !s.answer.Ok?)
    decreases depth, 3, 0
  {
    KeepsSame(spec, stack, st, st);
    if depth > 0 && x !in st.memo && OriginOf(spec, x).Local? {
      GenerateKeeps(spec, w, depth, st, x, stack);
    }
  }

  lemma {:induction false} GenerateKeeps(spec: Spec, w: World, depth: nat, st: State, x: string, stack: seq<string>)
    requires spec.Valid() && w.Valid() && depth > 0 && Stacked(spec, st, stack) && Asks(spec, st.store, stack, x)
    requires x !in st.memo && OriginOf(spec, x).Local?
    ensures var s := Generate(spec, w, depth, st, x);
            Keeps(spec, stack, st, s.st) && (x in stack ==> !s.answer.Ok?) && x !in s.st.memo
    decreases depth, 2, 0
  {
    var called := st.(calls := st.calls + 1);
    CalledStacked(spec, st, called, x, stack);
    var s: Step<Data>;
    if !w.apiOk(st.calls) || x !in spec.defs {
      s := Step(Failed, called);
      KeepsSame(spec, stack, called, called);
    } else if spec.defs[x].kind.Template? {
      s := GenerateTemplate(spec, w, depth, called, x);
      TemplateKeeps(spec, w, depth, called, x, stack);
    } else {
      s := GeneratePlain(spec, w, called, x);
      PlainKeeps(spec, w, called, x, stack);
    }
    assert s == Generate(spec, w, depth, st, x);
    CalledKeeps(spec, stack, st, called, s.st);
  }

  /** Counting an API call changes nothing that matters here. */
  lemma CalledStacked(spec: Spec, st: State, called: State, x: string, stack: seq<string>)
    requires called.store == st.store && called.memo == st.memo && Stacked(spec, st, stack) && Asks(spec, st.store, stack, x)
    ensures Stacked(spec, called, stack) && Asks(spec, called.store, stack, x)
  {
  }

  lemma CalledKeeps(spec: Spec, stack: seq<string>, st: State, called: State, st': State)
    requires called.store == st.store && called.memo == st.memo && Keeps(spec, stack, called, st')
    ensures Keeps(spec, stack, st, st')
  {
  }

  lemma SaveKeeps(spec: Spec, w: World, stack: seq<string>, st: State, x: string, data: Data)
    requires spec.Valid() && w.Valid() && x in spec.defs && x !in st.memo && x !in stack && forall n :: n in stack ==> n !in st.memo
    requires DataKept(spec, spec.defs[x], DataOf(EntryOf(st.store, spec.app, x)), data)
    ensures var s := Save(spec, w, st, x, Find(st.store, spec.app, x), data);
            Keeps(spec, stack, st, s.st) && s.st.memo == st.memo
  {
    SaveStore(spec, w, st, x, data);
    SaveEvolves(spec, w, st, x, data, st.memo.Keys + Elements(stack));
  }

  /** A plain secret whose data can be made is saved, and otherwise nothing happens. */
  lemma PlainSteps(spec: Spec, w: World, st: State, x: string)
    requires x in spec.defs
    ensures var d := PlainData(spec, w, st.draws, x, spec.defs[x], OldData(st.store, Find(st.store, spec.app, x)));
            var drawn := st.(draws := st.draws + DrawsUsed(spec.defs[x]));
            GeneratePlain(spec, w, st, x) == if d.Ok? then Save(spec, w, drawn, x, Find(drawn.store, spec.app, x), d.value) else Step(d, drawn)
  {
  }

  lemma PlainKeeps(spec: Spec, w: World, st: State, x: string, stack: seq<string>)
    requires spec.Valid() && w.Valid() && Stacked(spec, st, stack)
    requires x !in st.memo && x in spec.defs && !spec.defs[x].kind.Template?
    ensures var s := GeneratePlain(spec, w, st, x);
            Keeps(spec, stack, st, s.st) && x !in stack && x !in s.st.memo
  {
    var def := spec.defs[x];
    PlainDataKept(spec, w, st, x, def);
    var d := PlainData(spec, w, st.draws, x, def, OldData(st.store, Find(st.store, spec.app, x)));
    var drawn := st.(draws := st.draws + DrawsUsed(def));
    KeepsSame(spec, stack, st, drawn);
    PlainSteps(spec, w, st, x);
    assert x !in stack;
    if d.Ok? {
      SaveKeeps(spec, w, stack, drawn, x, d.value);
    }
  }

  lemma RenderedKept(spec: Spec, store: Store, x: string, data: Data)
    requires x in spec.defs && spec.defs[x].kind.Template?
    requires forall k :: k in spec.defs[x].keys && Inert(spec, Get(Texts(spec, store, x), k)) ==> Get(data, k) == Get(Texts(spec, store, x), k)
    ensures DataKept(spec, spec.defs[x], DataOf(EntryOf(store, spec.app, x)), data)
  {
  }

  lemma {:induction false} TemplateKeeps(spec: Spec, w: World, depth: nat, st: State, x: string, stack: seq<string>)
    requires spec.Valid() && w.Valid() && depth > 0 && Stacked(spec, st, stack) && Asks(spec, st.store, stack, x)
    requires x !in st.memo && Recursive(spec, x)
    ensures var s := GenerateTemplate(spec, w, depth, st, x);
            Keeps(spec, stack, st, s.st) && (x in stack ==> !s.answer.Ok?) && x !in s.st.memo
    decreases depth, 1, |spec.defs[x].keys| + 1
  {
    KeepsSame(spec, stack, st, st);
    if spec.pullable {
      var texts := Texts(spec, st.store, x);
      StackedPush(spec, st, x, stack);
      EntriesKeep(spec, w, depth, st, x, texts, spec.defs[x].keys, stack + [x]);
      var s := RenderEntries(spec, w, depth, st, texts, spec.defs[x].keys);
      KeepsInner(spec, stack, x, st, s.st);
      NeedsKept(spec, stack + [x], st, s.st, x, "");
      if s.answer.Ok? {
        TemplateSaveKeeps(spec, w, stack, st, s.st, x, s.answer.value);
      }
    }
  }

  lemma TemplateSaveKeeps(spec: Spec, w: World, stack: seq<string>, st: State, mid: State, x: string, data: Data)
    requires spec.Valid() && w.Valid() && Stacked(spec, st, stack) && Asks(spec, st.store, stack, x) && Recursive(spec, x)
    requires Keeps(spec, stack, st, mid) && x !in mid.memo
    requires EntryOf(mid.store, spec.app, x) == EntryOf(st.store, spec.app, x)
    requires forall k, r :: k in spec.defs[x].keys && Mentions(spec.segments(Get(Texts(spec, st.store, x), k)), r) ==> r !in stack + [x]
    requires forall k :: k in spec.defs[x].keys && Inert(spec, Get(Texts(spec, st.store, x), k)) ==> Get(data, k) == Get(Texts(spec, st.store, x), k)
    ensures x !in stack
    ensures Keeps(spec, stack, st, Save(spec, w, mid, x, Find(st.store, spec.app, x), data).st)
    ensures Save(spec, w, mid, x, Find(st.store, spec.app, x), data).st.memo == mid.memo
  {
    forall z | z in stack ensures !Needs(spec, st.store, x, z) {
      assert z in stack + [x];
    }
    StackedNeedsStacked(spec, st, stack, x);
    RenderedKept(spec, mid.store, x, data);
    SaveKeeps(spec, w, stack, mid, x, data);
    KeepsTransitive(spec, stack, st, mid, Save(spec, w, mid, x, Find(st.store, spec.app, x), data).st);
  }

  lemma StackedPush(spec: Spec, st: State, x: string, stack: seq<string>)
    requires Stacked(spec, st, stack) && Asks(spec, st.store, stack, x) && x !in st.memo && Recursive(spec, x)
    ensures Stacked(spec, st, stack + [x])
  {
    var inner := stack + [x];
    forall i | 0 <= i < |inner| - 1 ensures Needs(spec, st.store, inner[i], inner[i + 1]) {
      if i < |stack| - 1 {
        assert inner[i] == stack[i] && inner[i + 1] == stack[i + 1];
      }
    }
  }

  lemma KeepsInner(spec: Spec, stack: seq<string>, x: string, st: State, st': State)
    requires Keeps(spec, stack + [x], st, st')
    ensures Keeps(spec, stack, st, st') && x !in st'.memo
  {
    assert x in stack + [x];
    assert forall n :: n in stack ==> n in stack + [x];
    assert Elements(stack) <= Elements(stack + [x]);
  }

  /** A secret met again while it is under evaluation needs a secret that is under evaluation too. */
  lemma StackedNeedsStacked(spec: Spec, st: State, stack: seq<string>, x: string)
    requires Stacked(spec, st, stack) && Asks(spec, st.store, stack, x)
    requires forall z :: z in stack ==> !Needs(spec, st.store, x, z)
    ensures x !in stack
  {
    forall i | 0 <= i < |stack| ensures stack[i] != x {
      var z := if i + 1 < |stack| then stack[i + 1] else stack[i];
      assert z in stack;
    }
  }

  lemma {:induction false} EntriesKeep(spec: Spec, w: World, depth: nat, st: State, x: string, texts: Data, keys: seq<string>, stack: seq<string>)
    requires spec.Valid() && w.Valid() && depth > 0 && Stacked(spec, st, stack)
    requires stack != [] && stack[|stack| - 1] == x && x in spec.defs && texts == Texts(spec, st.store, x)
    requires forall k :: k in keys ==> k in spec.defs[x].keys
    ensures var s := RenderEntries(spec, w, depth, st, texts, keys);
            && Keeps(spec, stack, st, s.st)
            && (s.answer.Ok? ==> s.answer.value.Keys == Elements(keys))
            && (s.answer.Ok? ==> forall k, r :: k in keys && Mentions(spec.segments(Get(texts, k)), r) ==> r !in stack)
            && (s.answer.Ok? ==> forall k :: k in keys && Inert(spec, Get(texts, k)) ==> Get(s.answer.value, k) == Get(texts, k))
    decreases depth, 1, |keys|
  {
    KeepsSame(spec, stack, st, st);
    if keys != [] {
      var segs := spec.segments(Get(texts, keys[0]));
      assert keys[0] in keys;
      SegmentsKeep(spec, w, depth, st, x, segs, stack);
      var s := RenderSegments(spec, w, depth, st, segs);
      if s.answer.Ok? && spec.finish(s.answer.value).Some? {
        StackedKept(spec, stack, st, s.st);
        NeedsKept(spec, stack, st, s.st, x, "");
        EntriesKeep(spec, w, depth, s.st, x, texts, keys[1..], stack);
        var rest := RenderEntries(spec, w, depth, s.st, texts, keys[1..]);
        KeepsTransitive(spec, stack, st, s.st, rest.st);
        if rest.answer.Ok? {
          EntriesCons(spec, texts, keys, rest.answer.value, spec.finish(s.answer.value).value, stack);
        }
      }
    }
  }

  lemma EntriesCons(spec: Spec, texts: Data, keys: seq<string>, rest: Data, text: string, stack: seq<string>)
    requires keys != [] && rest.Keys == Elements(keys[1..])
    requires Inert(spec, Get(texts, keys[0])) ==> text == Get(texts, keys[0])
    requires forall k :: k in keys[1..] && Inert(spec, Get(texts, k)) ==> Get(rest, k) == Get(texts, k)
    requires forall r :: Mentions(spec.segments(Get(texts, keys[0])), r) ==> r !in stack
    requires forall k, r :: k in keys[1..] && Mentions(spec.segments(Get(texts, k)), r) ==> r !in stack
    ensures (rest[keys[0] := text]).Keys == Elements(keys)
    ensures forall k :: k in keys && Inert(spec, Get(texts, k)) ==> Get(rest[keys[0] := text], k) == Get(texts, k)
    ensures forall k, r :: k in keys && Mentions(spec.segments(Get(texts, k)), r) ==> r !in stack
  {
    assert forall k :: k in keys <==> k == keys[0] || k in keys[1..];
  }

  lemma {:induction false} SegmentsKeep(spec: Spec, w: World, depth: nat, st: State, x: string, segs: seq<Segment>, stack: seq<string>)
    requires spec.Valid() && w.Valid() && depth > 0 && Stacked(spec, st, stack)
    requires stack != [] && stack[|stack| - 1] == x
    requires forall r :: Mentions(segs, r) ==> Needs(spec, st.store, x, r)
    ensures var s := RenderSegments(spec, w, depth, st, segs);
            && Keeps(spec, stack, st, s.st)
            && (s.answer.Ok? ==> forall r :: Mentions(segs, r) ==> r !in stack)
            && (s.answer.Ok? && TextOnly(segs) ==> s.answer.value == TextOf(segs))
    decreases depth, 0, |segs|
  {
    KeepsSame(spec, stack, st, st);
    if segs != [] {
      var head := RenderSegment(spec, w, depth, st, segs[0]);
      HeadKeeps(spec, w, depth, st, x, segs, stack);
      if !head.answer.Crash? {
        SegmentsKeep(spec, w, depth, head.st, x, segs[1..], stack);
        var rest := RenderSegments(spec, w, depth, head.st, segs[1..]);
        KeepsTransitive(spec, stack, st, head.st, rest.st);
        forall r | Mentions(segs, r) && rest.answer.Ok? && head.answer.Ok? ensures r !in stack {
          MentionsTail(segs, r);
        }
      }
    }
  }

  /** Rendering the head of a text keeps what an evaluation keeps, and leaves the rest to be asked for under the same conditions. */
  lemma {:induction false} HeadKeeps(spec: Spec, w: World, depth: nat, st: State, x: string, segs: seq<Segment>, stack: seq<string>)
    requires spec.Valid() && w.Valid() && depth > 0 && Stacked(spec, st, stack) && segs != []
    requires stack != [] && stack[|stack| - 1] == x
    requires forall r :: Mentions(segs, r) ==> Needs(spec, st.store, x, r)
    ensures segs[0].Reference? ==> Asks(spec, st.store, stack, segs[0].secret)
    ensures var head := RenderSegment(spec, w, depth, st, segs[0]);
            && Keeps(spec, stack, st, head.st) && Stacked(spec, head.st, stack)
            && (forall r :: Mentions(segs[1..], r) ==> Mentions(segs, r) && Needs(spec, head.st.store, x, r))
            && (head.answer.Ok? && segs[0].Reference? ==> segs[0].secret !in stack)
    decreases depth, 0, 0
  {
    var head := RenderSegment(spec, w, depth, st, segs[0]);
    KeepsSame(spec, stack, st, st);
    if segs[0].Reference? {
      MentionsTail(segs, segs[0].secret);
      GetKeeps(spec, w, depth - 1, st, segs[0].secret, stack);
    }
    HeadDone(spec, stack, st, head.st, x, segs);
  }

  /** After the head of a text has been rendered, the rest is asked for under the same conditions. */
  lemma HeadDone(spec: Spec, stack: seq<string>, st: State, st': State, x: string, segs: seq<Segment>)
    requires Keeps(spec, stack, st, st') && Stacked(spec, st, stack) && x in stack && segs != []
    requires forall r :: Mentions(segs, r) ==> Needs(spec, st.store, x, r)
    ensures Stacked(spec, st', stack)
    ensures forall r :: Mentions(segs[1..], r) ==> Mentions(segs, r) && Needs(spec, st'.store, x, r)
  {
    StackedKept(spec, stack, st, st');
    forall r | Mentions(segs[1..], r) ensures Mentions(segs, r) && Needs(spec, st'.store, x, r) {
      MentionsTail(segs, r);
      NeedsKept(spec, stack, st, st', x, r);
    }
  }

  lemma MentionsTail(segs: seq<Segment>, r: string)
    requires segs != []
    ensures Mentions(segs, r) <==> (segs[0].Reference? && segs[0].secret == r) || Mentions(segs[1..], r)
  {
    if Mentions(segs[1..], r) {
      var i :| 0 <= i < |segs[1..]| && segs[1..][i].Reference? && segs[1..][i].secret == r;
      assert segs[i + 1].Reference? && segs[i + 1].secret == r;
    }
    if Mentions(segs, r) {
      var i :| 0 <= i < |segs| && segs[i].Reference? && segs[i].secret == r;
      if i > 0 { assert segs[1..][i - 1] == segs[i]; }
    }
  }
}
