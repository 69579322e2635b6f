/** An evaluation that succeeds writes each secret at most once. */
module SecretWrites {
  import opened GoStrings
  import opened Secrets
  import opened SecretEvaluation

  /** The names written on the way are pairwise different, were not answered before, and are answered now (or are `extra`). */
  ghost predicate WroteOnce(st: State, st': State, extra: set<string>) {
    && st.writes <= st'.writes
    && (forall i :: |st.writes| <= i < |st'.writes| ==> st'.writes[i] !in st.memo && st'.writes[i] in st'.memo.Keys + extra)
    && (forall i, j :: |st.writes| <= i < j < |st'.writes| ==> st'.writes[i] != st'.writes[j])
  }

  lemma WroteOnceCompose(a: State, b: State, c: State, extra: set<string>)
    requires WroteOnce(a, b, {}) && WroteOnce(b, c, extra) && MemoGrows(a.memo, b.memo) && MemoGrows(b.memo, c.memo)
    ensures WroteOnce(a, c, extra)
  {
    forall i | |a.writes| <= i < |c.writes|
      ensures c.writes[i] !in a.memo && c.writes[i] in c.memo.Keys + extra
      ensures i < |b.writes| ==> c.writes[i] == b.writes[i] && c.writes[i] in b.memo
    {
      if i < |b.writes| { assert c.writes[i] == b.writes[i]; }
    }
  }

  lemma SaveWritesOnce(spec: Spec, w: World, st: State, x: string, existing: Option<nat>, data: Data)
    requires x !in st.memo && (existing.Some? ==> existing.value in st.store)
    ensures WroteOnce(st, Save(spec, w, st, x, existing, data).st, {x})
  {
  }

  lemma {:induction false} GetWritesOnce(spec: Spec, w: World, depth: nat, st: State, x: string, stack: seq<string>)
    requires spec.Valid() && w.Valid() && Stacked(spec, st, stack) && Asks(spec, st.store, stack, x)
    ensures var s := GetOrCreate(spec, w, depth, st, x); s.answer.Ok? ==> WroteOnce(st, s.st, {})
    decreases depth, 3, 0
  {
    if depth > 0 && x !in st.memo && OriginOf(spec, x).Local? {
      GenerateWritesOnce(spec, w, depth, st, x, stack);
      var s := Generate(spec, w, depth, st, x);
      if s.answer.Ok? { AnsweredOnce(st, s.st, x, s.answer.value); }
    }
  }

  /** Memoising the answer accounts for the write of its own secret. */
  lemma AnsweredOnce(st: State, st': State, x: string, data: Data)
    requires WroteOnce(st, st', {x})
    ensures WroteOnce(st, st'.(memo := st'.memo[x := data]), {})
  {
  }

  lemma {:induction false} GenerateWritesOnce(spec: Spec, w: World, depth: nat, st: State, x: string, stack: seq<string>)
    requires spec.Valid() && w.Valid() && depth > 0 && Stacked(spec, st, stack) && Asks(spec, st.store, stack, x)
    requires x !in st.memo && OriginOf(spec, x).Local?
    ensures var s := Generate(spec, w, depth, st, x); s.answer.Ok? ==> WroteOnce(st, s.st, {x})
    decreases depth, 2, 0
  {
    var called := st.(calls := st.calls + 1);
    var s: Step<Data>;
    if !w.apiOk(st.calls) || x !in spec.defs {
      s := Step(Failed, called);
    } else if spec.defs[x].kind.Template? {
      CalledStacked(spec, st, called, x, stack);
      TemplateWritesOnce(spec, w, depth, called, x, stack);
      s := GenerateTemplate(spec, w, depth, called, x);
    } else {
      PlainWritesOnce(spec, w, called, x);
      s := GeneratePlain(spec, w, called, x);
    }
    assert s == Generate(spec, w, depth, st, x);
    if s.answer.Ok? { CalledOnce(st, called, s.st, x); }
  }

  lemma CalledOnce(st: State, called: State, st': State, x: string)
    requires called.memo == st.memo && called.writes == st.writes && WroteOnce(called, st', {x})
    ensures WroteOnce(st, st', {x})
  {
  }

  lemma PlainWritesOnce(spec: Spec, w: World, st: State, x: string)
    requires x in spec.defs && x !in st.memo
    ensures WroteOnce(st, GeneratePlain(spec, w, st, x).st, {x})
  {
    var def := spec.defs[x];
    var existing := Find(st.store, spec.app, x);
    var d := PlainData(spec, w, st.draws, x, def, OldData(st.store, existing));
    if d.Ok? {
      SaveWritesOnce(spec, w, st.(draws := st.draws + DrawsUsed(def)), x, existing, d.value);
    }
  }

  lemma {:induction false} TemplateWritesOnce(spec: Spec, w: World, depth: nat, st: State, x: string, stack: seq<string>)
    requires spec.Valid() && w.Valid() && depth > 0 && Stacked(spec, st, stack) && Asks(spec, st.store, stack, x)
    requires x !in st.memo && Recursive(spec, x)
    ensures var s := GenerateTemplate(spec, w, depth, st, x); s.answer.Ok? ==> WroteOnce(st, s.st, {x})
    decreases depth, 1, |spec.defs[x].keys| + 1
  {
    var keys := spec.defs[x].keys;
    var texts := Texts(spec, st.store, x);
    StackedPush(spec, st, x, stack);
    EntriesWriteOnce(spec, w, depth, st, x, texts, keys, stack + [x]);
    EntriesKeep(spec, w, depth, st, x, texts, keys, stack + [x]);
    var mid := RenderEntries(spec, w, depth, st, texts, keys);
    KeepsInner(spec, stack, x, st, mid.st);
    var existing := Find(st.store, spec.app, x);
    if mid.answer.Ok? && (existing.Some? ==> existing.value in mid.st.store) {
      SaveAfterOnce(spec, w, st, mid.st, x, existing, mid.answer.value);
    }
  }

  lemma SaveAfterOnce(spec: Spec, w: World, st: State, mid: State, x: string, existing: Option<nat>, data: Data)
    requires WroteOnce(st, mid, {}) && MemoGrows(st.memo, mid.memo) && x !in mid.memo && (existing.Some? ==> existing.value in mid.store)
    ensures WroteOnce(st, Save(spec, w, mid, x, existing, data).st, {x})
  {
    SaveWritesOnce(spec, w, mid, x, existing, data);
    WroteOnceCompose(st, mid, Save(spec, w, mid, x, existing, data).st, {x});
  }

  lemma {:induction false} EntriesWriteOnce(spec: Spec, w: World, depth: nat, st: State, x: string, texts: Data, keys: seq<string>, stack: seq<string>)
    requires spec.Valid() && w.Valid() && depth > 0 && Stacked(spec, st, stack)
    requires stack != [] && stack[|stack| - 1] == x && x in spec.defs && texts == Texts(spec, st.store, x)
    requires forall k :: k in keys ==> k in spec.defs[x].keys
    ensures var s := RenderEntries(spec, w, depth, st, texts, keys); s.answer.Ok? ==> WroteOnce(st, s.st, {})
    decreases depth, 1, |keys|
  {
    if keys != [] {
      var segs := spec.segments(Get(texts, keys[0]));
      assert keys[0] in keys;
      SegmentsKeep(spec, w, depth, st, x, segs, stack);
      SegmentsWriteOnce(spec, w, depth, st, x, segs, stack);
      var s := RenderSegments(spec, w, depth, st, segs);
      if s.answer.Ok? {
        StackedKept(spec, stack, st, s.st);
        NeedsKept(spec, stack, st, s.st, x, "");
        EntriesKeep(spec, w, depth, s.st, x, texts, keys[1..], stack);
        EntriesWriteOnce(spec, w, depth, s.st, x, texts, keys[1..], stack);
        var rest := RenderEntries(spec, w, depth, s.st, texts, keys[1..]);
        if rest.answer.Ok? { WroteOnceCompose(st, s.st, rest.st, {}); }
      }
    }
  }

  lemma {:induction false} SegmentsWriteOnce(spec: Spec, w: World, depth: nat, st: State, x: string, segs: seq<Segment>, stack: seq<string>)
    requires spec.Valid() && w.Valid() && depth > 0 && Stacked(spec, st, stack)
    requires stack != [] && stack[|stack| - 1] == x
    requires forall r :: Mentions(segs, r) ==> Needs(spec, st.store, x, r)
    ensures var s := RenderSegments(spec, w, depth, st, segs); s.answer.Ok? ==> WroteOnce(st, s.st, {})
    decreases depth, 0, |segs|
  {
    if segs != [] {
      var head := RenderSegment(spec, w, depth, st, segs[0]);
      HeadKeeps(spec, w, depth, st, x, segs, stack);
      HeadWritesOnce(spec, w, depth, st, segs[0], stack);
      if head.answer.Ok? {
        SegmentsKeep(spec, w, depth, head.st, x, segs[1..], stack);
        SegmentsWriteOnce(spec, w, depth, head.st, x, segs[1..], stack);
        var rest := RenderSegments(spec, w, depth, head.st, segs[1..]);
        if rest.answer.Ok? { WroteOnceCompose(st, head.st, rest.st, {}); }
      }
    }
  }

  lemma {:induction false} HeadWritesOnce(spec: Spec, w: World, depth: nat, st: State, seg: Segment, stack: seq<string>)
    requires spec.Valid() && w.Valid() && depth > 0 && Stacked(spec, st, stack)
    requires seg.Reference? ==> Asks(spec, st.store, stack, seg.secret)
    ensures var head := RenderSegment(spec, w, depth, st, seg); head.answer.Ok? ==> WroteOnce(st, head.st, {})
    decreases depth, 0, 0
  {
    if seg.Reference? {
      GetWritesOnce(spec, w, depth - 1, st, seg.secret, stack);
    }
  }
}
