/** Evaluation settles every secret it answers. */
module SecretSettling {
  import opened GoStrings
  import opened Secrets
  import opened SecretStore
  import opened SecretEvaluation
  import opened SecretFixedPoint

  ghost predicate Sound(spec: Spec, st: State) {
    NoStale(spec, st.store) && AllSettled(spec, st.store, st.memo)
  }

  // ---------- Writing ----------

  lemma SaveSettles(spec: Spec, w: World, st: State, x: string, data: Data, stack: seq<string>)
    requires spec.Valid() && w.Valid() && x in spec.defs && x !in st.memo && x !in stack && OriginOf(spec, x).Local?
    requires forall n :: n in stack ==> n !in st.memo
    requires Sound(spec, st) && FixedData(spec, st.memo, x, spec.defs[x], data)
    requires DataKept(spec, spec.defs[x], DataOf(EntryOf(st.store, spec.app, x)), data)
    ensures var s := Save(spec, w, st, x, Find(st.store, spec.app, x), data);
            && Sound(spec, s.st)
            && (s.answer.Ok? ==> Settled(spec, s.st.store, s.st.memo, x, s.answer.value))
  {
    var s := Save(spec, w, st, x, Find(st.store, spec.app, x), data);
    SaveKeeps(spec, w, stack, st, x, data);
    NoStaleKept(spec, stack, st, s.st);
    AllSettledKept(spec, st, s.st, stack);
    if s.answer.Ok? {
      SaveEntry(spec, w, st, x, data);
    }
  }

  /** After a successful save the entry holds exactly the requested data, labels and annotations. */
  lemma SaveEntry(spec: Spec, w: World, st: State, x: string, data: Data)
    requires spec.Valid() && w.Valid() && x in spec.defs
    requires Save(spec, w, st, x, Find(st.store, spec.app, x), data).answer.Ok?
    ensures var s := Save(spec, w, st, x, Find(st.store, spec.app, x), data);
            var e := EntryOf(s.st.store, spec.app, x);
            && e.Some? && e.value.obj.data == data
            && e.value.obj.labels == spec.labelsFor(x)
            && e.value.obj.annotations == spec.annotationsFor(x)
            && spec.decrypt(data) == Some(s.answer.value)
  {
    SaveStore(spec, w, st, x, data);
    PutEntries(spec, w, st.store, x, data, spec.app, x);
  }

  // ---------- Evaluation ----------

  lemma {:induction false} GetSettles(spec: Spec, w: World, depth: nat, st: State, x: string, stack: seq<string>)
    requires spec.Valid() && w.Valid() && Stacked(spec, st, stack) && Asks(spec, st.store, stack, x) && Sound(spec, st)
    ensures var s := GetOrCreate(spec, w, depth, st, x);
            && Sound(spec, s.st)
            && (s.answer.Ok? ==> MemoRef(spec, s.st.memo, x) == Some(s.answer.value))
    decreases depth, 3, 0
  {
    if depth > 0 && x !in st.memo {
      var o := OriginOf(spec, x);
      if o.External? {
        var d := spec.lookup(o.namespace, o.reference);
        if d.Some? { AllSettledAdd(spec, st.store, st.memo, x, d.value); }
      } else if o.Local? {
        GenerateSettles(spec, w, depth, st, x, stack);
        GenerateKeeps(spec, w, depth, st, x, stack);
        var s := Generate(spec, w, depth, st, x);
        if s.answer.Ok? { AllSettledAdd(spec, s.st.store, s.st.memo, x, s.answer.value); }
      }
    }
  }

  lemma {:induction false} GenerateSettles(spec: Spec, w: World, depth: nat, st: State, x: string, stack: seq<string>)
    requires spec.Valid() && w.Valid() && depth > 0 && Stacked(spec, st, stack) && Asks(spec, st.store, stack, x) && Sound(spec, st)
    requires x !in st.memo && OriginOf(spec, x).Local?
    ensures var s := Generate(spec, w, depth, st, x);
            && Sound(spec, s.st)
            && (s.answer.Ok? ==> Settled(spec, s.st.store, s.st.memo, x, s.answer.value))
    decreases depth, 2, 0
  {
    var called := st.(calls := st.calls + 1);
    CalledStacked(spec, st, called, x, stack);
    var s: Step<Data>;
    if !w.apiOk(st.calls) || x !in spec.defs {
      s := Step(Failed, called);
    } else if spec.defs[x].kind.Template? {
      s := GenerateTemplate(spec, w, depth, called, x);
      TemplateSettles(spec, w, depth, called, x, stack);
    } else {
      s := GeneratePlain(spec, w, called, x);
      PlainSettles(spec, w, called, x, stack);
    }
    assert s == Generate(spec, w, depth, st, x);
  }

  lemma PlainSettles(spec: Spec, w: World, st: State, x: string, stack: seq<string>)
    requires spec.Valid() && w.Valid() && Stacked(spec, st, stack) && Sound(spec, st)
    requires x !in st.memo && x in spec.defs && !spec.defs[x].kind.Template? && OriginOf(spec, x).Local?
    ensures var s := GeneratePlain(spec, w, st, x);
            && Sound(spec, s.st)
            && (s.answer.Ok? ==> Settled(spec, s.st.store, s.st.memo, x, s.answer.value))
  {
    var prior := OldData(st.store, Find(st.store, spec.app, x));
    var d := PlainData(spec, w, st.draws, x, spec.defs[x], prior);
    PlainSteps(spec, w, st, x);
    DrawnSound(spec, st, DrawsUsed(spec.defs[x]));
    if d.Ok? {
      PlainDataKept(spec, w, st, x, spec.defs[x]);
      PlainDataFixed(spec, w, st.draws, x, prior, st.memo);
      SaveSettles(spec, w, st.(draws := st.draws + DrawsUsed(spec.defs[x])), x, d.value, stack);
    }
  }

  lemma DrawnSound(spec: Spec, st: State, used: nat)
    requires Sound(spec, st)
    ensures Sound(spec, st.(draws := st.draws + used))
  {
  }

  lemma {:induction false} TemplateSettles(spec: Spec, w: World, depth: nat, st: State, x: string, stack: seq<string>)
    requires spec.Valid() && w.Valid() && depth > 0 && Stacked(spec, st, stack) && Asks(spec, st.store, stack, x) && Sound(spec, st)
    requires x !in st.memo && Recursive(spec, x)
    ensures var s := GenerateTemplate(spec, w, depth, st, x);
            && Sound(spec, s.st)
            && (s.answer.Ok? ==> Settled(spec, s.st.store, s.st.memo, x, s.answer.value))
    decreases depth, 1, |spec.defs[x].keys| + 1
  {
    if spec.pullable {
      var keys := spec.defs[x].keys;
      var texts := Texts(spec, st.store, x);
      var inner := stack + [x];
      StackedPush(spec, st, x, stack);
      EntriesKeep(spec, w, depth, st, x, texts, keys, inner);
      EntriesSettle(spec, w, depth, st, x, texts, keys, inner);
      var mid := RenderEntries(spec, w, depth, st, texts, keys);
      if mid.answer.Ok? {
        NeedsKept(spec, inner, st, mid.st, x, "");
        RenderedSettles(spec, w, st, mid.st, x, mid.answer.value, stack);
      }
    }
  }

  lemma RenderedSettles(spec: Spec, w: World, st: State, mid: State, x: string, data: Data, stack: seq<string>)
    requires spec.Valid() && w.Valid() && Stacked(spec, st, stack) && Asks(spec, st.store, stack, x) && Sound(spec, st) && Sound(spec, mid)
    requires Recursive(spec, x) && spec.pullable && x !in st.memo
    requires Keeps(spec, stack + [x], st, mid)
    requires EntryOf(mid.store, spec.app, x) == EntryOf(st.store, spec.app, x)
    requires forall k, r :: k in spec.defs[x].keys && Mentions(spec.segments(Get(Texts(spec, st.store, x), k)), r) ==> r !in stack + [x]
    requires forall k :: k in spec.defs[x].keys && Inert(spec, Get(Texts(spec, st.store, x), k)) ==> Get(data, k) == Get(Texts(spec, st.store, x), k)
    requires MemoRenders(spec, mid.memo, Texts(spec, st.store, x), spec.defs[x].keys, data)
    ensures var s := Save(spec, w, mid, x, Find(st.store, spec.app, x), data);
            && Sound(spec, s.st)
            && (s.answer.Ok? ==> Settled(spec, s.st.store, s.st.memo, x, s.answer.value))
  {
    KeepsInner(spec, stack, x, st, mid);
    TemplateSaveKeeps(spec, w, stack, st, mid, x, data);
    RenderedKept(spec, mid.store, x, data);
    TextsFixed(spec, st.store, x, data);
    SaveSettles(spec, w, mid, x, data, stack);
  }

  lemma {:induction false} EntriesSettle(spec: Spec, w: World, depth: nat, st: State, x: string, texts: Data, keys: seq<string>, stack: seq<string>)
    requires spec.Valid() && w.Valid() && depth > 0 && Stacked(spec, st, stack) && Sound(spec, st)
    requires stack != [] && stack[|stack| - 1] == x && x in spec.defs && texts == Texts(spec, st.store, x)
    requires forall k :: k in keys ==> k in spec.defs[x].keys
    ensures var s := RenderEntries(spec, w, depth, st, texts, keys);
            && Sound(spec, s.st)
            && (s.answer.Ok? ==> MemoRenders(spec, s.st.memo, texts, keys, s.answer.value))
    decreases depth, 1, |keys|
  {
    if keys != [] {
      var segs := spec.segments(Get(texts, keys[0]));
      assert keys[0] in keys;
      SegmentsKeep(spec, w, depth, st, x, segs, stack);
      SegmentsSettle(spec, w, depth, st, x, segs, stack);
      var s := RenderSegments(spec, w, depth, st, segs);
      if s.answer.Ok? && spec.finish(s.answer.value).Some? {
        StackedKept(spec, stack, st, s.st);
        NeedsKept(spec, stack, st, s.st, x, "");
        EntriesKeep(spec, w, depth, s.st, x, texts, keys[1..], stack);
        EntriesSettle(spec, w, depth, s.st, x, texts, keys[1..], stack);
        var rest := RenderEntries(spec, w, depth, s.st, texts, keys[1..]);
        if rest.answer.Ok? {
          SettledNotContext(spec, rest.st.store, rest.st.memo);
          MemoSegmentsMonotone(spec, s.st.memo, rest.st.memo, segs);
          MemoRendersCons(spec, rest.st.memo, texts, keys, rest.answer.value, spec.finish(s.answer.value).value);
        }
      }
    }
  }

  lemma {:induction false} SegmentsSettle(spec: Spec, w: World, depth: nat, st: State, x: string, segs: seq<Segment>, stack: seq<string>)
    requires spec.Valid() && w.Valid() && depth > 0 && Stacked(spec, st, stack) && Sound(spec, st)
    requires stack != [] && stack[|stack| - 1] == x
    requires forall r :: Mentions(segs, r) ==> Needs(spec, st.store, x, r)
    ensures var s := RenderSegments(spec, w, depth, st, segs);
            && Sound(spec, s.st)
            && (s.answer.Ok? ==> MemoSegments(spec, s.st.memo, segs) == Some(s.answer.value))
    decreases depth, 0, |segs|
  {
    if segs != [] {
      var head := RenderSegment(spec, w, depth, st, segs[0]);
      HeadKeeps(spec, w, depth, st, x, segs, stack);
      HeadSettles(spec, w, depth, st, segs[0], stack);
      if !head.answer.Crash? {
        SegmentsKeep(spec, w, depth, head.st, x, segs[1..], stack);
        SegmentsSettle(spec, w, depth, head.st, x, segs[1..], stack);
        var rest := RenderSegments(spec, w, depth, head.st, segs[1..]);
        if head.answer.Ok? && rest.answer.Ok? {
          SettledNotContext(spec, rest.st.store, rest.st.memo);
          HeadMonotone(spec, head.st.memo, rest.st.memo, segs[0]);
        }
      }
    }
  }

  lemma {:induction false} HeadSettles(spec: Spec, w: World, depth: nat, st: State, seg: Segment, stack: seq<string>)
    requires spec.Valid() && w.Valid() && depth > 0 && Stacked(spec, st, stack) && Sound(spec, st)
    requires seg.Reference? ==> Asks(spec, st.store, stack, seg.secret)
    ensures var head := RenderSegment(spec, w, depth, st, seg);
            Sound(spec, head.st) && (head.answer.Ok? ==> MemoSegment(spec, head.st.memo, seg) == Some(head.answer.value))
    decreases depth, 0, 0
  {
    if seg.Reference? {
      GetSettles(spec, w, depth - 1, st, seg.secret, stack);
    }
  }

  lemma HeadMonotone(spec: Spec, m: map<string, Data>, m': map<string, Data>, seg: Segment)
    requires MemoGrows(m, m') && MemoSegment(spec, m, seg).Some?
    requires forall n :: n in m' ==> !OriginOf(spec, n).Context?
    ensures MemoSegment(spec, m', seg) == MemoSegment(spec, m, seg)
  {
  }
}
