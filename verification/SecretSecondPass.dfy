/**
 A second evaluation makes the recursive calls of a successful first one.  It runs against a store in which
 every secret the first one answered still has the object it had then, so it finds the same texts, renders
 the same data and has nothing to write.
 */
module SecretSecondPass {
  import opened GoStrings
  import opened Secrets
  import opened SecretStore
  import opened SecretEvaluation
  import opened SecretFixedPoint
  import opened SecretSettling
  import opened SecretReplay

  /** The answered secrets have the same objects in both stores. */
  ghost predicate Agrees(spec: Spec, later: Store, st: State) {
    forall n {:trigger EntryOf(later, spec.app, n)} :: n in st.memo ==> EntryOf(later, spec.app, n) == EntryOf(st.store, spec.app, n)
  }

  /** Step `r` taken from `st` repeats step `s`: same answer and same memo, and the store is left alone. */
  ghost predicate Repeats<T>(st: State, r: Step<T>, s: Step<T>) {
    r.answer == s.answer && r.st.memo == s.st.memo && r.st.store == st.store && r.st.writes == st.writes
  }

  lemma AgreesBefore(spec: Spec, later: Store, stack: seq<string>, st: State, st': State)
    requires Keeps(spec, stack, st, st') && Agrees(spec, later, st')
    ensures Agrees(spec, later, st)
  {
    forall n | n in st.memo ensures EntryOf(later, spec.app, n) == EntryOf(st.store, spec.app, n) {
      assert EntryOf(st'.store, spec.app, n) == EntryOf(st.store, spec.app, n);
    }
  }

  // ---------- Writing ----------

  /** Saving touches no other secret's object. */
  lemma AgreesBeforeSave(spec: Spec, w: World, later: Store, st: State, x: string, data: Data)
    requires spec.Valid() && w.Valid() && x in spec.defs && x !in st.memo
    requires Agrees(spec, later, Save(spec, w, st, x, Find(st.store, spec.app, x), data).st)
    ensures Agrees(spec, later, st)
  {
    SaveStore(spec, w, st, x, data);
    var s := Save(spec, w, st, x, Find(st.store, spec.app, x), data);
    forall n | n in st.memo ensures EntryOf(later, spec.app, n) == EntryOf(st.store, spec.app, n) {
      PutEntries(spec, w, st.store, x, data, spec.app, n);
      assert EntryOf(s.st.store, spec.app, n) == EntryOf(st.store, spec.app, n);
    }
  }

  /** Saving what a successful save has stored writes nothing and answers the same. */
  lemma SaveAgain(spec: Spec, w: World, st: State, x: string, data: Data, w': World, st2: State)
    requires spec.Valid() && w.Valid() && x in spec.defs
    requires var s := Save(spec, w, st, x, Find(st.store, spec.app, x), data);
             s.answer.Ok? && EntryOf(st2.store, spec.app, x) == EntryOf(s.st.store, spec.app, x)
    ensures var s := Save(spec, w, st, x, Find(st.store, spec.app, x), data);
            Save(spec, w', st2, x, Find(st2.store, spec.app, x), data) == Step(s.answer, st2)
    ensures OldData(st2.store, Find(st2.store, spec.app, x)) == Some(data)
  {
    SaveEntry(spec, w, st, x, data);
  }

  // ---------- Evaluation ----------

  lemma {:induction false} GetAgain(spec: Spec, w: World, depth: nat, st: State, x: string, stack: seq<string>, w': World, depth': nat, st2: State)
    requires spec.Valid() && w.Valid() && Stacked(spec, st, stack) && Asks(spec, st.store, stack, x) && NoStale(spec, st.store)
    requires ApiUp(w') && depth' >= depth && st2.memo == st.memo
    requires var s := GetOrCreate(spec, w, depth, st, x); s.answer.Ok? && Agrees(spec, st2.store, s.st)
    ensures Repeats(st2, GetOrCreate(spec, w', depth', st2, x), GetOrCreate(spec, w, depth, st, x))
    decreases depth, 3, 0
  {
    if x !in st.memo && OriginOf(spec, x).Local? {
      GenerateKeeps(spec, w, depth, st, x, stack);
      GetGenerates(spec, w, depth, st, x);
      GetGenerates(spec, w', depth', st2, x);
      var g := Generate(spec, w, depth, st, x);
      assert EntryOf(st2.store, spec.app, x) == EntryOf(g.st.store, spec.app, x);
      assert Agrees(spec, st2.store, g.st);
      GenerateAgain(spec, w, depth, st, x, stack, w', depth', st2);
    }
  }

  lemma {:induction false} GenerateAgain(spec: Spec, w: World, depth: nat, st: State, x: string, stack: seq<string>, w': World, depth': nat, st2: State)
    requires spec.Valid() && w.Valid() && depth > 0 && Stacked(spec, st, stack) && Asks(spec, st.store, stack, x) && NoStale(spec, st.store)
    requires ApiUp(w') && depth' >= depth && st2.memo == st.memo && x !in st.memo && OriginOf(spec, x).Local?
    requires var s := Generate(spec, w, depth, st, x);
             s.answer.Ok? && Agrees(spec, st2.store, s.st) && EntryOf(st2.store, spec.app, x) == EntryOf(s.st.store, spec.app, x)
    ensures Repeats(st2, Generate(spec, w', depth', st2, x), Generate(spec, w, depth, st, x))
    decreases depth, 2, 0
  {
    var called, called2 := st.(calls := st.calls + 1), st2.(calls := st2.calls + 1);
    CalledStacked(spec, st, called, x, stack);
    GenerateOk(spec, w, depth, st, x);
    GenerateUp(spec, w', depth', st2, x);
    if Recursive(spec, x) {
      TemplateAgain(spec, w, depth, called, x, stack, w', depth', called2);
    } else {
      PlainAgain(spec, w, called, x, w', called2);
    }
  }

  /** A local secret that is not memoised is generated and then memoised. */
  lemma GetGenerates(spec: Spec, w: World, depth: nat, st: State, x: string)
    requires spec.Valid() && depth > 0 && x !in st.memo && OriginOf(spec, x).Local?
    ensures var g := Generate(spec, w, depth, st, x);
            GetOrCreate(spec, w, depth, st, x) == if g.answer.Ok? then Step(g.answer, g.st.(memo := g.st.memo[x := g.answer.value])) else g
  {
  }

  lemma GenerateOk(spec: Spec, w: World, depth: nat, st: State, x: string)
    requires spec.Valid() && depth > 0 && OriginOf(spec, x).Local? && Generate(spec, w, depth, st, x).answer.Ok?
    ensures x in spec.defs
    ensures var called := st.(calls := st.calls + 1);
            Generate(spec, w, depth, st, x) == if Recursive(spec, x) then GenerateTemplate(spec, w, depth, called, x) else GeneratePlain(spec, w, called, x)
  {
  }

  lemma GenerateUp(spec: Spec, w: World, depth: nat, st: State, x: string)
    requires spec.Valid() && depth > 0 && OriginOf(spec, x).Local? && ApiUp(w) && x in spec.defs
    ensures var called := st.(calls := st.calls + 1);
            Generate(spec, w, depth, st, x) == if Recursive(spec, x) then GenerateTemplate(spec, w, depth, called, x) else GeneratePlain(spec, w, called, x)
  {
  }

  lemma PlainAgain(spec: Spec, w: World, st: State, x: string, w': World, st2: State)
    requires spec.Valid() && w.Valid() && x in spec.defs && !spec.defs[x].kind.Template? && st2.memo == st.memo
    requires var s := GeneratePlain(spec, w, st, x);
             s.answer.Ok? && EntryOf(st2.store, spec.app, x) == EntryOf(s.st.store, spec.app, x)
    ensures Repeats(st2, GeneratePlain(spec, w', st2, x), GeneratePlain(spec, w, st, x))
  {
    var used := DrawsUsed(spec.defs[x]);
    var drawn, drawn2 := st.(draws := st.draws + used), st2.(draws := st2.draws + used);
    var d := PlainMade(spec, w, st, x);
    SavedAgain(spec, w, drawn, x, d, w', drawn2);
    PlainDataAgain(spec, w, st.draws, x, OldData(st.store, Find(st.store, spec.app, x)), w', st2.draws);
    PlainSaves(spec, w', st2, x, d);
  }

  lemma PlainMade(spec: Spec, w: World, st: State, x: string) returns (d: Data)
    requires x in spec.defs && GeneratePlain(spec, w, st, x).answer.Ok?
    ensures PlainData(spec, w, st.draws, x, spec.defs[x], OldData(st.store, Find(st.store, spec.app, x))) == Ok(d)
    ensures var drawn := st.(draws := st.draws + DrawsUsed(spec.defs[x]));
            GeneratePlain(spec, w, st, x) == Save(spec, w, drawn, x, Find(drawn.store, spec.app, x), d)
  {
    PlainSteps(spec, w, st, x);
    d := PlainData(spec, w, st.draws, x, spec.defs[x], OldData(st.store, Find(st.store, spec.app, x))).value;
  }

  lemma PlainSaves(spec: Spec, w: World, st: State, x: string, d: Data)
    requires x in spec.defs
    requires PlainData(spec, w, st.draws, x, spec.defs[x], OldData(st.store, Find(st.store, spec.app, x))) == Ok(d)
    ensures var drawn := st.(draws := st.draws + DrawsUsed(spec.defs[x]));
            GeneratePlain(spec, w, st, x) == Save(spec, w, drawn, x, Find(drawn.store, spec.app, x), d)
  {
    PlainSteps(spec, w, st, x);
  }

  /** Data made once is made again from itself, whatever the entropy. */
  lemma PlainDataAgain(spec: Spec, w: World, draws: nat, x: string, prior: Option<Data>, w': World, draws': nat)
    requires spec.Valid() && x in spec.defs && !spec.defs[x].kind.Template?
    ensures var d := PlainData(spec, w, draws, x, spec.defs[x], prior);
            d.Ok? ==> PlainData(spec, w', draws', x, spec.defs[x], Some(d.value)) == d
  {
    var d := PlainData(spec, w, draws, x, spec.defs[x], prior);
    PlainDataFixed(spec, w, draws, x, prior, map[]);
    if d.Ok? { FixedDataReplays(spec, w', draws', x, map[], d.value); }
  }

  lemma SavedAgain(spec: Spec, w: World, st: State, x: string, d: Data, w': World, st2: State)
    requires spec.Valid() && w.Valid() && x in spec.defs && st2.memo == st.memo
    requires var s := Save(spec, w, st, x, Find(st.store, spec.app, x), d);
             s.answer.Ok? && EntryOf(st2.store, spec.app, x) == EntryOf(s.st.store, spec.app, x)
    ensures OldData(st2.store, Find(st2.store, spec.app, x)) == Some(d)
    ensures Repeats(st2, Save(spec, w', st2, x, Find(st2.store, spec.app, x), d), Save(spec, w, st, x, Find(st.store, spec.app, x), d))
  {
    SaveAgain(spec, w, st, x, d, w', st2);
    SaveStore(spec, w, st, x, d);
  }

  /** A template that renders is saved over the object found at the start. */
  lemma RenderedIsSaved(spec: Spec, w: World, depth: nat, st: State, x: string, mid: Step<Data>)
    requires spec.Valid() && depth > 0 && x in spec.defs && spec.pullable
    requires mid == RenderEntries(spec, w, depth, st, Texts(spec, st.store, x), spec.defs[x].keys) && mid.answer.Ok?
    requires EntryOf(mid.st.store, spec.app, x) == EntryOf(st.store, spec.app, x)
    ensures GenerateTemplate(spec, w, depth, st, x) == Save(spec, w, mid.st, x, Find(mid.st.store, spec.app, x), mid.answer.value)
  {
  }

  lemma {:induction false} TemplateAgain(spec: Spec, w: World, depth: nat, st: State, x: string, stack: seq<string>, w': World, depth': nat, st2: State)
    requires spec.Valid() && w.Valid() && depth > 0 && Stacked(spec, st, stack) && Asks(spec, st.store, stack, x) && NoStale(spec, st.store)
    requires ApiUp(w') && depth' >= depth && st2.memo == st.memo && x !in st.memo && Recursive(spec, x)
    requires var s := GenerateTemplate(spec, w, depth, st, x);
             s.answer.Ok? && Agrees(spec, st2.store, s.st) && EntryOf(st2.store, spec.app, x) == EntryOf(s.st.store, spec.app, x)
    ensures Repeats(st2, GenerateTemplate(spec, w', depth', st2, x), GenerateTemplate(spec, w, depth, st, x))
    decreases depth, 1, |spec.defs[x].keys| + 1
  {
    var keys, texts, inner := spec.defs[x].keys, Texts(spec, st.store, x), stack + [x];
    var mid := TemplateRendered(spec, w, depth, st, x, stack);
    TextsAgain(spec, w, st, mid.st, x, mid.answer.value, st2);
    StackedPush(spec, st, x, stack);
    EntriesAgain(spec, w, depth, st, x, texts, keys, inner, w', depth', st2);
    var mid2 := RenderEntries(spec, w', depth', st2, texts, keys);
    RenderedIsSaved(spec, w', depth', st2, x, mid2);
    SaveAgain(spec, w, mid.st, x, mid.answer.value, w', mid2.st);
    SaveStore(spec, w, mid.st, x, mid.answer.value);
  }

  /** A template that was answered was rendered, without touching its own object, and then saved. */
  lemma TemplateRendered(spec: Spec, w: World, depth: nat, st: State, x: string, stack: seq<string>) returns (mid: Step<Data>)
    requires spec.Valid() && w.Valid() && depth > 0 && Stacked(spec, st, stack) && Asks(spec, st.store, stack, x)
    requires x !in st.memo && Recursive(spec, x) && GenerateTemplate(spec, w, depth, st, x).answer.Ok?
    ensures var texts := Texts(spec, st.store, x);
            && mid == RenderEntries(spec, w, depth, st, texts, spec.defs[x].keys) && mid.answer.Ok? && spec.pullable
            && x !in mid.st.memo
            && (forall k :: k in spec.defs[x].keys && Inert(spec, Get(texts, k)) ==> Get(mid.answer.value, k) == Get(texts, k))
            && GenerateTemplate(spec, w, depth, st, x) == Save(spec, w, mid.st, x, Find(mid.st.store, spec.app, x), mid.answer.value)
  {
    var texts, inner := Texts(spec, st.store, x), stack + [x];
    mid := RenderEntries(spec, w, depth, st, texts, spec.defs[x].keys);
    StackedPush(spec, st, x, stack);
    EntriesKeep(spec, w, depth, st, x, texts, spec.defs[x].keys, inner);
    KeepsInner(spec, stack, x, st, mid.st);
    NeedsKept(spec, inner, st, mid.st, x, "");
    RenderedIsSaved(spec, w, depth, st, x, mid);
  }

  /** Once saved, rendered data leaves the template's texts as they were. */
  lemma TextsAgain(spec: Spec, w: World, st: State, mid: State, x: string, data: Data, st2: State)
    requires spec.Valid() && w.Valid() && Recursive(spec, x) && x !in mid.memo && NoStale(spec, st.store)
    requires forall k :: k in spec.defs[x].keys && Inert(spec, Get(Texts(spec, st.store, x), k)) ==> Get(data, k) == Get(Texts(spec, st.store, x), k)
    requires var s := Save(spec, w, mid, x, Find(mid.store, spec.app, x), data);
             s.answer.Ok? && Agrees(spec, st2.store, s.st) && EntryOf(st2.store, spec.app, x) == EntryOf(s.st.store, spec.app, x)
    ensures Texts(spec, st2.store, x) == Texts(spec, st.store, x) && Agrees(spec, st2.store, mid)
  {
    AgreesBeforeSave(spec, w, st2.store, mid, x, data);
    SaveAgain(spec, w, mid, x, data, w, st2);
    TextsFixed(spec, st.store, x, data);
  }

  lemma {:induction false} EntriesAgain(spec: Spec, w: World, depth: nat, st: State, x: string, texts: Data, keys: seq<string>, stack: seq<string>,
                                        w': World, depth': nat, st2: State)
    requires spec.Valid() && w.Valid() && depth > 0 && Stacked(spec, st, stack) && NoStale(spec, st.store)
    requires stack != [] && stack[|stack| - 1] == x && x in spec.defs && texts == Texts(spec, st.store, x)
    requires forall k :: k in keys ==> k in spec.defs[x].keys
    requires ApiUp(w') && depth' >= depth && st2.memo == st.memo
    requires var s := RenderEntries(spec, w, depth, st, texts, keys); s.answer.Ok? && Agrees(spec, st2.store, s.st)
    ensures Repeats(st2, RenderEntries(spec, w', depth', st2, texts, keys), RenderEntries(spec, w, depth, st, texts, keys))
    decreases depth, 1, |keys|
  {
    if keys != [] {
      var segs := spec.segments(Get(texts, keys[0]));
      assert keys[0] in keys;
      SegmentsKeep(spec, w, depth, st, x, segs, stack);
      var s := RenderSegments(spec, w, depth, st, segs);
      var rest := RenderEntries(spec, w, depth, s.st, texts, keys[1..]);
      StackedKept(spec, stack, st, s.st);
      NeedsKept(spec, stack, st, s.st, x, "");
      NoStaleKept(spec, stack, st, s.st);
      EntriesKeep(spec, w, depth, s.st, x, texts, keys[1..], stack);
      AgreesBefore(spec, st2.store, stack, s.st, rest.st);
      SegmentsAgain(spec, w, depth, st, x, segs, stack, w', depth', st2);
      var s2 := RenderSegments(spec, w', depth', st2, segs);
      EntriesAgain(spec, w, depth, s.st, x, texts, keys[1..], stack, w', depth', s2.st);
    }
  }

  lemma {:induction false} SegmentsAgain(spec: Spec, w: World, depth: nat, st: State, x: string, segs: seq<Segment>, stack: seq<string>,
                                         w': World, depth': nat, st2: State)
    requires spec.Valid() && w.Valid() && depth > 0 && Stacked(spec, st, stack) && NoStale(spec, st.store)
    requires stack != [] && stack[|stack| - 1] == x
    requires forall r :: Mentions(segs, r) ==> Needs(spec, st.store, x, r)
    requires ApiUp(w') && depth' >= depth && st2.memo == st.memo
    requires var s := RenderSegments(spec, w, depth, st, segs); s.answer.Ok? && Agrees(spec, st2.store, s.st)
    ensures Repeats(st2, RenderSegments(spec, w', depth', st2, segs), RenderSegments(spec, w, depth, st, segs))
    decreases depth, 0, |segs|
  {
    if segs != [] {
      var head := RenderSegment(spec, w, depth, st, segs[0]);
      var rest := RenderSegments(spec, w, depth, head.st, segs[1..]);
      assert head.answer.Ok? && rest.answer.Ok?;
      HeadKeeps(spec, w, depth, st, x, segs, stack);
      NoStaleKept(spec, stack, st, head.st);
      SegmentsKeep(spec, w, depth, head.st, x, segs[1..], stack);
      AgreesBefore(spec, st2.store, stack, head.st, rest.st);
      HeadAgain(spec, w, depth, st, segs[0], stack, w', depth', st2);
      var head2 := RenderSegment(spec, w', depth', st2, segs[0]);
      SegmentsAgain(spec, w, depth, head.st, x, segs[1..], stack, w', depth', head2.st);
    }
  }

  lemma {:induction false} HeadAgain(spec: Spec, w: World, depth: nat, st: State, seg: Segment, stack: seq<string>,
                                     w': World, depth': nat, st2: State)
    requires spec.Valid() && w.Valid() && depth > 0 && Stacked(spec, st, stack) && NoStale(spec, st.store)
    requires seg.Reference? ==> Asks(spec, st.store, stack, seg.secret)
    requires ApiUp(w') && depth' >= depth && st2.memo == st.memo
    requires var head := RenderSegment(spec, w, depth, st, seg); head.answer.Ok? && Agrees(spec, st2.store, head.st)
    ensures Repeats(st2, RenderSegment(spec, w', depth', st2, seg), RenderSegment(spec, w, depth, st, seg))
    decreases depth, 0, 0
  {
    if seg.Reference? {
      HeadIsValue(spec, w, depth, st, seg);
      HeadIsValue(spec, w', depth', st2, seg);
      var s := GetOrCreate(spec, w, depth - 1, st, seg.secret);
      GetAgain(spec, w, depth - 1, st, seg.secret, stack, w', depth' - 1, st2);
      ValueAgain(st2, GetOrCreate(spec, w', depth' - 1, st2, seg.secret), s, seg.key);
    }
  }

  lemma HeadIsValue(spec: Spec, w: World, depth: nat, st: State, seg: Segment)
    requires spec.Valid() && depth > 0 && seg.Reference?
    ensures var s := GetOrCreate(spec, w, depth - 1, st, seg.secret);
            && RenderSegment(spec, w, depth, st, seg) == ValueAt(s, seg.key)
            && (RenderSegment(spec, w, depth, st, seg).answer.Ok? ==> s.answer.Ok?)
            && RenderSegment(spec, w, depth, st, seg).st == s.st
  {
  }

  lemma ValueAgain(st: State, r: Step<Data>, s: Step<Data>, key: string)
    requires Repeats(st, r, s)
    ensures Repeats(st, ValueAt(r, key), ValueAt(s, key))
  {
  }
}
