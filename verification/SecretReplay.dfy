/** Evaluating against a store in which every answer is settled: nothing is written and the same answers come back. */
module SecretReplay {
  import opened GoStrings
  import opened Secrets
  import opened SecretStore
  import opened SecretEvaluation
  import opened SecretFixedPoint

  ghost predicate ApiUp(w: World) { forall i: nat :: w.apiOk(i) }

  /** Same store, no write, and no answer beyond those of `memo`. */
  ghost predicate Replayed(st: State, st': State, memo: map<string, Data>) {
    st'.store == st.store && st'.writes == st.writes && MemoGrows(st'.memo, memo)
  }

  lemma {:induction false} ReplayGet(spec: Spec, w: World, depth: nat, st: State, x: string, memo: map<string, Data>)
    requires spec.Valid() && AllSettled(spec, st.store, memo) && MemoGrows(st.memo, memo) && MemoRef(spec, memo, x).Some?
    ensures var s := GetOrCreate(spec, w, depth, st, x);
            && Replayed(st, s.st, memo)
            && (s.answer.Ok? ==> s.answer.value == MemoRef(spec, memo, x).value && (x in memo ==> x in s.st.memo))
            && (ApiUp(w) ==> !s.answer.Failed?)
    decreases depth, 3, 0
  {
    if depth > 0 && x !in st.memo {
      var o := OriginOf(spec, x);
      if o.Local? {
        ReplayGenerate(spec, w, depth, st, x, memo);
      } else if o.External? {
        assert Settled(spec, st.store, memo, x, memo[x]);
      } else {
        SettledNotContext(spec, st.store, memo);
      }
    }
  }

  lemma {:induction false} ReplayGenerate(spec: Spec, w: World, depth: nat, st: State, x: string, memo: map<string, Data>)
    requires spec.Valid() && depth > 0 && AllSettled(spec, st.store, memo) && MemoGrows(st.memo, memo)
    requires x in memo && OriginOf(spec, x).Local?
    ensures var s := Generate(spec, w, depth, st, x);
            && Replayed(st, s.st, memo)
            && (s.answer.Ok? ==> s.answer.value == memo[x])
            && (ApiUp(w) ==> !s.answer.Failed?)
    decreases depth, 2, 0
  {
    var called := st.(calls := st.calls + 1);
    var s: Step<Data>;
    assert Settled(spec, st.store, memo, x, memo[x]);
    if !w.apiOk(st.calls) {
      s := Step(Failed, called);
    } else if spec.defs[x].kind.Template? {
      s := GenerateTemplate(spec, w, depth, called, x);
      ReplayTemplate(spec, w, depth, called, x, memo);
    } else {
      s := GeneratePlain(spec, w, called, x);
      ReplayPlain(spec, w, called, x, memo);
    }
    assert s == Generate(spec, w, depth, st, x);
  }

  lemma ReplayPlain(spec: Spec, w: World, st: State, x: string, memo: map<string, Data>)
    requires x in memo && OriginOf(spec, x).Local? && Settled(spec, st.store, memo, x, memo[x]) && !spec.defs[x].kind.Template?
    requires MemoGrows(st.memo, memo)
    ensures var s := GeneratePlain(spec, w, st, x);
            Replayed(st, s.st, memo) && s.answer == Ok(memo[x])
  {
    var data := EntryOf(st.store, spec.app, x).value.obj.data;
    FixedDataReplays(spec, w, st.draws, x, memo, data);
  }

  lemma {:induction false} ReplayTemplate(spec: Spec, w: World, depth: nat, st: State, x: string, memo: map<string, Data>)
    requires spec.Valid() && depth > 0 && AllSettled(spec, st.store, memo) && MemoGrows(st.memo, memo)
    requires x in memo && OriginOf(spec, x).Local? && Settled(spec, st.store, memo, x, memo[x]) && spec.defs[x].kind.Template?
    ensures var s := GenerateTemplate(spec, w, depth, st, x);
            && Replayed(st, s.st, memo)
            && (s.answer.Ok? ==> s.answer.value == memo[x])
            && (ApiUp(w) ==> !s.answer.Failed?)
    decreases depth, 1, |spec.defs[x].keys| + 1
  {
    var def := spec.defs[x];
    var data := EntryOf(st.store, spec.app, x).value.obj.data;
    var texts := Texts(spec, st.store, x);
    assert texts == Seed(Some(data), def.data, def.keys);
    ReplayEntries(spec, w, depth, st, texts, def.keys, memo);
    var s := RenderEntries(spec, w, depth, st, texts, def.keys);
    if s.answer.Ok? {
      MemoRendersUnique(spec, memo, texts, def.keys, s.answer.value, data);
    }
  }

  lemma MemoRendersUnique(spec: Spec, memo: map<string, Data>, texts: Data, keys: seq<string>, d: Data, d': Data)
    requires MemoRenders(spec, memo, texts, keys, d) && MemoRenders(spec, memo, texts, keys, d')
    ensures d == d'
  {
    forall k | k in d ensures d[k] == d'[k] {
      assert MemoEntry(spec, memo, Get(texts, k)) == Some(Get(d, k)) == Some(Get(d', k));
    }
  }

  lemma {:induction false} ReplayEntries(spec: Spec, w: World, depth: nat, st: State, texts: Data, keys: seq<string>, memo: map<string, Data>)
    requires spec.Valid() && depth > 0 && AllSettled(spec, st.store, memo) && MemoGrows(st.memo, memo)
    requires forall k :: k in keys ==> MemoEntry(spec, memo, Get(texts, k)).Some?
    ensures var s := RenderEntries(spec, w, depth, st, texts, keys);
            && Replayed(st, s.st, memo)
            && (s.answer.Ok? ==> MemoRenders(spec, memo, texts, keys, s.answer.value))
            && (ApiUp(w) ==> !s.answer.Failed?)
    decreases depth, 1, |keys|
  {
    if keys != [] {
      assert keys[0] in keys;
      var segs := spec.segments(Get(texts, keys[0]));
      assert MemoEntry(spec, memo, Get(texts, keys[0])).Some?;
      ReplaySegments(spec, w, depth, st, segs, memo);
      var s := RenderSegments(spec, w, depth, st, segs);
      if s.answer.Ok? {
        ReplayEntries(spec, w, depth, s.st, texts, keys[1..], memo);
        var rest := RenderEntries(spec, w, depth, s.st, texts, keys[1..]);
        if rest.answer.Ok? {
          MemoRendersCons(spec, memo, texts, keys, rest.answer.value, spec.finish(s.answer.value).value);
        }
      }
    }
  }

  lemma {:induction false} ReplaySegments(spec: Spec, w: World, depth: nat, st: State, segs: seq<Segment>, memo: map<string, Data>)
    requires spec.Valid() && depth > 0 && AllSettled(spec, st.store, memo) && MemoGrows(st.memo, memo)
    requires MemoSegments(spec, memo, segs).Some?
    ensures var s := RenderSegments(spec, w, depth, st, segs);
            && Replayed(st, s.st, memo)
            && (s.answer.Ok? ==> s.answer.value == MemoSegments(spec, memo, segs).value)
            && (ApiUp(w) ==> !s.answer.Failed?)
    decreases depth, 0, |segs|
  {
    if segs != [] {
      if segs[0].Reference? {
        ReplayGet(spec, w, depth - 1, st, segs[0].secret, memo);
      }
      var head := RenderSegment(spec, w, depth, st, segs[0]);
      if !head.answer.Crash? {
        ReplaySegments(spec, w, depth, head.st, segs[1..], memo);
      }
    }
  }

  // ---------- Enough stack ----------

  /** The references of generated templates go down in rank. */
  ghost predicate Acyclic(spec: Spec, rank: string -> nat) {
    forall n, k, r {:trigger Mentions(spec.segments(Get(spec.defs[n].data, k)), r)} ::
      (Recursive(spec, n) && k in spec.defs[n].keys && Mentions(spec.segments(Get(spec.defs[n].data, k)), r))
      ==> rank(r) < rank(n)
  }

  /** No generated secret asks for a token that the generator would panic on, and every kind is known. */
  ghost predicate Sane(spec: Spec) {
    forall n {:trigger spec.defs[n].length} :: n in spec.defs && OriginOf(spec, n).Local? ==>
      var d := spec.defs[n];
      !d.kind.Unknown? && (d.kind.Token? && d.length.Some? ==> d.length.value == 0 || (d.length.value > 0 && d.characters != []))
  }

  ghost predicate EntropyUp(w: World) { w.pool != [] && forall i: nat :: w.entropy(i).Some? }

  lemma TextsRanked(spec: Spec, store: Store, rank: string -> nat, x: string, k: string, r: string)
    requires spec.Valid() && Acyclic(spec, rank) && NoStale(spec, store) && Recursive(spec, x)
    requires k in spec.defs[x].keys
    ensures Mentions(spec.segments(Get(Texts(spec, store, x), k)), r) ==> rank(r) < rank(x)
  {
    assert k in spec.defs[x].data;
    var text := Get(Texts(spec, store, x), k);
    if Get(spec.defs[x].data, k) == "" {
      assert Inert(spec, Get(DataOf(EntryOf(store, spec.app, x)), k));
      assert text == Get(DataOf(EntryOf(store, spec.app, x)), k);
      assert TextOnly(spec.segments(text));
    } else {
      assert text == Get(spec.defs[x].data, k);
    }
  }

  // ---------- Settled answers need no more stack than their rank ----------

  lemma {:induction false} SettledGet(spec: Spec, w: World, rank: string -> nat, depth: nat, st: State, x: string, memo: map<string, Data>)
    requires spec.Valid() && AllSettled(spec, st.store, memo) && MemoGrows(st.memo, memo) && MemoRef(spec, memo, x).Some?
    requires Acyclic(spec, rank) && NoStale(spec, st.store) && depth > rank(x)
    ensures !GetOrCreate(spec, w, depth, st, x).answer.Crash?
    decreases depth, 3, 0
  {
    if x !in st.memo && OriginOf(spec, x).Local? {
      assert Settled(spec, st.store, memo, x, memo[x]);
      var called := st.(calls := st.calls + 1);
      if Recursive(spec, x) {
        SettledTemplate(spec, w, rank, depth, called, x, memo);
      } else {
        ReplayPlain(spec, w, called, x, memo);
      }
      GenerateCrash(spec, w, depth, st, x);
    }
  }

  lemma {:induction false} SettledTemplate(spec: Spec, w: World, rank: string -> nat, depth: nat, st: State, x: string, memo: map<string, Data>)
    requires spec.Valid() && AllSettled(spec, st.store, memo) && MemoGrows(st.memo, memo)
    requires x in memo && Recursive(spec, x) && Settled(spec, st.store, memo, x, memo[x])
    requires Acyclic(spec, rank) && NoStale(spec, st.store) && depth > rank(x)
    ensures !GenerateTemplate(spec, w, depth, st, x).answer.Crash?
    decreases depth, 1, |spec.defs[x].keys| + 1
  {
    var texts := Texts(spec, st.store, x);
    SettledEntries(spec, w, rank, depth, st, x, texts, spec.defs[x].keys, memo);
    TemplateCrash(spec, w, depth, st, x);
  }

  /** A template crashes only while it is rendered. */
  lemma TemplateCrash(spec: Spec, w: World, depth: nat, st: State, x: string)
    requires spec.Valid() && depth > 0 && x in spec.defs
    ensures GenerateTemplate(spec, w, depth, st, x).answer.Crash? ==>
              RenderEntries(spec, w, depth, st, Texts(spec, st.store, x), spec.defs[x].keys).answer.Crash?
  {
    var existing := Find(st.store, spec.app, x);
    var s := RenderEntries(spec, w, depth, st, Texts(spec, st.store, x), spec.defs[x].keys);
    if s.answer.Ok? && (existing.Some? ==> existing.value in s.st.store) {
      SaveNoCrash(spec, w, s.st, x, existing, s.answer.value);
    }
  }

  lemma {:induction false} SettledEntries(spec: Spec, w: World, rank: string -> nat, depth: nat, st: State, x: string, texts: Data,
                                          keys: seq<string>, memo: map<string, Data>)
    requires spec.Valid() && AllSettled(spec, st.store, memo) && MemoGrows(st.memo, memo)
    requires Recursive(spec, x) && texts == Texts(spec, st.store, x) && forall k :: k in keys ==> k in spec.defs[x].keys
    requires forall k :: k in keys ==> MemoEntry(spec, memo, Get(texts, k)).Some?
    requires Acyclic(spec, rank) && NoStale(spec, st.store) && depth > rank(x)
    ensures !RenderEntries(spec, w, depth, st, texts, keys).answer.Crash?
    decreases depth, 1, |keys|
  {
    if keys != [] {
      var segs := spec.segments(Get(texts, keys[0]));
      assert keys[0] in keys;
      assert MemoEntry(spec, memo, Get(texts, keys[0])).Some?;
      forall r | Mentions(segs, r) ensures rank(r) < rank(x) {
        TextsRanked(spec, st.store, rank, x, keys[0], r);
      }
      SettledSegments(spec, w, rank, depth, st, x, segs, memo);
      ReplaySegments(spec, w, depth, st, segs, memo);
      var s := RenderSegments(spec, w, depth, st, segs);
      if s.answer.Ok? { SettledEntries(spec, w, rank, depth, s.st, x, texts, keys[1..], memo); }
    }
  }

  lemma {:induction false} SettledSegments(spec: Spec, w: World, rank: string -> nat, depth: nat, st: State, x: string,
                                           segs: seq<Segment>, memo: map<string, Data>)
    requires spec.Valid() && AllSettled(spec, st.store, memo) && MemoGrows(st.memo, memo) && MemoSegments(spec, memo, segs).Some?
    requires forall r :: Mentions(segs, r) ==> rank(r) < rank(x)
    requires Acyclic(spec, rank) && NoStale(spec, st.store) && depth > rank(x)
    ensures !RenderSegments(spec, w, depth, st, segs).answer.Crash?
    decreases depth, 0, |segs|
  {
    if segs != [] {
      forall r | Mentions(segs[1..], r) ensures rank(r) < rank(x) {
        MentionsTail(segs, r);
      }
      if segs[0].Reference? { MentionsTail(segs, segs[0].secret); }
      SettledHead(spec, w, rank, depth, st, x, segs[0], memo);
      SettledSegments(spec, w, rank, depth, RenderSegment(spec, w, depth, st, segs[0]).st, x, segs[1..], memo);
    }
  }

  lemma {:induction false} SettledHead(spec: Spec, w: World, rank: string -> nat, depth: nat, st: State, x: string, seg: Segment, memo: map<string, Data>)
    requires spec.Valid() && AllSettled(spec, st.store, memo) && MemoGrows(st.memo, memo) && MemoSegment(spec, memo, seg).Some?
    requires Acyclic(spec, rank) && NoStale(spec, st.store) && depth > rank(x) && (seg.Reference? ==> rank(seg.secret) < rank(x))
    ensures var head := RenderSegment(spec, w, depth, st, seg);
            !head.answer.Crash? && head.st.store == st.store && MemoGrows(head.st.memo, memo)
    decreases depth, 0, 0
  {
    if seg.Reference? {
      SettledGet(spec, w, rank, depth - 1, st, seg.secret, memo);
      ReplayGet(spec, w, depth - 1, st, seg.secret, memo);
    }
  }

  // ---------- No generator panics ----------

  lemma {:induction false} DrawSucceeds(w: World, cursor: nat, characters: string, n: nat)
    requires (n == 0 || characters != []) && EntropyUp(w)
    ensures Draw(w, cursor, characters, n).Some?
    decreases n
  {
    if n > 0 { DrawSucceeds(w, cursor + 1, characters, n - 1); }
  }

  lemma BasicNoCrash(w: World, draws: nat, seeded: Data)
    requires EntropyUp(w)
    ensures BasicData(w, draws, seeded).Ok?
  {
    DrawSucceeds(w, draws, w.pool, RANDOM_LENGTH);
    DrawSucceeds(w, draws + RANDOM_LENGTH, w.pool, RANDOM_LENGTH);
  }

  lemma PlainDataNoCrash(spec: Spec, w: World, draws: nat, x: string, prior: Option<Data>)
    requires Sane(spec) && x in spec.defs && OriginOf(spec, x).Local? && !spec.defs[x].kind.Template? && EntropyUp(w)
    ensures !PlainData(spec, w, draws, x, spec.defs[x], prior).Crash?
  {
    var def := spec.defs[x];
    assert def.length == spec.defs[x].length;
    if def.kind.Basic? {
      BasicNoCrash(w, draws, Seed(prior, def.data, [USERNAME, PASSWORD]));
    }
  }

  lemma SaveNoCrash(spec: Spec, w: World, st: State, x: string, existing: Option<nat>, data: Data)
    requires existing.Some? ==> existing.value in st.store
    ensures !Save(spec, w, st, x, existing, data).answer.Crash?
  {
  }

  lemma PlainNoCrash(spec: Spec, w: World, st: State, x: string)
    requires Sane(spec) && x in spec.defs && OriginOf(spec, x).Local? && !spec.defs[x].kind.Template? && EntropyUp(w)
    ensures !GeneratePlain(spec, w, st, x).answer.Crash?
  {
    var existing := Find(st.store, spec.app, x);
    var d := PlainData(spec, w, st.draws, x, spec.defs[x], OldData(st.store, existing));
    PlainDataNoCrash(spec, w, st.draws, x, OldData(st.store, existing));
    if d.Ok? {
      SaveNoCrash(spec, w, st.(draws := st.draws + DrawsUsed(spec.defs[x])), x, existing, d.value);
    }
  }

  lemma {:induction false} TemplateNoCrash(spec: Spec, w: World, rank: string -> nat, depth: nat, st: State, x: string, stack: seq<string>)
    requires spec.Valid() && w.Valid() && Stacked(spec, st, stack) && Asks(spec, st.store, stack, x) && NoStale(spec, st.store)
    requires Acyclic(spec, rank) && Sane(spec) && depth > rank(x) && EntropyUp(w) && Recursive(spec, x) && x !in st.memo
    ensures !GenerateTemplate(spec, w, depth, st, x).answer.Crash?
    decreases depth, 1, |spec.defs[x].keys| + 1
  {
    var existing := Find(st.store, spec.app, x);
    var texts := Texts(spec, st.store, x);
    StackedPush(spec, st, x, stack);
    EntriesNoCrash(spec, w, rank, depth, st, x, texts, spec.defs[x].keys, stack + [x]);
    var s := RenderEntries(spec, w, depth, st, texts, spec.defs[x].keys);
    if s.answer.Ok? && (existing.Some? ==> existing.value in s.st.store) {
      SaveNoCrash(spec, w, s.st, x, existing, s.answer.value);
    }
  }

  lemma {:induction false} GetNoCrash(spec: Spec, w: World, rank: string -> nat, depth: nat, st: State, x: string, stack: seq<string>)
    requires spec.Valid() && w.Valid() && Stacked(spec, st, stack) && Asks(spec, st.store, stack, x) && NoStale(spec, st.store)
    requires Acyclic(spec, rank) && Sane(spec) && depth > rank(x) && EntropyUp(w)
    ensures !GetOrCreate(spec, w, depth, st, x).answer.Crash?
    decreases depth, 3, 0
  {
    if x !in st.memo && OriginOf(spec, x).Local? {
      GenerateNoCrash(spec, w, rank, depth, st, x, stack);
    }
  }

  lemma {:induction false} GenerateNoCrash(spec: Spec, w: World, rank: string -> nat, depth: nat, st: State, x: string, stack: seq<string>)
    requires spec.Valid() && w.Valid() && Stacked(spec, st, stack) && Asks(spec, st.store, stack, x) && NoStale(spec, st.store)
    requires Acyclic(spec, rank) && Sane(spec) && depth > rank(x) && EntropyUp(w) && x !in st.memo && OriginOf(spec, x).Local?
    ensures !Generate(spec, w, depth, st, x).answer.Crash?
    decreases depth, 2, 0
  {
    var called := st.(calls := st.calls + 1);
    if Recursive(spec, x) {
      CalledStacked(spec, st, called, x, stack);
      TemplateNoCrash(spec, w, rank, depth, called, x, stack);
    } else if x in spec.defs {
      PlainNoCrash(spec, w, called, x);
    }
    GenerateCrash(spec, w, depth, st, x);
  }

  /** Generating crashes only where the generator of the secret's kind does. */
  lemma GenerateCrash(spec: Spec, w: World, depth: nat, st: State, x: string)
    requires spec.Valid() && depth > 0
    ensures var called := st.(calls := st.calls + 1);
            Generate(spec, w, depth, st, x).answer.Crash? ==>
              x in spec.defs && (if spec.defs[x].kind.Template? then GenerateTemplate(spec, w, depth, called, x)
                                 else GeneratePlain(spec, w, called, x)).answer.Crash?
  {
  }

  lemma {:induction false} EntriesNoCrash(spec: Spec, w: World, rank: string -> nat, depth: nat, st: State, x: string, texts: Data,
                                          keys: seq<string>, stack: seq<string>)
    requires spec.Valid() && w.Valid() && Stacked(spec, st, stack) && NoStale(spec, st.store)
    requires stack != [] && stack[|stack| - 1] == x && Recursive(spec, x) && texts == Texts(spec, st.store, x)
    requires forall k :: k in keys ==> k in spec.defs[x].keys
    requires Acyclic(spec, rank) && Sane(spec) && depth > rank(x) && EntropyUp(w)
    ensures !RenderEntries(spec, w, depth, st, texts, keys).answer.Crash?
    decreases depth, 1, |keys|
  {
    if keys != [] {
      var segs := spec.segments(Get(texts, keys[0]));
      assert keys[0] in keys;
      forall r | Mentions(segs, r) ensures rank(r) < rank(x) {
        TextsRanked(spec, st.store, rank, x, keys[0], r);
      }
      SegmentsNoCrash(spec, w, rank, depth, st, x, segs, stack);
      SegmentsKeep(spec, w, depth, st, x, segs, stack);
      var s := RenderSegments(spec, w, depth, st, segs);
      if s.answer.Ok? {
        StackedKept(spec, stack, st, s.st);
        NeedsKept(spec, stack, st, s.st, x, "");
        NoStaleKept(spec, stack, st, s.st);
        EntriesNoCrash(spec, w, rank, depth, s.st, x, texts, keys[1..], stack);
      }
    }
  }

  lemma {:induction false} SegmentsNoCrash(spec: Spec, w: World, rank: string -> nat, depth: nat, st: State, x: string,
                                           segs: seq<Segment>, stack: seq<string>)
    requires spec.Valid() && w.Valid() && Stacked(spec, st, stack) && NoStale(spec, st.store)
    requires stack != [] && stack[|stack| - 1] == x
    requires forall r :: Mentions(segs, r) ==> Needs(spec, st.store, x, r) && rank(r) < rank(x)
    requires Acyclic(spec, rank) && Sane(spec) && depth > rank(x) && EntropyUp(w)
    ensures !RenderSegments(spec, w, depth, st, segs).answer.Crash?
    decreases depth, 0, |segs|
  {
    if segs != [] {
      var head := RenderSegment(spec, w, depth, st, segs[0]);
      HeadKeeps(spec, w, depth, st, x, segs, stack);
      if segs[0].Reference? { MentionsTail(segs, segs[0].secret); }
      HeadNoCrash(spec, w, rank, depth, st, x, segs[0], stack);
      NoStaleKept(spec, stack, st, head.st);
      SegmentsNoCrash(spec, w, rank, depth, head.st, x, segs[1..], stack);
    }
  }

  lemma {:induction false} HeadNoCrash(spec: Spec, w: World, rank: string -> nat, depth: nat, st: State, x: string, seg: Segment, stack: seq<string>)
    requires spec.Valid() && w.Valid() && Stacked(spec, st, stack) && NoStale(spec, st.store)
    requires seg.Reference? ==> Asks(spec, st.store, stack, seg.secret) && rank(seg.secret) < rank(x)
    requires Acyclic(spec, rank) && Sane(spec) && depth > rank(x) && EntropyUp(w)
    ensures !RenderSegment(spec, w, depth, st, seg).answer.Crash?
    decreases depth, 0, 0
  {
    if seg.Reference? {
      GetNoCrash(spec, w, rank, depth - 1, st, seg.secret, stack);
    }
  }
}
