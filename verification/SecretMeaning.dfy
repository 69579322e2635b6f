/**
 What the specification of secret evaluation means, from the fields of an app's specification alone: where a
 name's data comes from, what random values are drawn, and how a template's text is put together.
 */
module SecretMeaning {
  import opened GoStrings
  import opened Labels
  import opened Secrets
  import opened SecretEvaluation
  import opened SecretFixedPoint
  import opened SecretTheorems

  // ---------- Where a name's data comes from ----------

  /** Binding `i` is the last one of the name. */
  predicate LastBindingAt(spec: Spec, name: string, i: int) {
    0 <= i < |spec.bindings| && spec.bindings[i].target == name && forall j :: i < j < |spec.bindings| ==> spec.bindings[j].target != name
  }

  ghost predicate Bound(spec: Spec, name: string, reference: string) {
    exists i :: LastBindingAt(spec, name, i) && spec.bindings[i].secret == reference && reference != ""
  }

  /** No binding of the name says anything: there is none, or the last one is empty. */
  ghost predicate Unbound(spec: Spec, name: string) { forall i :: LastBindingAt(spec, name, i) ==> spec.bindings[i].secret == "" }

  predicate NoExternal(spec: Spec, name: string) { name in spec.defs ==> spec.defs[name].external == "" }

  predicate NoAlias(spec: Spec, name: string) { name in spec.defs ==> spec.defs[name].alias == "" }

  /**
   The name stands for a secret elsewhere: the user's binding first, then the definition's external secret, both in the
   app's namespace; then its alias, then a dotted name itself, both in the namespace the app runs in.
   */
  ghost predicate StandsFor(spec: Spec, name: string, namespace: string, reference: string) {
    || (Bound(spec, name, reference) && namespace == spec.app.namespace)
    || (Unbound(spec, name) && !NoExternal(spec, name) && reference == spec.defs[name].external && namespace == spec.app.namespace)
    || (Unbound(spec, name) && NoExternal(spec, name) && !NoAlias(spec, name) && reference == spec.defs[name].alias && namespace == spec.statusNamespace)
    || (Unbound(spec, name) && NoExternal(spec, name) && NoAlias(spec, name) && '.' in name && reference == name && namespace == spec.statusNamespace)
  }

  /** None of the four applies. */
  ghost predicate OwnSecret(spec: Spec, name: string) {
    Unbound(spec, name) && NoExternal(spec, name) && NoAlias(spec, name) && '.' !in name
  }

  predicate IsContext(reference: string) { |reference| >= 10 && reference[..10] == "context://" }

  lemma {:induction false} LastBindingMeans(bindings: seq<Binding>, name: string)
    ensures (LastBinding(bindings, name) == "" && forall j :: 0 <= j < |bindings| ==> bindings[j].target != name) ||
            exists i :: 0 <= i < |bindings| && bindings[i].target == name && bindings[i].secret == LastBinding(bindings, name) &&
                        forall j :: i < j < |bindings| ==> bindings[j].target != name
  {
    if bindings != [] && bindings[|bindings| - 1].target != name {
      LastBindingMeans(bindings[..|bindings| - 1], name);
    }
  }

  lemma BoundMeans(spec: Spec, name: string)
    ensures LastBinding(spec.bindings, name) == "" <==> Unbound(spec, name)
    ensures forall reference :: Bound(spec, name, reference) <==> reference != "" && LastBinding(spec.bindings, name) == reference
  {
    LastBindingMeans(spec.bindings, name);
    var last := LastBinding(spec.bindings, name);
    if i :| 0 <= i < |spec.bindings| && spec.bindings[i].target == name && spec.bindings[i].secret == last &&
            forall j :: i < j < |spec.bindings| ==> spec.bindings[j].target != name {
      assert LastBindingAt(spec, name, i);
      assert forall j :: LastBindingAt(spec, name, j) ==> j == i;
    }
  }

  lemma OriginMeans(spec: Spec, name: string)
    ensures OriginOf(spec, name).Local? <==> OwnSecret(spec, name)
    ensures forall ns, reference :: StandsFor(spec, name, ns, reference) ==>
              OriginOf(spec, name) == if IsContext(reference) then Context(reference[10..]) else External(ns, reference)
  {
    BoundMeans(spec, name);
    assert |CONTEXT_PREFIX| == 10;
  }

  /** A name that stands for a secret elsewhere is answered from there, whatever is defined or stored for it here. */
  lemma ReferenceIsFollowed(spec: Spec, w: World, depth: nat, st: State, name: string, ns: string, reference: string)
    requires spec.Valid() && depth > 0 && name !in st.memo && StandsFor(spec, name, ns, reference)
    ensures !IsContext(reference) ==>
              GetOrCreate(spec, w, depth, st, name) ==
              var d := spec.lookup(ns, reference);
              if d.None? then Step(Failed, st) else Step(Ok(d.value), st.(memo := st.memo[name := d.value]))
    ensures IsContext(reference) ==>
              GetOrCreate(spec, w, depth, st, name) ==
              var d := spec.context(reference[10..]);
              Step(if d.None? then Failed else Ok(d.value), st)
  {
    OriginMeans(spec, name);
  }

  /** A name is either generated by the app or stands for exactly one secret elsewhere. */
  lemma OwnOrElsewhere(spec: Spec, name: string)
    ensures OwnSecret(spec, name) <==> !exists ns, reference :: StandsFor(spec, name, ns, reference)
    ensures forall ns, reference, ns', reference' :: StandsFor(spec, name, ns, reference) && StandsFor(spec, name, ns', reference') ==>
              ns == ns' && reference == reference'
  {
    BoundMeans(spec, name);
    if !OwnSecret(spec, name) {
      var last := LastBinding(spec.bindings, name);
      var ns := if last != "" || !NoExternal(spec, name) then spec.app.namespace else spec.statusNamespace;
      var reference := if last != "" then last
                       else if !NoExternal(spec, name) then spec.defs[name].external
                       else if !NoAlias(spec, name) then spec.defs[name].alias else name;
      assert StandsFor(spec, name, ns, reference);
    }
  }

  /** The app's own secret is generated from its definition, if it has one, and then memoised. */
  lemma OwnIsGenerated(spec: Spec, w: World, depth: nat, st: State, name: string)
    requires spec.Valid() && depth > 0 && name !in st.memo && OwnSecret(spec, name)
    ensures var g := Generate(spec, w, depth, st, name);
            GetOrCreate(spec, w, depth, st, name) == if g.answer.Ok? then Step(g.answer, g.st.(memo := g.st.memo[name := g.answer.value])) else g
    ensures name !in spec.defs || !w.apiOk(st.calls) ==> GetOrCreate(spec, w, depth, st, name) == Step(Failed, st.(calls := st.calls + 1))
  {
    OriginMeans(spec, name);
  }

  // ---------- Random values ----------

  /** Every character is picked by one random number of its own; those numbers are drawn one after the other. */
  lemma {:induction false} DrawMeans(w: World, cursor: nat, characters: string, n: nat)
    requires n == 0 || characters != []
    ensures var r := Draw(w, cursor, characters, n);
            && (r.Some? <==> forall c: nat :: cursor <= c < cursor + n ==> w.entropy(c).Some?)
            && (r.Some? ==> forall c: nat :: cursor <= c < cursor + n ==> r.value[c - cursor] == characters[w.entropy(c).value % |characters|])
    decreases n
  {
    if n > 0 {
      DrawMeans(w, cursor + 1, characters, n - 1);
    }
  }

  /** The text is picked from the pool by the random numbers from `cursor` on. */
  ghost predicate Picked(w: World, cursor: nat, text: string) {
    w.pool != "" && forall c: nat :: cursor <= c < cursor + |text| ==> w.entropy(c).Some? && text[c - cursor] == w.pool[w.entropy(c).value % |w.pool|]
  }

  lemma DrawnIsPicked(w: World, cursor: nat, len: nat, n: nat)
    requires w.pool != "" && n <= len && Draw(w, cursor, w.pool, len).Some?
    ensures Picked(w, cursor, Draw(w, cursor, w.pool, len).value[..n])
  {
    DrawMeans(w, cursor, w.pool, len);
  }

  lemma FillIsDrawn(w: World, draws: nat, seeded: Data, key: string, n: nat, len: nat)
    requires len == RANDOM_LENGTH && n <= len && Get(seeded, key) == "" && FillBasic(w, draws, seeded, key, n).Ok?
    ensures w.pool != "" && Draw(w, draws, w.pool, len).Some?
    ensures FillBasic(w, draws, seeded, key, n).value == seeded[key := Draw(w, draws, w.pool, len).value[..n]]
  {
  }

  /** A missing credential is picked by the next random numbers; one that is there is kept. */
  ghost predicate Filled(w: World, cursor: nat, was: string, now: string, n: nat) {
    if was != "" then now == was else |now| == n && Picked(w, cursor, now)
  }

  lemma CredentialMeans(w: World, draws: nat, seeded: Data, key: string, n: nat, len: nat)
    requires len == RANDOM_LENGTH && n <= len && FillBasic(w, draws, seeded, key, n).Ok?
    ensures var d := FillBasic(w, draws, seeded, key, n).value;
            Filled(w, draws, Get(seeded, key), Get(d, key), n) && forall k :: k != key ==> Get(d, k) == Get(seeded, k)
  {
    if Get(seeded, key) == "" {
      FillIsDrawn(w, draws, seeded, key, n, len);
      DrawnIsPicked(w, draws, len, n);
    }
  }

  /** User name and password are filled separately, with 8 and 16 characters from draws that do not overlap. */
  lemma CredentialsMean(w: World, draws: nat, seeded: Data)
    requires BasicData(w, draws, seeded).Ok?
    ensures var d := BasicData(w, draws, seeded).value;
            && Filled(w, draws, Get(seeded, USERNAME), Get(d, USERNAME), 8)
            && Filled(w, draws + 54, Get(seeded, PASSWORD), Get(d, PASSWORD), 16)
  {
    assert USERNAME[0] != PASSWORD[0];
    CredentialMeans(w, draws, seeded, USERNAME, 8, RANDOM_LENGTH);
    CredentialMeans(w, draws + RANDOM_LENGTH, FillBasic(w, draws, seeded, USERNAME, 8).value, PASSWORD, 16, RANDOM_LENGTH);
  }

  /** Worlds that draw the same numbers from `cursor` up to `end`. */
  ghost predicate SameDraws(w: World, w': World, cursor: nat, end: nat) {
    w'.pool == w.pool && forall c: nat :: cursor <= c < end ==> w'.entropy(c) == w.entropy(c)
  }

  lemma {:induction false} DrawWithin(w: World, w': World, cursor: nat, characters: string, n: nat)
    requires (n == 0 || characters != []) && SameDraws(w, w', cursor, cursor + n)
    ensures Draw(w', cursor, characters, n) == Draw(w, cursor, characters, n)
    decreases n
  {
    if n > 0 { DrawWithin(w, w', cursor + 1, characters, n - 1); }
  }

  lemma FillWithin(w: World, w': World, draws: nat, seeded: Data, key: string, n: nat, len: nat)
    requires len == RANDOM_LENGTH && n <= len && SameDraws(w, w', draws, draws + len)
    ensures FillBasic(w', draws, seeded, key, n) == FillBasic(w, draws, seeded, key, n)
  {
    if w.pool != "" { DrawWithin(w, w', draws, w.pool, len); }
  }

  /**
   The data of a secret depends only on the random numbers from where it starts drawing to where the next secret
   starts: no random number is used for two secrets.
   */
  lemma SecretsDrawApart(spec: Spec, w: World, w': World, st: State, name: string)
    requires name in spec.defs && !spec.defs[name].kind.Template? && SameDraws(w, w', st.draws, GeneratePlain(spec, w, st, name).st.draws)
    ensures var prior := OldData(st.store, Find(st.store, spec.app, name));
            PlainData(spec, w', st.draws, name, spec.defs[name], prior) == PlainData(spec, w, st.draws, name, spec.defs[name], prior)
  {
    var def, prior := spec.defs[name], OldData(st.store, Find(st.store, spec.app, name));
    DrawsSpent(spec, w, st, name);
    if def.kind.Basic? {
      BasicWithin(w, w', st.draws, Seed(prior, def.data, [USERNAME, PASSWORD]));
    } else if def.kind.Token? && def.length.Some? && def.length.value >= 0 && (def.length.value == 0 || def.characters != []) {
      DrawWithin(w, w', st.draws, def.characters, def.length.value);
    }
  }

  lemma DrawsSpent(spec: Spec, w: World, st: State, name: string)
    requires name in spec.defs
    ensures var def, spent := spec.defs[name], GeneratePlain(spec, w, st, name).st.draws - st.draws;
            && (def.kind.Basic? ==> spent == 108)
            && (def.kind.Token? && def.length.Some? && def.length.value >= 0 ==> spent == def.length.value)
  {
    PlainSteps(spec, w, st, name);
  }

  lemma BasicWithin(w: World, w': World, draws: nat, seeded: Data)
    requires SameDraws(w, w', draws, draws + 108)
    ensures BasicData(w', draws, seeded) == BasicData(w, draws, seeded)
  {
    FillWithin(w, w', draws, seeded, USERNAME, 8, RANDOM_LENGTH);
    var user := FillBasic(w, draws, seeded, USERNAME, 8);
    if user.Ok? { FillWithin(w, w', draws + RANDOM_LENGTH, user.value, PASSWORD, 16, RANDOM_LENGTH); }
  }

  /** The keys of generated data: those of the definition, or those that the kind of the secret prescribes. */
  lemma DataKeys(spec: Spec, w: World, draws: nat, name: string, prior: Option<Data>)
    requires spec.Valid() && name in spec.defs && PlainData(spec, w, draws, name, spec.defs[name], prior).Ok?
    ensures var def, data := spec.defs[name], PlainData(spec, w, draws, name, spec.defs[name], prior).value;
            && (def.kind.Opaque? ==> data.Keys == def.data.Keys)
            && (def.kind.Basic? ==> data.Keys == {"username", "password"})
            && (def.kind.Token? ==> data.Keys == {"token"})
  {
    var def := spec.defs[name];
    if def.kind.Basic? {
      BasicKept(w, draws, Seed(prior, def.data, [USERNAME, PASSWORD]));
    } else if def.kind.Token? {
      TokenKept(w, draws, def, Seed(prior, def.data, [TOKEN]));
    }
  }

  // ---------- Passes and texts go on after a failure ----------

  /** The secrets a text refers to, in order. */
  function ReferencesOf(segs: seq<Segment>): seq<string> {
    if segs == [] then [] else (if segs[0].Reference? then [segs[0].secret] else []) + ReferencesOf(segs[1..])
  }

  /** Evaluation of names one after the other, whatever becomes of each. */
  ghost function AskAll(spec: Spec, w: World, depth: nat, st: State, names: seq<string>): State
    requires spec.Valid()
    decreases |names|
  {
    if names == [] then st else AskAll(spec, w, depth, GetOrCreate(spec, w, depth, st, names[0]).st, names[1..])
  }

  /** Unless it crashes, rendering a text evaluates every secret it refers to, also after one of them has failed. */
  lemma {:induction false} EveryReferenceIsAsked(spec: Spec, w: World, depth: nat, st: State, segs: seq<Segment>)
    requires spec.Valid() && depth > 0
    ensures var s := RenderSegments(spec, w, depth, st, segs);
            s.answer.Crash? || s.st == AskAll(spec, w, depth - 1, st, ReferencesOf(segs))
    decreases |segs|
  {
    if segs != [] {
      var head, rest := RenderSegment(spec, w, depth, st, segs[0]), ReferencesOf(segs[1..]);
      EveryReferenceIsAsked(spec, w, depth, head.st, segs[1..]);
      if segs[0].Reference? {
        assert ([segs[0].secret] + rest)[1..] == rest;
      } else {
        assert [] + rest == rest;
      }
    }
  }

  /** The entries of a template are rendered in turn, and the first that fails is the last that is looked at. */
  lemma {:induction false} EntriesInTurn(spec: Spec, w: World, depth: nat, st: State, texts: Data, a: seq<string>, b: seq<string>)
    requires spec.Valid() && depth > 0
    ensures var first, all := RenderEntries(spec, w, depth, st, texts, a), RenderEntries(spec, w, depth, st, texts, a + b);
            && all.st == (if first.answer.Ok? then RenderEntries(spec, w, depth, first.st, texts, b).st else first.st)
            && (!first.answer.Ok? ==> all.answer == first.answer)
            && (all.answer.Ok? ==> first.answer.Ok?)
    decreases |a|
  {
    if a == [] {
      assert a + b == b;
    } else {
      assert (a + b)[0] == a[0] && (a + b)[1..] == a[1..] + b;
      var s := RenderSegments(spec, w, depth, st, spec.segments(Get(texts, a[0])));
      EntriesInTurn(spec, w, depth, s.st, texts, a[1..], b);
    }
  }

  /** Nothing ends the pass at these names: no crash, and no failure of the kind that does. */
  ghost predicate Uninterrupted(spec: Spec, w: World, depth: nat, st: State, names: seq<string>)
    requires spec.Valid()
    decreases |names|
  {
    names == [] ||
    var s := GetOrCreate(spec, w, depth, st, names[0]);
    !s.answer.Crash? && (s.answer.Failed? ==> !w.endsPass(names[0], s.st.calls)) && Uninterrupted(spec, w, depth, s.st, names[1..])
  }

  /** A pass that nothing ends evaluates all its names, going on after failures. */
  lemma {:induction false} EveryNameIsTried(spec: Spec, w: World, depth: nat, st: State, names: seq<string>)
    requires spec.Valid() && Uninterrupted(spec, w, depth, st, names)
    ensures Pass(spec, w, depth, st, names) == AskAll(spec, w, depth, st, names)
    decreases |names|
  {
    if names != [] {
      EveryNameIsTried(spec, w, depth, GetOrCreate(spec, w, depth, st, names[0]).st, names[1..]);
    }
  }

  /** A crash or an API failure ends the pass: the names after it are not evaluated. */
  lemma {:induction false} PassStops(spec: Spec, w: World, depth: nat, st: State, before: seq<string>, n: string, after: seq<string>)
    requires spec.Valid() && Uninterrupted(spec, w, depth, st, before)
    requires var s := GetOrCreate(spec, w, depth, AskAll(spec, w, depth, st, before), n);
             s.answer.Crash? || (s.answer.Failed? && w.endsPass(n, s.st.calls))
    ensures Pass(spec, w, depth, st, before + [n] + after) == GetOrCreate(spec, w, depth, AskAll(spec, w, depth, st, before), n).st
    decreases |before|
  {
    var names := before + [n] + after;
    if before == [] {
      assert names[0] == n;
    } else {
      assert names[0] == before[0] && names[1..] == before[1..] + [n] + after;
      PassStops(spec, w, depth, GetOrCreate(spec, w, depth, st, before[0]).st, before[1..], n, after);
    }
  }

  // ---------- Texts ----------

  /** The pieces of a text are rendered in their order. */
  lemma {:induction false} SegmentsInOrder(spec: Spec, memo: map<string, Data>, a: seq<Segment>, b: seq<Segment>)
    ensures MemoSegments(spec, memo, a + b).Some? <==> MemoSegments(spec, memo, a).Some? && MemoSegments(spec, memo, b).Some?
    ensures MemoSegments(spec, memo, a + b).Some? ==>
              MemoSegments(spec, memo, a + b).value == MemoSegments(spec, memo, a).value + MemoSegments(spec, memo, b).value
  {
    if a == [] {
      assert a + b == b;
    } else {
      SegmentsInOrder(spec, memo, a[1..], b);
      assert (a + b)[1..] == a[1..] + b;
    }
  }

  /** A reference between two texts becomes the referenced value between them, and fails if there is none. */
  lemma ReferenceBetweenTexts(spec: Spec, memo: map<string, Data>, p: string, n: string, key: string, q: string)
    requires n in memo
    ensures MemoSegments(spec, memo, [Text(p), Reference(n, key), Text(q)]) ==
            if key in memo[n] && memo[n][key] != "" then Some(p + memo[n][key] + q) else None
  {
    var segs := [Text(p), Reference(n, key), Text(q)];
    assert segs[1..] == [Reference(n, key), Text(q)] && segs[1..][1..] == [Text(q)] && [Text(q)][1..] == [];
    assert MemoSegments(spec, memo, [Text(q)]) == Some(q) by { assert q + "" == q; }
    if key in memo[n] { assert p + (memo[n][key] + q) == p + memo[n][key] + q; }
  }

  // ---------- Labels ----------

  /** A secret carries its public name and every user label; any other label is one of the lookup labels. */
  lemma LabelsOfSecret(app: App, name: string, global: StringMap, own: StringMap, scoped: seq<ScopedLabel>, publicName: string, k: string)
    ensures var labels := LabelsForSecret(app, name, global, own, scoped, publicName);
            var user := Gathered(name, LABEL_TYPE_SECRET, global, own, scoped);
            && PUBLIC_NAME in labels && labels[PUBLIC_NAME] == publicName
            && (k in user ==> k in labels && labels[k] == user[k])
            && (k in labels && k !in user ==> k in {PUBLIC_NAME, APP_NAME, MANAGED, SECRET_NAME, SECRET_GENERATED})
  {
    PublicNameIsAcornKey();
  }

  lemma PublicNameIsAcornKey()
    ensures IsAcornKey(PUBLIC_NAME)
  {
    assert PUBLIC_NAME[..9] == PREFIX;
  }
}
