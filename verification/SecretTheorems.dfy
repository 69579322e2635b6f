/** The promises of secret reconciliation, for whole passes and whole runs. */
module SecretTheorems {
  import opened GoStrings
  import opened Labels
  import opened Secrets
  import opened SecretStore
  import opened SecretEvaluation
  import opened SecretFixedPoint
  import opened SecretSettling
  import opened SecretReplay
  import opened SecretSecondPass
  import opened SecretWrites

  /** A pass starts with an empty memo. */
  function Start(store: Store): State { State(store, map[], [], 0, 0) }

  // ---------- The labels written are the labels looked up ----------

  /** `labelsForSecret`: lookup labels, overlaid by the user's, overlaid by the public name. */
  function LabelsForSecret(app: App, name: string, global: StringMap, own: StringMap, scoped: seq<ScopedLabel>, publicName: string): StringMap {
    Merge(Merge(map[APP_NAME := app.name, MANAGED := "true", SECRET_NAME := name, SECRET_GENERATED := "true"],
                Gathered(name, LABEL_TYPE_SECRET, global, own, scoped)),
          map[PUBLIC_NAME := publicName])
  }

  lemma LookupKeysAreAcornKeys()
    ensures IsAcornKey(APP_NAME) && IsAcornKey(MANAGED) && IsAcornKey(SECRET_NAME) && IsAcornKey(SECRET_GENERATED)
    ensures PUBLIC_NAME !in {APP_NAME, MANAGED, SECRET_NAME, SECRET_GENERATED}
    ensures APP_NAME != MANAGED && APP_NAME != SECRET_NAME && APP_NAME != SECRET_GENERATED
    ensures MANAGED != SECRET_NAME && MANAGED != SECRET_GENERATED && SECRET_NAME != SECRET_GENERATED
  {
    assert SECRET_NAME[9] == 's' && PUBLIC_NAME[9] == 'p';
    assert APP_NAME[..9] == PREFIX && MANAGED[..9] == PREFIX && SECRET_NAME[..9] == PREFIX && SECRET_GENERATED[..9] == PREFIX;
    assert |APP_NAME| == 17 && |MANAGED| == 16 && |SECRET_NAME| == 20 && |SECRET_GENERATED| == 25;
  }

  /** User labels of any origin cannot mask the lookup labels, because acorn keys are removed from them. */
  lemma LookupLabelsSurvive(app: App, name: string, global: StringMap, own: StringMap, scoped: seq<ScopedLabel>, publicName: string)
    ensures HasLookupLabels(app, name, LabelsForSecret(app, name, global, own, scoped, publicName))
  {
    LookupKeysAreAcornKeys();
    var user := Gathered(name, LABEL_TYPE_SECRET, global, own, scoped);
    assert APP_NAME !in user && MANAGED !in user && SECRET_NAME !in user && SECRET_GENERATED !in user;
  }

  // ---------- One pass ----------

  lemma {:induction false} PassKeeps(spec: Spec, w: World, depth: nat, st: State, names: seq<string>)
    requires spec.Valid() && w.Valid()
    ensures Keeps(spec, [], st, Pass(spec, w, depth, st, names))
    decreases |names|
  {
    KeepsSame(spec, [], st, st);
    if names != [] {
      GetKeeps(spec, w, depth, st, names[0], []);
      var s := GetOrCreate(spec, w, depth, st, names[0]);
      if !Ends(w, names[0], s) {
        PassKeeps(spec, w, depth, s.st, names[1..]);
        KeepsTransitive(spec, [], st, s.st, Pass(spec, w, depth, s.st, names[1..]));
      }
    }
  }

  lemma {:induction false} PassSettles(spec: Spec, w: World, depth: nat, st: State, names: seq<string>)
    requires spec.Valid() && w.Valid() && Sound(spec, st) && PassOk(spec, w, depth, st, names)
    ensures var st' := Pass(spec, w, depth, st, names);
            Sound(spec, st') && forall n :: n in names ==> MemoRef(spec, st'.memo, n).Some?
    decreases |names|
  {
    if names != [] {
      var s := GetOrCreate(spec, w, depth, st, names[0]);
      GetSettles(spec, w, depth, st, names[0], []);
      PassSettles(spec, w, depth, s.st, names[1..]);
      PassKeeps(spec, w, depth, s.st, names[1..]);
    }
  }

  /** An error-free pass writes each secret at most once, and only secrets it has an answer for. */
  lemma {:induction false} PassWritesOnce(spec: Spec, w: World, depth: nat, st: State, names: seq<string>)
    requires spec.Valid() && w.Valid() && PassOk(spec, w, depth, st, names)
    ensures WroteOnce(st, Pass(spec, w, depth, st, names), {})
    decreases |names|
  {
    if names != [] {
      var s := GetOrCreate(spec, w, depth, st, names[0]);
      GetWritesOnce(spec, w, depth, st, names[0], []);
      GetKeeps(spec, w, depth, st, names[0], []);
      PassWritesOnce(spec, w, depth, s.st, names[1..]);
      PassKeeps(spec, w, depth, s.st, names[1..]);
      WroteOnceCompose(st, s.st, Pass(spec, w, depth, s.st, names[1..]), {});
    }
  }

  /** The pass runs to its end, by itself or at a failing API, without crashing. */
  ghost predicate PassEnds(spec: Spec, w: World, depth: nat, st: State, names: seq<string>)
    requires spec.Valid()
    decreases |names|
  {
    names == [] ||
    var s := GetOrCreate(spec, w, depth, st, names[0]);
    !s.answer.Crash? && (Ends(w, names[0], s) || PassEnds(spec, w, depth, s.st, names[1..]))
  }

  /** Acyclic references never exhaust a stack that is deeper than the ranks, so the whole pass ends. */
  lemma {:induction false} AcyclicTerminates(spec: Spec, w: World, rank: string -> nat, depth: nat, st: State, names: seq<string>)
    requires spec.Valid() && w.Valid() && NoStale(spec, st.store) && Acyclic(spec, rank) && Sane(spec) && EntropyUp(w)
    requires forall n :: n in names ==> depth > rank(n)
    ensures PassEnds(spec, w, depth, st, names)
    decreases |names|
  {
    if names != [] {
      assert names[0] in names;
      GetNoCrash(spec, w, rank, depth, st, names[0], []);
      GetKeeps(spec, w, depth, st, names[0], []);
      var s := GetOrCreate(spec, w, depth, st, names[0]);
      NoStaleKept(spec, [], st, s.st);
      AcyclicTerminates(spec, w, rank, depth, s.st, names[1..]);
    }
  }

  /**
   Every answer memoised by an error-free pass is what a fresh evaluation against the resulting store gives,
   and that evaluation writes nothing, whatever the randomness, the stack and the API do the second time.
   */
  lemma MemoEqualsFreshEvaluation(spec: Spec, w: World, depth: nat, store: Store, names: seq<string>, w': World, depth': nat, n: string)
    requires spec.Valid() && w.Valid() && NoStale(spec, store) && PassOk(spec, w, depth, Start(store), names)
    requires n in Pass(spec, w, depth, Start(store), names).memo
    ensures var one := Pass(spec, w, depth, Start(store), names);
            var fresh' := GetOrCreate(spec, w', depth', Start(one.store), n);
            && fresh'.st.store == one.store && fresh'.st.writes == []
            && (fresh'.answer.Ok? ==> fresh'.answer.value == one.memo[n])
            && (ApiUp(w') ==> !fresh'.answer.Failed?)
            && (forall rank: string -> nat :: Acyclic(spec, rank) && ApiUp(w') && depth' > rank(n) ==> fresh'.answer == Ok(one.memo[n]))
  {
    var one := Pass(spec, w, depth, Start(store), names);
    PassSettles(spec, w, depth, Start(store), names);
    ReplayGet(spec, w', depth', Start(one.store), n, one.memo);
    forall rank: string -> nat | Acyclic(spec, rank) && ApiUp(w') && depth' > rank(n)
      ensures !GetOrCreate(spec, w', depth', Start(one.store), n).answer.Crash?
    {
      SettledGet(spec, w', rank, depth', Start(one.store), n, one.memo);
    }
  }

  /** A token generated from nothing has the requested length and alphabet; generated credentials have 8 and 16 characters of the pool. */
  lemma GeneratedShapes(w: World, draws: nat, def: SecretDef, seeded: Data)
    ensures var t := TokenData(w, draws, def, seeded);
            Get(seeded, TOKEN) == "" && t.Ok? ==>
              |Get(t.value, TOKEN)| == def.length.value && forall c :: c in Get(t.value, TOKEN) ==> c in def.characters
    ensures var b := BasicData(w, draws, seeded);
            Get(seeded, USERNAME) == "" && Get(seeded, PASSWORD) == "" && b.Ok? ==>
              |Get(b.value, USERNAME)| == 8 && |Get(b.value, PASSWORD)| == 16 &&
              forall c :: c in Get(b.value, USERNAME) + Get(b.value, PASSWORD) ==> c in w.pool
  {
    assert USERNAME[0] != PASSWORD[0];
  }

  /**
   After an error-free pass the store holds, for every generated secret answered, an object with the app's labels
   and annotations: values supplied by the specification are in force, and each template entry is its text with
   every reference replaced by the value that the memo holds for it.
   */
  lemma StoredSecretsMeetTheSpec(spec: Spec, w: World, depth: nat, store: Store, names: seq<string>, n: string, k: string)
    requires spec.Valid() && w.Valid() && NoStale(spec, store) && PassOk(spec, w, depth, Start(store), names)
    requires n in Pass(spec, w, depth, Start(store), names).memo && OriginOf(spec, n).Local?
    ensures var one := Pass(spec, w, depth, Start(store), names);
            var e := EntryOf(one.store, spec.app, n);
            && n in spec.defs && e.Some?
            && e.value.obj.labels == spec.labelsFor(n) && e.value.obj.annotations == spec.annotationsFor(n)
            && spec.decrypt(e.value.obj.data) == Some(one.memo[n])
            && (k in spec.defs[n].keys && spec.defs[n].data[k] != "" &&
                (spec.defs[n].kind.Opaque? || (k in StickyKeys(spec.defs[n].kind))) ==>
                  Get(e.value.obj.data, k) == spec.defs[n].data[k])
            && (k in spec.defs[n].keys && spec.defs[n].data[k] != "" && spec.defs[n].kind.Template? ==>
                  MemoEntry(spec, one.memo, spec.defs[n].data[k]) == Some(Get(e.value.obj.data, k)))
            && (spec.defs[n].kind.Generated? ==> spec.jobOutput(n) == Some(e.value.obj.data))
  {
    var one := Pass(spec, w, depth, Start(store), names);
    PassSettles(spec, w, depth, Start(store), names);
    assert Settled(spec, one.store, one.memo, n, one.memo[n]);
    var def, data := spec.defs[n], EntryOf(one.store, spec.app, n).value.obj.data;
    if k in def.keys && def.data[k] != "" {
      SuppliedValueSeeds(def, data, k);
    }
  }

  lemma SuppliedValueSeeds(def: SecretDef, data: Data, k: string)
    requires k in def.data && def.data[k] != ""
    ensures forall keys :: k in keys ==> Get(Seed(Some(data), def.data, keys), k) == def.data[k]
  {
  }

  lemma {:induction false} ReplayPass(spec: Spec, w: World, depth: nat, st: State, names: seq<string>, memo: map<string, Data>)
    requires spec.Valid() && AllSettled(spec, st.store, memo) && MemoGrows(st.memo, memo)
    requires forall n :: n in names ==> MemoRef(spec, memo, n).Some?
    ensures Replayed(st, Pass(spec, w, depth, st, names), memo)
    decreases |names|
  {
    if names != [] {
      assert names[0] in names;
      ReplayGet(spec, w, depth, st, names[0], memo);
      var s := GetOrCreate(spec, w, depth, st, names[0]);
      if !Ends(w, names[0], s) { ReplayPass(spec, w, depth, s.st, names[1..], memo); }
    }
  }

  /** Reconciling is a fixed point: a second pass writes nothing and contradicts no answer of the first. */
  lemma SecondPassWritesNothing(spec: Spec, w: World, depth: nat, store: Store, names: seq<string>, w': World, depth': nat)
    requires spec.Valid() && w.Valid() && NoStale(spec, store) && PassOk(spec, w, depth, Start(store), names)
    ensures var one := Pass(spec, w, depth, Start(store), names);
            var two := Pass(spec, w', depth', Start(one.store), names);
            two.store == one.store && two.writes == [] && MemoGrows(two.memo, one.memo)
  {
    var one := Pass(spec, w, depth, Start(store), names);
    PassSettles(spec, w, depth, Start(store), names);
    ReplayPass(spec, w', depth', Start(one.store), names, one.memo);
  }

  lemma {:induction false} PassAgain(spec: Spec, w: World, depth: nat, st: State, names: seq<string>, w': World, depth': nat, st2: State)
    requires spec.Valid() && w.Valid() && NoStale(spec, st.store) && PassOk(spec, w, depth, st, names)
    requires ApiUp(w') && depth' >= depth && st2.memo == st.memo && Agrees(spec, st2.store, Pass(spec, w, depth, st, names))
    ensures PassOk(spec, w', depth', st2, names)
    ensures var one, two := Pass(spec, w, depth, st, names), Pass(spec, w', depth', st2, names);
            two.memo == one.memo && two.store == st2.store && two.writes == st2.writes
    decreases |names|
  {
    if names != [] {
      var s := GetOrCreate(spec, w, depth, st, names[0]);
      GetKeeps(spec, w, depth, st, names[0], []);
      NoStaleKept(spec, [], st, s.st);
      PassKeeps(spec, w, depth, s.st, names[1..]);
      AgreesBefore(spec, st2.store, [], s.st, Pass(spec, w, depth, s.st, names[1..]));
      GetAgain(spec, w, depth, st, names[0], [], w', depth', st2);
      PassAgain(spec, w, depth, s.st, names[1..], w', depth', GetOrCreate(spec, w', depth', st2, names[0]).st);
    }
  }

  /**
   With a working API and no less stack, a second pass succeeds, returns exactly the values of the first and
   writes nothing, whatever the randomness and however the references run.
   */
  lemma SecondPassAnswersTheSame(spec: Spec, w: World, depth: nat, store: Store, names: seq<string>, w': World, depth': nat)
    requires spec.Valid() && w.Valid() && NoStale(spec, store) && PassOk(spec, w, depth, Start(store), names)
    requires ApiUp(w') && depth' >= depth
    ensures var one := Pass(spec, w, depth, Start(store), names);
            var two := Pass(spec, w', depth', Start(one.store), names);
            && PassOk(spec, w', depth', Start(one.store), names)
            && two.memo == one.memo && two.store == one.store && two.writes == []
  {
    var one := Pass(spec, w, depth, Start(store), names);
    PassAgain(spec, w, depth, Start(store), names, w', depth', Start(one.store));
  }

  // ---------- Every run ----------

  /** One pass of one app: its specification, what the world does meanwhile, and the names in their order. */
  datatype Episode = Episode(spec: Spec, w: World, depth: nat, names: seq<string>)

  ghost predicate ValidRun(run: seq<Episode>) { forall e :: e in run ==> e.spec.Valid() && e.w.Valid() }

  ghost function RunStore(store: Store, run: seq<Episode>): Store
    requires ValidRun(run)
    decreases |run|
  {
    if run == [] then store
    else RunStore(Pass(run[0].spec, run[0].w, run[0].depth, Start(store), run[0].names).store, run[1..])
  }

  /** In every reachable store an app's secret has at most one generated object. */
  lemma {:induction false} UniqueInEveryRun(store: Store, run: seq<Episode>)
    requires ValidRun(run) && Unique(store)
    ensures Unique(RunStore(store, run))
    decreases |run|
  {
    if run != [] {
      var e := run[0];
      assert e in run;
      PassKeeps(e.spec, e.w, e.depth, Start(store), e.names);
      UniqueInEveryRun(Pass(e.spec, e.w, e.depth, Start(store), e.names).store, run[1..]);
    }
  }

  /** The secret keeps a kind with this sticky key, and the specification never supplies a value for it. */
  ghost predicate Unsupplied(run: seq<Episode>, app: App, n: string, key: string) {
    forall e :: e in run && e.spec.app == app && n in e.spec.defs ==>
      key in StickyKeys(e.spec.defs[n].kind) && Get(e.spec.defs[n].data, key) == ""
  }

  /** A generated token, user name or password survives every run in which the specification supplies none. */
  lemma {:induction false} GeneratedValuesSurvive(store: Store, run: seq<Episode>, app: App, n: string, key: string)
    requires ValidRun(run) && Unsupplied(run, app, n, key) && Get(DataOf(EntryOf(store, app, n)), key) != ""
    ensures Get(DataOf(EntryOf(RunStore(store, run), app, n)), key) == Get(DataOf(EntryOf(store, app, n)), key)
    decreases |run|
  {
    if run != [] {
      var e := run[0];
      assert e in run;
      var after := Pass(e.spec, e.w, e.depth, Start(store), e.names).store;
      PassKeeps(e.spec, e.w, e.depth, Start(store), e.names);
      assert EntryOf(after, app, n) == EntryOf(store, app, n) ||
             (app == e.spec.app && n in e.spec.defs && Rewritten(e.spec, e.spec.defs[n], EntryOf(store, app, n), EntryOf(after, app, n)));
      GeneratedValuesSurvive(after, run[1..], app, n, key);
    }
  }
}
