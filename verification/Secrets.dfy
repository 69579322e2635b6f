/**
 Secret reconciliation (pkg/secrets/secret.go): the store of secret objects, the specification of an app's
 secrets, and the recursive, memoised evaluation that generates them.  Foreign lookups, text parsing and
 encryption are fields of `Spec`; API failures, randomness and object identity are fields of `World`.
 */
module Secrets {
  import opened GoStrings
  import opened Labels

  type Data = map<string, string>

  datatype Kind = Opaque | Basic | Token | Template | Generated | Unknown

  datatype Segment = Text(text: string) | Reference(secret: string, key: string)

  datatype SecretDef = SecretDef(
    kind: Kind,
    data: Data,
    keys: seq<string>,          // the keys of `data`, sorted
    length: Option<int>,        // token length; None if it is not a number
    characters: string,
    labels: StringMap,
    annotations: StringMap,
    external: string,
    alias: string)

  datatype Binding = Binding(target: string, secret: string)

  datatype App = App(namespace: string, name: string)

  datatype SecretObj = SecretObj(namespace: string, labels: StringMap, annotations: StringMap, data: Data)

  type Store = map<nat, SecretObj>

  datatype Spec = Spec(
    app: App,
    statusNamespace: string,
    defs: map<string, SecretDef>,
    bindings: seq<Binding>,
    labelsFor: string -> StringMap,             // labels of the secret with a given name
    annotationsFor: string -> StringMap,
    lookup: (string, string) -> Option<Data>,   // namespace and reference to decrypted data
    context: string -> Option<Data>,            // context:// secrets
    pullable: bool,                             // the app image has a pullable reference
    segments: string -> seq<Segment>,           // a template cut at its ${secret://name/key} marks
    finish: string -> Option<string>,           // image and expression interpolation
    decrypt: Data -> Option<Data>,
    jobOutput: string -> Option<Data>)
  {
    ghost predicate Valid() {
      && (forall n, k {:trigger k in defs[n].keys} :: n in defs ==> (k in defs[n].keys <==> k in defs[n].data))
      && (forall n {:trigger labelsFor(n)} :: n in defs ==> HasLookupLabels(app, n, labelsFor(n)))
      && segments("") == []
      && finish("") == Some("")
    }
  }

  /** `endsPass` tells whether a name's failure is an API status error other than "not found", which ends a pass. */
  datatype World = World(apiOk: nat -> bool, entropy: nat -> Option<nat>, pool: string, newUid: Store -> nat, endsPass: (string, nat) -> bool) {
    ghost predicate Valid() {
      forall s: Store :: newUid(s) !in s
    }
  }

  datatype Answer<+T> = Ok(value: T) | Failed | Crash

  /** `writes` records the names written through the API; `calls` and `draws` number the oracle questions. */
  datatype State = State(store: Store, memo: map<string, Data>, writes: seq<string>, calls: nat, draws: nat)

  datatype Step<+T> = Step(answer: Answer<T>, st: State)

  function Get(d: Data, key: string): string { if key in d then d[key] else "" }

  predicate TextOnly(segs: seq<Segment>) { forall i :: 0 <= i < |segs| ==> segs[i].Text? }

  function TextOf(segs: seq<Segment>): string
    requires TextOnly(segs)
  {
    if segs == [] then "" else segs[0].text + TextOf(segs[1..])
  }

  /** Text without references or expressions: rendering it gives it back. */
  predicate Inert(spec: Spec, t: string) {
    TextOnly(spec.segments(t)) && TextOf(spec.segments(t)) == t && spec.finish(t) == Some(t)
  }

  // ---------- Labels and lookup ----------

  predicate LabelIs(labels: StringMap, key: string, value: string) { key in labels && labels[key] == value }

  predicate HasLookupLabels(app: App, name: string, labels: StringMap) {
    && LabelIs(labels, APP_NAME, app.name)
    && LabelIs(labels, MANAGED, "true")
    && LabelIs(labels, SECRET_NAME, name)
    && LabelIs(labels, SECRET_GENERATED, "true")
  }

  /** The list selector of `getSecret`: same namespace, and all lookup labels present. */
  predicate Selects(app: App, name: string, o: SecretObj) {
    o.namespace == app.namespace && HasLookupLabels(app, name, o.labels)
  }

  lemma {:induction false} Least(s: set<nat>) returns (m: nat)
    requires s != {}
    ensures m in s && forall v :: v in s ==> m <= v
  {
    m :| m in s;
    var rest := s - {m};
    assert forall v :: v in s ==> v == m || v in rest;
    if rest != {} {
      var u := Least(rest);
      if u < m { m := u; }
    }
  }

  lemma LeastExists(s: set<nat>)
    requires s != {}
    ensures exists u :: u in s && forall v :: v in s ==> u <= v
  {
    var m := Least(s);
  }

  /** The selected object with the smallest UID. */
  ghost function Find(store: Store, app: App, name: string): (r: Option<nat>)
    ensures r.Some? ==> r.value in store && Selects(app, name, store[r.value])
    ensures r.Some? ==> forall v :: v in store && Selects(app, name, store[v]) ==> r.value <= v
    ensures r.None? ==> forall v :: v in store ==> !Selects(app, name, store[v])
  {
    var hits := set u | u in store && Selects(app, name, store[u]);
    if hits == {} then assert forall v :: v in store && Selects(app, name, store[v]) ==> v in hits; None
    else
      LeastExists(hits);
      var u :| u in hits && forall v :: v in hits ==> u <= v;
      assert forall v :: v in store && Selects(app, name, store[v]) ==> v in hits;
      Some(u)
  }

  ghost function OldData(store: Store, existing: Option<nat>): Option<Data>
    requires existing.Some? ==> existing.value in store
  {
    if existing.Some? then Some(store[existing.value].data) else None
  }

  // ---------- Generators ----------

  function SeedValue(prior: Option<Data>, from: Data, k: string): string {
    var prev := if prior.Some? then Get(prior.value, k) else "";
    if k in from && (from[k] != "" || prev == "") then from[k] else prev
  }

  /** What `seedData` leaves in its map. */
  function Seed(prior: Option<Data>, from: Data, keys: seq<string>): Data {
    map k | k in keys && (prior.Some? || k in from) :: SeedValue(prior, from, k)
  }

  /** `n` characters drawn from the alphabet, starting at a position of the entropy source. */
  function Draw(w: World, cursor: nat, characters: string, n: nat): (r: Option<string>)
    requires n == 0 || characters != []
    ensures r.Some? ==> |r.value| == n && forall c :: c in r.value ==> c in characters
    decreases n
  {
    if n == 0 then Some("")
    else if w.entropy(cursor).None? then None
    else
      var rest := Draw(w, cursor + 1, characters, n - 1);
      if rest.None? then None
      else Some([characters[w.entropy(cursor).value % |characters|]] + rest.value)
  }

  const USERNAME := "username"
  const PASSWORD := "password"
  const TOKEN := "token"
  const RANDOM_LENGTH := 54

  /** One credential of a basic secret; running out of entropy crashes, because the result is sliced first. */
  function FillBasic(w: World, draws: nat, data: Data, key: string, n: nat): Answer<Data>
    requires n <= RANDOM_LENGTH
  {
    if Get(data, key) != "" then Ok(data)
    else if w.pool == [] then Crash
    else
      var v := Draw(w, draws, w.pool, RANDOM_LENGTH);
      if v.None? then Crash else Ok(data[key := v.value[..n]])
  }

  function BasicData(w: World, draws: nat, seeded: Data): Answer<Data> {
    var user := FillBasic(w, draws, seeded, USERNAME, 8);
    if !user.Ok? then user else FillBasic(w, draws + RANDOM_LENGTH, user.value, PASSWORD, 16)
  }

  /** A negative length or an empty alphabet makes the original panic. */
  function TokenData(w: World, draws: nat, def: SecretDef, seeded: Data): Answer<Data> {
    if Get(seeded, TOKEN) != "" then Ok(seeded)
    else if def.length.None? then Failed
    else if def.length.value < 0 || (def.length.value > 0 && def.characters == []) then Crash
    else
      var v := Draw(w, draws, def.characters, def.length.value);
      if v.None? then Failed else Ok(seeded[TOKEN := v.value])
  }

  // ---------- Where a name's data comes from ----------

  datatype Origin = Local | External(namespace: string, reference: string) | Context(reference: string)

  const CONTEXT_PREFIX := "context://"

  function LastBinding(bindings: seq<Binding>, name: string): string {
    if bindings == [] then ""
    else if bindings[|bindings| - 1].target == name then bindings[|bindings| - 1].secret
    else LastBinding(bindings[..|bindings| - 1], name)
  }

  function OriginOf(spec: Spec, name: string): Origin {
    var bound := LastBinding(spec.bindings, name);
    var external := if name in spec.defs then spec.defs[name].external else "";
    var alias := if name in spec.defs then spec.defs[name].alias else "";
    var (ns, reference) :=
      if bound != "" then (spec.app.namespace, bound)
      else if external != "" then (spec.app.namespace, external)
      else if alias != "" then (spec.statusNamespace, alias)
      else if '.' in name then (spec.statusNamespace, name)
      else (spec.app.namespace, "");
    if reference == "" then Local
    else if HasPrefix(reference, CONTEXT_PREFIX) then Context(reference[|CONTEXT_PREFIX|..])
    else External(ns, reference)
  }

  // ---------- Evaluation ----------

  function FromOption<T>(o: Option<T>): Answer<T> { if o.Some? then Ok(o.value) else Failed }

  /** `updateOrCreate`: create, update or leave alone, then answer with the decrypted data. */
  ghost function Save(spec: Spec, w: World, st: State, name: string, existing: Option<nat>, data: Data): Step<Data>
    requires existing.Some? ==> existing.value in st.store
  {
    var labels, annotations := spec.labelsFor(name), spec.annotationsFor(name);
    if existing.Some? && st.store[existing.value].data == data &&
       st.store[existing.value].labels == labels && st.store[existing.value].annotations == annotations then
      Step(FromOption(spec.decrypt(data)), st)
    else if !w.apiOk(st.calls) then Step(Failed, st.(calls := st.calls + 1))
    else
      var uid := if existing.Some? then existing.value else w.newUid(st.store);
      var o := SecretObj(if existing.Some? then st.store[uid].namespace else spec.app.namespace, labels, annotations, data);
      Step(FromOption(spec.decrypt(data)),
           st.(store := st.store[uid := o], writes := st.writes + [name], calls := st.calls + 1))
  }

  ghost function Texts(spec: Spec, store: Store, name: string): Data
    requires name in spec.defs
  {
    Seed(OldData(store, Find(store, spec.app, name)), spec.defs[name].data, spec.defs[name].keys)
  }

  /** `GetOrCreateSecret`; `depth` is the stack left, and running out of it is a crash. */
  ghost function GetOrCreate(spec: Spec, w: World, depth: nat, st: State, name: string): Step<Data>
    requires spec.Valid()
    decreases depth, 3, 0
  {
    if depth == 0 then Step(Crash, st)
    else if name in st.memo then Step(Ok(st.memo[name]), st)
    else
      match OriginOf(spec, name)
      case Context(reference) => Step(FromOption(spec.context(reference)), st)
      case External(ns, reference) =>
        var d := spec.lookup(ns, reference);
        if d.None? then Step(Failed, st) else Step(Ok(d.value), st.(memo := st.memo[name := d.value]))
      case Local =>
        var s := Generate(spec, w, depth, st, name);
        if s.answer.Ok? then Step(s.answer, s.st.(memo := s.st.memo[name := s.answer.value])) else s
  }

  /** `generateSecret`: find the existing object, then dispatch on the kind of the secret. */
  ghost function Generate(spec: Spec, w: World, depth: nat, st: State, name: string): Step<Data>
    requires spec.Valid() && depth > 0
    decreases depth, 2, 0
  {
    var called := st.(calls := st.calls + 1);
    if !w.apiOk(st.calls) || name !in spec.defs then Step(Failed, called)
    else if spec.defs[name].kind.Template? then GenerateTemplate(spec, w, depth, called, name)
    else GeneratePlain(spec, w, called, name)
  }

  /** The data a non-template generator hands to `updateOrCreate`, if it gets that far. */
  function PlainData(spec: Spec, w: World, draws: nat, name: string, def: SecretDef, prior: Option<Data>): Answer<Data> {
    match def.kind
    case Opaque => Ok(Seed(prior, def.data, def.keys))
    case Basic => BasicData(w, draws, Seed(prior, def.data, [USERNAME, PASSWORD]))
    case Token => TokenData(w, draws, def, Seed(prior, def.data, [TOKEN]))
    case Generated => FromOption(spec.jobOutput(name))
    case _ => if prior.Some? then Crash else Failed   // a nil secret without an error, dereferenced by every caller
  }

  function DrawsUsed(def: SecretDef): nat {
    match def.kind
    case Basic => 2 * RANDOM_LENGTH
    case Token => if def.length.Some? && def.length.value >= 0 then def.length.value else 0
    case _ => 0
  }

  /** `generateOpaque`, `generateBasic`, `generateToken` and `generatedSecret`. */
  ghost function GeneratePlain(spec: Spec, w: World, st: State, name: string): Step<Data>
    requires name in spec.defs
  {
    var def := spec.defs[name];
    var existing := Find(st.store, spec.app, name);
    var data := PlainData(spec, w, st.draws, name, def, OldData(st.store, existing));
    var drawn := st.(draws := st.draws + DrawsUsed(def));
    if data.Ok? then Save(spec, w, drawn, name, existing, data.value) else Step(data, drawn)
  }

  /** `generateTemplate`: render every entry, then write to the object found at the start. */
  ghost function GenerateTemplate(spec: Spec, w: World, depth: nat, st: State, name: string): Step<Data>
    requires spec.Valid() && depth > 0 && name in spec.defs
    decreases depth, 1, |spec.defs[name].keys| + 1
  {
    var existing := Find(st.store, spec.app, name);
    if !spec.pullable then Step(Failed, st)
    else
      var s := RenderEntries(spec, w, depth, st, Texts(spec, st.store, name), spec.defs[name].keys);
      if !s.answer.Ok? || (existing.Some? && existing.value !in s.st.store) then
        Step(if s.answer.Crash? then Crash else Failed, s.st)
      else Save(spec, w, s.st, name, existing, s.answer.value)
  }

  /** The entries of a template secret in key order; the first failing entry ends the loop. */
  ghost function RenderEntries(spec: Spec, w: World, depth: nat, st: State, texts: Data, keys: seq<string>): Step<Data>
    requires spec.Valid() && depth > 0
    decreases depth, 1, |keys|
  {
    if keys == [] then Step(Ok(map[]), st)
    else
      var s := RenderSegments(spec, w, depth, st, spec.segments(Get(texts, keys[0])));
      if !s.answer.Ok? then Step(if s.answer.Crash? then Crash else Failed, s.st)
      else if spec.finish(s.answer.value).None? then Step(Failed, s.st)
      else
        var rest := RenderEntries(spec, w, depth, s.st, texts, keys[1..]);
        if !rest.answer.Ok? then rest
        else Step(Ok(rest.answer.value[keys[0] := spec.finish(s.answer.value).value]), rest.st)
  }

  /** One template text: every reference is evaluated even after one has failed. */
  ghost function RenderSegments(spec: Spec, w: World, depth: nat, st: State, segs: seq<Segment>): Step<string>
    requires spec.Valid() && depth > 0
    decreases depth, 0, |segs|
  {
    if segs == [] then Step(Ok(""), st)
    else
      var head := RenderSegment(spec, w, depth, st, segs[0]);
      if head.answer.Crash? then head
      else
        var rest := RenderSegments(spec, w, depth, head.st, segs[1..]);
        if rest.answer.Crash? then rest
        else if head.answer.Ok? && rest.answer.Ok? then Step(Ok(head.answer.value + rest.answer.value), rest.st)
        else Step(Failed, rest.st)
  }

  ghost function RenderSegment(spec: Spec, w: World, depth: nat, st: State, seg: Segment): Step<string>
    requires spec.Valid() && depth > 0
    decreases depth, 0, 0
  {
    match seg
    case Text(t) => Step(Ok(t), st)
    case Reference(name, key) =>
      ValueAt(GetOrCreate(spec, w, depth - 1, st, name), key)
  }

  /** The text a reference stands for; a missing or empty value is a failure. */
  function ValueAt(s: Step<Data>, key: string): Step<string> {
    Step(if s.answer.Crash? then Crash
         else if s.answer.Ok? && Get(s.answer.value, key) != "" then Ok(Get(s.answer.value, key))
         else Failed, s.st)
  }

  /** A crash ends the pass, and so does a failing API; other failures leave the remaining names to be tried. */
  predicate Ends(w: World, name: string, s: Step<Data>) { s.answer.Crash? || (s.answer.Failed? && w.endsPass(name, s.st.calls)) }

  /** One controller pass: every listed name in turn. */
  ghost function Pass(spec: Spec, w: World, depth: nat, st: State, names: seq<string>): State
    requires spec.Valid()
    decreases |names|
  {
    if names == [] then st
    else
      var s := GetOrCreate(spec, w, depth, st, names[0]);
      if Ends(w, names[0], s) then s.st else Pass(spec, w, depth, s.st, names[1..])
  }

  /** Every name of the pass was answered. */
  ghost predicate PassOk(spec: Spec, w: World, depth: nat, st: State, names: seq<string>)
    requires spec.Valid()
    decreases |names|
  {
    names == [] ||
    var s := GetOrCreate(spec, w, depth, st, names[0]);
    s.answer.Ok? && PassOk(spec, w, depth, s.st, names[1..])
  }
}
