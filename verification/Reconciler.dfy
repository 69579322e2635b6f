/** The reconciler of pkg/secrets/secret.go in its own form: one memo map and one store, updated during recursion. */
module Reconciling {
  import opened GoStrings
  import opened Secrets
  import opened SecretMeaning

  /** The specification's value for one key, unless it would replace text by nothing. */
  function OverlayOne(m: Data, from: Data, key: string): Data {
    if key in from && (from[key] != "" || Get(m, key) == "") then m[key := from[key]] else m
  }

  function Overlay(m: Data, from: Data, keys: seq<string>): Data {
    if keys == [] then m else OverlayOne(Overlay(m, from, keys[..|keys| - 1]), from, keys[|keys| - 1])
  }

  function Copied(existing: Option<Data>, keys: seq<string>): Data {
    if existing.None? then map[] else map k | k in keys :: Get(existing.value, k)
  }

  lemma {:induction false} OverlayLookup(m: Data, from: Data, keys: seq<string>, k: string)
    ensures k in Overlay(m, from, keys) <==> k in m || (k in keys && k in from)
    ensures Get(Overlay(m, from, keys), k) ==
            if k in keys && k in from && (from[k] != "" || Get(m, k) == "") then from[k] else Get(m, k)
  {
    if keys != [] {
      var front := keys[..|keys| - 1];
      assert keys == front + [keys[|keys| - 1]];
      OverlayLookup(m, from, front, k);
    }
  }

  /** Copying the existing values and then overlaying the specification's is the same as seeding key by key. */
  lemma OverlayIsSeed(existing: Option<Data>, from: Data, keys: seq<string>)
    ensures Overlay(Copied(existing, keys), from, keys) == Seed(existing, from, keys)
  {
    var o, t := Overlay(Copied(existing, keys), from, keys), Seed(existing, from, keys);
    forall k ensures (k in o <==> k in t) && Get(o, k) == Get(t, k) {
      OverlayLookup(Copied(existing, keys), from, keys, k);
    }
    forall k | k in o ensures o[k] == t[k] {
      assert Get(o, k) == Get(t, k);
    }
  }

  /** `seedData`: existing values first, then the specification's, never replacing text by nothing. */
  method SeedData(existing: Option<Data>, from: Data, keys: seq<string>) returns (to: Data)
    ensures to == Seed(existing, from, keys)
  {
    to := map[];
    if existing.Some? {
      for i := 0 to |keys|
        invariant to == Copied(existing, keys[..i])
      {
        to := to[keys[i] := Get(existing.value, keys[i])];
        assert keys[..i + 1] == keys[..i] + [keys[i]];
      }
    }
    assert keys[..|keys|] == keys;
    for i := 0 to |keys|
      invariant to == Overlay(Copied(existing, keys), from, keys[..i])
    {
      assert keys[..i + 1][..i] == keys[..i];
      var key := keys[i];
      if key in from {
        if |from[key]| > 0 || |Get(to, key)| == 0 {
          to := to[key := from[key]];
        }
      }
    }
    OverlayIsSeed(existing, from, keys);
  }

  function Prefixed(prefix: string, rest: Option<string>): (r: Option<string>)
    ensures prefix == "" ==> r == rest
    ensures rest == Some("") ==> r == Some(prefix)
  {
    if rest.None? then None else
      assert prefix == "" ==> prefix + rest.value == rest.value;
      assert rest.value == "" ==> prefix + rest.value == prefix;
      Some(prefix + rest.value)
  }

  /** `generate`: one random index per character. */
  method DrawString(w: World, cursor: nat, characters: string, n: nat) returns (r: Option<string>)
    requires n == 0 || characters != []
    ensures r == Draw(w, cursor, characters, n)
  {
    var token := "";
    ghost var goal := Draw(w, cursor, characters, n);
    for i := 0 to n
      invariant goal == Prefixed(token, Draw(w, cursor + i, characters, n - i))
    {
      var index := w.entropy(cursor + i);
      if index.None? {
        return None;
      }
      ghost var was := token;
      token := token + [characters[index.value % |characters|]];
      assert forall rest: string :: was + ([token[|was|]] + rest) == token + rest;
    }
    r := Some(token);
  }

  class Reconciler {
    const spec: Spec
    const w: World
    var store: Store
    var memo: map<string, Data>
    var writes: seq<string>
    var calls: nat
    var draws: nat

    ghost function S(): State
      reads this
    {
      State(store, memo, writes, calls, draws)
    }

    constructor (spec: Spec, w: World, store: Store)
      ensures this.spec == spec && this.w == w && S() == State(store, map[], [], 0, 0)
    {
      this.spec, this.w, this.store := spec, w, store;
      memo, writes, calls, draws := map[], [], 0, 0;
    }

    /** `getSecret`: of the objects the selector lists, the one with the smallest UID. */
    method GetSecret(name: string) returns (r: Option<nat>)
      ensures r == Find(store, spec.app, name)
    {
      r := None;
      var todo := store.Keys;
      while todo != {}
        invariant todo <= store.Keys
        invariant r.Some? ==> r.value in store && Selects(spec.app, name, store[r.value])
        invariant r.None? ==> forall v :: v in store && v !in todo ==> !Selects(spec.app, name, store[v])
        invariant r.Some? ==> forall v :: v in store && v !in todo && Selects(spec.app, name, store[v]) ==> r.value <= v
      {
        var u :| u in todo;
        todo := todo - {u};
        if Selects(spec.app, name, store[u]) && (r.None? || u < r.value) {
          r := Some(u);
        }
      }
    }

    method UpdateOrCreate(name: string, existing: Option<nat>, data: Data) returns (a: Answer<Data>)
      requires existing.Some? ==> existing.value in store
      modifies this
      ensures Step(a, S()) == old(Save(spec, w, S(), name, existing, data))
    {
      var labels, annotations := spec.labelsFor(name), spec.annotationsFor(name);
      if existing.Some? {
        var o := store[existing.value];
        if o.data == data && o.labels == labels && o.annotations == annotations {
          a := FromOption(spec.decrypt(o.data));
          return;
        }
      }
      calls := calls + 1;
      if !w.apiOk(calls - 1) {
        return Failed;
      }
      if existing.None? {
        store := store[w.newUid(store) := SecretObj(spec.app.namespace, labels, annotations, data)];
      } else {
        store := store[existing.value := store[existing.value].(labels := labels, annotations := annotations, data := data)];
      }
      writes := writes + [name];
      a := FromOption(spec.decrypt(data));
    }

    /** The binding loop of `GetOrCreateSecret`: the last binding of the name wins. */
    method Origin(name: string) returns (o: Origin)
      ensures o == OriginOf(spec, name)
      ensures o.Local? <==> OwnSecret(spec, name)
      ensures forall ns, reference :: StandsFor(spec, name, ns, reference) ==>
                o == if IsContext(reference) then Context(reference[10..]) else External(ns, reference)
    {
      OriginMeans(spec, name);
      var reference := "";
      var ns := spec.app.namespace;
      for i := 0 to |spec.bindings|
        invariant reference == LastBinding(spec.bindings[..i], name)
      {
        assert spec.bindings[..i + 1][..i] == spec.bindings[..i];
        if spec.bindings[i].target == name {
          reference := spec.bindings[i].secret;
        }
      }
      assert spec.bindings[..|spec.bindings|] == spec.bindings;
      if reference == "" && name in spec.defs {
        reference := spec.defs[name].external;
      }
      if reference == "" && name in spec.defs && spec.defs[name].alias != "" {
        reference, ns := spec.defs[name].alias, spec.statusNamespace;
      }
      if reference == "" && '.' in name {
        reference, ns := name, spec.statusNamespace;
      }
      if reference == "" {
        o := Local;
      } else if HasPrefix(reference, CONTEXT_PREFIX) {
        o := Context(reference[|CONTEXT_PREFIX|..]);
      } else {
        o := External(ns, reference);
      }
    }

    method GetOrCreateSecret(depth: nat, name: string) returns (a: Answer<Data>)
      requires spec.Valid()
      modifies this
      ensures Step(a, S()) == old(GetOrCreate(spec, w, depth, S(), name))
      decreases depth, 3, 0
    {
      if depth == 0 {
        return Crash;
      }
      if name in memo {
        return Ok(memo[name]);
      }
      var o := Origin(name);
      match o {
        case Context(reference) =>
          a := FromOption(spec.context(reference));
        case External(ns, reference) =>
          a := FromOption(spec.lookup(ns, reference));
          if a.Ok? {
            memo := memo[name := a.value];
          }
        case Local =>
          a := GenerateSecret(depth, name);
          if a.Ok? {
            memo := memo[name := a.value];
          }
      }
    }

    method GenerateSecret(depth: nat, name: string) returns (a: Answer<Data>)
      requires spec.Valid() && depth > 0
      modifies this
      ensures Step(a, S()) == old(Generate(spec, w, depth, S(), name))
      decreases depth, 2, 0
    {
      calls := calls + 1;
      if !w.apiOk(calls - 1) || name !in spec.defs {
        return Failed;
      }
      if spec.defs[name].kind.Template? {
        a := TemplateSecret(depth, name);
      } else {
        a := PlainSecret(name);
      }
    }

    method PlainSecret(name: string) returns (a: Answer<Data>)
      requires name in spec.defs
      modifies this
      ensures Step(a, S()) == old(GeneratePlain(spec, w, S(), name))
    {
      var def := spec.defs[name];
      var existing := GetSecret(name);
      var prior := if existing.Some? then Some(store[existing.value].data) else None;
      var data := NewData(name, def, prior);
      draws := draws + DrawsUsed(def);
      if data.Ok? {
        a := UpdateOrCreate(name, existing, data.value);
      } else {
        a := data;
      }
    }

    method NewData(name: string, def: SecretDef, prior: Option<Data>) returns (data: Answer<Data>)
      ensures data == PlainData(spec, w, draws, name, def, prior)
    {
      var seeded: Data;
      match def.kind {
        case Opaque =>
          seeded := SeedData(prior, def.data, def.keys);
          data := Ok(seeded);
        case Basic =>
          seeded := SeedData(prior, def.data, [USERNAME, PASSWORD]);
          data := FillCredentials(seeded);
        case Token =>
          seeded := SeedData(prior, def.data, [TOKEN]);
          data := FillToken(def, seeded);
        case Generated =>
          data := FromOption(spec.jobOutput(name));
        case _ =>
          data := if prior.Some? then Crash else Failed;
      }
    }

    method FillCredentials(seeded: Data) returns (data: Answer<Data>)
      ensures data == BasicData(w, draws, seeded)
    {
      data := Ok(seeded);
      for i := 0 to 2
        invariant data.Ok?
        invariant i == 0 ==> data.value == seeded
        invariant i == 1 ==> data == FillBasic(w, draws, seeded, USERNAME, 8)
        invariant i == 2 ==> data == BasicData(w, draws, seeded)
      {
        data := FillCredential(data.value, if i == 0 then USERNAME else PASSWORD, i);
        if !data.Ok? {
          return;
        }
      }
    }

    method FillCredential(seeded: Data, key: string, i: nat) returns (data: Answer<Data>)
      requires i < 2
      ensures data == FillBasic(w, draws + i * RANDOM_LENGTH, seeded, key, (i + 1) * 8)
    {
      if |Get(seeded, key)| != 0 {
        return Ok(seeded);
      }
      if w.pool == [] {
        return Crash;
      }
      var v := DrawString(w, draws + i * RANDOM_LENGTH, w.pool, RANDOM_LENGTH);
      data := if v.None? then Crash else Ok(seeded[key := v.value[..(i + 1) * 8]]);
    }

    method FillToken(def: SecretDef, seeded: Data) returns (data: Answer<Data>)
      ensures data == TokenData(w, draws, def, seeded)
    {
      if |Get(seeded, TOKEN)| != 0 {
        return Ok(seeded);
      }
      if def.length.None? {
        return Failed;
      }
      if def.length.value < 0 || (def.length.value > 0 && def.characters == []) {
        return Crash;
      }
      var v := DrawString(w, draws, def.characters, def.length.value);
      data := if v.None? then Failed else Ok(seeded[TOKEN := v.value]);
    }

    method TemplateSecret(depth: nat, name: string) returns (a: Answer<Data>)
      requires spec.Valid() && depth > 0 && name in spec.defs
      modifies this
      ensures Step(a, S()) == old(GenerateTemplate(spec, w, depth, S(), name))
      decreases depth, 1, |spec.defs[name].keys| + 1
    {
      var def := spec.defs[name];
      var existing := GetSecret(name);
      var prior := if existing.Some? then Some(store[existing.value].data) else None;
      var texts := SeedData(prior, def.data, def.keys);
      if !spec.pullable {
        return Failed;
      }
      a := RenderAll(depth, texts, def.keys);
      if a.Ok? {
        if existing.Some? && existing.value !in store {
          return Failed;
        }
        a := UpdateOrCreate(name, existing, a.value);
      }
    }

    method RenderAll(depth: nat, texts: Data, keys: seq<string>) returns (a: Answer<Data>)
      requires spec.Valid() && depth > 0
      modifies this
      ensures Step(a, S()) == old(RenderEntries(spec, w, depth, S(), texts, keys))
      decreases depth, 1, |keys|
    {
      ghost var goal := RenderEntries(spec, w, depth, S(), texts, keys);
      var data: Data := map[];
      assert keys[0..] == keys;
      for i := 0 to |keys|
        invariant goal == Gained(data, RenderEntries(spec, w, depth, S(), texts, keys[i..]))
      {
        assert keys[i..][1..] == keys[i + 1..];
        ghost var before := data;
        var text := RenderText(depth, spec.segments(Get(texts, keys[i])));
        if !text.Ok? {
          return if text.Crash? then Crash else Failed;
        }
        var finished := spec.finish(text.value);
        if finished.None? {
          return Failed;
        }
        data := map[keys[i] := finished.value] + data;
        assert forall rest: Data :: rest[keys[i] := finished.value] + before == rest + data;
      }
      a := Ok(data);
    }

    /** The entries rendered so far, added to those still to come; the keys are distinct. */
    static ghost function Gained(data: Data, s: Step<Data>): (r: Step<Data>)
      ensures data == map[] ==> r == s
      ensures s.answer == Ok(map[]) ==> r == Step(Ok(data), s.st)
    {
      if s.answer.Ok? then
        assert data == map[] ==> s.answer.value + data == s.answer.value;
        assert s.answer.value == map[] ==> s.answer.value + data == data;
        Step(Ok(s.answer.value + data), s.st)
      else s
    }

    /** What a partly rendered text becomes once the rest is rendered. */
    static ghost function Joined(text: string, failed: bool, s: Step<string>): (r: Step<string>)
      ensures text == "" && !failed ==> r == s
      ensures s.answer == Ok("") && !failed ==> r == Step(Ok(text), s.st)
    {
      if s.answer.Crash? then s
      else if failed || s.answer.Failed? then Step(Failed, s.st)
      else
        assert text == "" ==> text + s.answer.value == s.answer.value;
        assert s.answer.value == "" ==> text + s.answer.value == text;
        Step(Ok(text + s.answer.value), s.st)
    }

    method RenderText(depth: nat, segs: seq<Segment>) returns (a: Answer<string>)
      requires spec.Valid() && depth > 0
      modifies this
      ensures Step(a, S()) == old(RenderSegments(spec, w, depth, S(), segs))
      decreases depth, 0, |segs|
    {
      ghost var goal := RenderSegments(spec, w, depth, S(), segs);
      var text, failed := "", false;
      assert segs[0..] == segs;
      for i := 0 to |segs|
        invariant goal == Joined(text, failed, RenderSegments(spec, w, depth, S(), segs[i..]))
      {
        assert segs[i..][1..] == segs[i + 1..];
        ghost var was := text;
        match segs[i] {
          case Text(t) =>
            text := text + t;
            assert forall rest: string :: was + (t + rest) == text + rest;
          case Reference(name, key) =>
            var answer := GetOrCreateSecret(depth - 1, name);
            if answer.Crash? {
              return Crash;
            }
            if answer.Ok? && |Get(answer.value, key)| != 0 {
              var val := Get(answer.value, key);
              text := text + val;
              assert forall rest: string :: was + (val + rest) == text + rest;
            } else {
              failed := true;
            }
        }
      }
      a := if failed then Failed else Ok(text);
    }

    /** `CreateSecrets`: every name in turn with one memo; an API status error other than "not found" ends the pass. */
    method CreateSecrets(depth: nat, names: seq<string>)
      requires spec.Valid()
      modifies this
      ensures S() == old(Pass(spec, w, depth, S(), names))
    {
      ghost var goal := Pass(spec, w, depth, S(), names);
      for i := 0 to |names|
        invariant Pass(spec, w, depth, S(), names[i..]) == goal
      {
        assert names[i..][1..] == names[i + 1..];
        var a := GetOrCreateSecret(depth, names[i]);
        if a.Crash? || (a.Failed? && w.endsPass(names[i], calls)) {
          return;
        }
      }
    }
  }
}
