/** Label and annotation gathering (pkg/labels/labels.go). */
module Labels {
  import opened GoStrings

  type StringMap = map<string, string>

  datatype ScopedLabel = ScopedLabel(resourceType: string, resourceName: string, key: string, value: string)

  const PREFIX := "acorn.io/"
  const APP_NAME := PREFIX + "app-name"
  const MANAGED := PREFIX + "managed"
  const SECRET_NAME := PREFIX + "secret-name"
  const SECRET_GENERATED := PREFIX + "secret-generated"
  const PUBLIC_NAME := PREFIX + "public-name"
  const LABEL_TYPE_SECRET := "secret"

  /** `strings.Contains(key, "acorn.io/")`. */
  predicate IsAcornKey(key: string) {
    HasPrefix(key, PREFIX) || (key != [] && IsAcornKey(key[1..]))
  }

  function Lower(c: char): char { if 'A' <= c <= 'Z' then (c as int + 32) as char else c }

  /** `strings.EqualFold`, on ASCII text. */
  predicate EqualFold(a: string, b: string) {
    |a| == |b| && forall i :: 0 <= i < |a| ==> Lower(a[i]) == Lower(b[i])
  }

  /** A scoped label applies to a resource when each part it names agrees; an empty part names everything. */
  predicate Applies(l: ScopedLabel, resourceName: string, resourceType: string) {
    (l.resourceType == "" || EqualFold(l.resourceType, resourceType)) &&
    (l.resourceName == "" || l.resourceName == resourceName)
  }

  /** The value the last applicable scoped label gives to a key. */
  function LastScoped(scoped: seq<ScopedLabel>, name: string, kind: string, key: string): Option<string> {
    if scoped == [] then None else
      var l := scoped[|scoped| - 1];
      if l.key == key && Applies(l, name, kind) then Some(l.value)
      else LastScoped(scoped[..|scoped| - 1], name, kind, key)
  }

  /** Precedence of the sources of one key: scoped labels, then the resource's own, then global ones. */
  function Source(name: string, kind: string, global: StringMap, own: StringMap, scoped: seq<ScopedLabel>, key: string): Option<string> {
    if LastScoped(scoped, name, kind, key).Some? then LastScoped(scoped, name, kind, key)
    else if key in own then Some(own[key])
    else if key in global then Some(global[key])
    else None
  }

  function Keys(global: StringMap, own: StringMap, scoped: seq<ScopedLabel>): set<string> {
    global.Keys + own.Keys + set l | l in scoped :: l.key
  }

  /** Everything that applies to the resource, acorn's own keys excluded. */
  function Gathered(name: string, kind: string, global: StringMap, own: StringMap, scoped: seq<ScopedLabel>): StringMap {
    map k | k in Keys(global, own, scoped) && Source(name, kind, global, own, scoped, k).Some? && !IsAcornKey(k) ::
      Source(name, kind, global, own, scoped, k).value
  }

  lemma {:induction false} LastScopedListed(scoped: seq<ScopedLabel>, name: string, kind: string, key: string)
    requires LastScoped(scoped, name, kind, key).Some?
    ensures exists l :: l in scoped && l.key == key
  {
    var l := scoped[|scoped| - 1];
    if !(l.key == key && Applies(l, name, kind)) {
      LastScopedListed(scoped[..|scoped| - 1], name, kind, key);
    }
  }

  method ExcludeAcornKey(input: StringMap) returns (result: StringMap)
    ensures result == map k | k in input && !IsAcornKey(k) :: input[k]
  {
    result := map[];
    var todo := input.Keys;
    while todo != {}
      invariant todo <= input.Keys
      invariant result == map k | k in input && k !in todo && !IsAcornKey(k) :: input[k]
    {
      var k :| k in todo;
      todo := todo - {k};
      if !IsAcornKey(k) {
        result := result[k := input[k]];
      }
    }
  }

  /** The map holds, for every key, what the sources say about it. */
  ghost predicate Holds(m: StringMap, name: string, kind: string, global: StringMap, own: StringMap, scoped: seq<ScopedLabel>) {
    forall k :: (if k in m then Some(m[k]) else None) == Source(name, kind, global, own, scoped, k)
  }

  lemma HoldsStep(m: StringMap, name: string, kind: string, global: StringMap, own: StringMap, scoped: seq<ScopedLabel>, l: ScopedLabel)
    requires Holds(m, name, kind, global, own, scoped)
    ensures Holds(if Applies(l, name, kind) then m[l.key := l.value] else m, name, kind, global, own, scoped + [l])
  {
    var all := scoped + [l];
    assert all[..|all| - 1] == scoped;
    var m' := if Applies(l, name, kind) then m[l.key := l.value] else m;
    forall k ensures (if k in m' then Some(m'[k]) else None) == Source(name, kind, global, own, all, k) {
      assert (if k in m then Some(m[k]) else None) == Source(name, kind, global, own, scoped, k);
    }
  }

  method GatherScoped(name: string, kind: string, global: StringMap, own: StringMap, scoped: seq<ScopedLabel>)
    returns (result: StringMap)
    ensures result == Gathered(name, kind, global, own, scoped)
  {
    var m := global + own;
    for i := 0 to |scoped|
      invariant Holds(m, name, kind, global, own, scoped[..i])
    {
      var l := scoped[i];
      assert scoped[..i + 1] == scoped[..i] + [l];
      HoldsStep(m, name, kind, global, own, scoped[..i], l);
      if l.resourceType == "" {
        if l.resourceName == "" {
          m := m[l.key := l.value];
        } else if l.resourceName == name {
          m := m[l.key := l.value];
        }
      } else if EqualFold(l.resourceType, kind) {
        if l.resourceName == "" || l.resourceName == name {
          m := m[l.key := l.value];
        }
      }
    }
    assert scoped[..|scoped|] == scoped;
    HoldsGathered(m, name, kind, global, own, scoped);
    result := ExcludeAcornKey(m);
  }

  lemma HoldsGathered(m: StringMap, name: string, kind: string, global: StringMap, own: StringMap, scoped: seq<ScopedLabel>)
    requires Holds(m, name, kind, global, own, scoped)
    ensures Gathered(name, kind, global, own, scoped) == map k | k in m && !IsAcornKey(k) :: m[k]
  {
    var g := Gathered(name, kind, global, own, scoped);
    forall k ensures k in g <==> k in m && !IsAcornKey(k) {
      assert (if k in m then Some(m[k]) else None) == Source(name, kind, global, own, scoped, k);
      if LastScoped(scoped, name, kind, k).Some? {
        LastScopedListed(scoped, name, kind, k);
      }
    }
    forall k | k in g ensures g[k] == m[k] {
      assert (if k in m then Some(m[k]) else None) == Source(name, kind, global, own, scoped, k);
    }
  }

  // ---------- What the parts mean ----------

  predicate PrefixAt(key: string, i: int) { 0 <= i && i + 9 <= |key| && key[i..i + 9] == "acorn.io/" }

  /** A key is acorn's own when `acorn.io/` stands somewhere in it. */
  lemma {:induction false} AcornKeyMeans(key: string)
    ensures IsAcornKey(key) <==> exists i :: PrefixAt(key, i)
  {
    if HasPrefix(key, PREFIX) {
      assert PrefixAt(key, 0);
    } else if key != [] {
      AcornKeyMeans(key[1..]);
      if i :| PrefixAt(key[1..], i) {
        PrefixShift(key, i + 1);
      }
      if i :| PrefixAt(key, i) {
        assert i > 0;
        PrefixShift(key, i);
      }
    }
  }

  lemma PrefixShift(key: string, i: int)
    requires key != [] && i > 0
    ensures PrefixAt(key, i) <==> PrefixAt(key[1..], i - 1)
  {
    if i + 9 <= |key| { assert key[1..][i - 1..i + 8] == key[i..i + 9]; }
  }

  /** The same letter in either case, or the same character. */
  predicate SameLetter(a: char, b: char) {
    || a == b
    || ('A' <= a <= 'Z' && b as int == a as int + 32)
    || ('A' <= b <= 'Z' && a as int == b as int + 32)
  }

  /** Resource types are compared letter by letter without regard to case, names as they are; an empty part names everything. */
  lemma AppliesMeans(l: ScopedLabel, name: string, kind: string)
    ensures Applies(l, name, kind) <==>
              && (l.resourceName == "" || l.resourceName == name)
              && (l.resourceType == "" ||
                  (|l.resourceType| == |kind| && forall i :: 0 <= i < |kind| ==> SameLetter(l.resourceType[i], kind[i])))
  {
    forall a, b ensures Lower(a) == Lower(b) <==> SameLetter(a, b) {
      LowerMeans(a, b);
    }
  }

  lemma LowerMeans(a: char, b: char)
    ensures Lower(a) == Lower(b) <==> SameLetter(a, b)
  {
  }

  /** Label `i` is the last one that applies to the resource and has the key. */
  predicate LastAt(scoped: seq<ScopedLabel>, name: string, kind: string, key: string, i: int) {
    && 0 <= i < |scoped| && scoped[i].key == key && Applies(scoped[i], name, kind)
    && forall j :: i < j < |scoped| ==> scoped[j].key != key || !Applies(scoped[j], name, kind)
  }

  lemma {:induction false} LastScopedMeans(scoped: seq<ScopedLabel>, name: string, kind: string, key: string)
    ensures forall i :: LastAt(scoped, name, kind, key, i) ==> LastScoped(scoped, name, kind, key) == Some(scoped[i].value)
    ensures LastScoped(scoped, name, kind, key).Some? ==> exists i :: LastAt(scoped, name, kind, key, i)
  {
    if scoped != [] {
      var front, last := scoped[..|scoped| - 1], scoped[|scoped| - 1];
      LastScopedMeans(front, name, kind, key);
      if last.key == key && Applies(last, name, kind) {
        assert LastAt(scoped, name, kind, key, |scoped| - 1);
      } else {
        assert forall i :: LastAt(scoped, name, kind, key, i) <==> LastAt(front, name, kind, key, i);
      }
    }
  }

  /** For a key that is not acorn's: the last scoped label that applies, else the resource's own label, else the global one. */
  lemma GatheredMeans(name: string, kind: string, global: StringMap, own: StringMap, scoped: seq<ScopedLabel>, k: string)
    ensures var g := Gathered(name, kind, global, own, scoped);
            && (IsAcornKey(k) ==> k !in g)
            && (forall i :: !IsAcornKey(k) && LastAt(scoped, name, kind, k, i) ==> k in g && g[k] == scoped[i].value)
            && (!IsAcornKey(k) && (forall i :: !LastAt(scoped, name, kind, k, i)) ==>
                  && (k in own ==> k in g && g[k] == own[k])
                  && (k !in own && k in global ==> k in g && g[k] == global[k])
                  && (k !in own && k !in global ==> k !in g))
  {
    LastScopedMeans(scoped, name, kind, k);
    if LastScoped(scoped, name, kind, k).Some? { LastScopedListed(scoped, name, kind, k); }
  }

  function Merge(base: StringMap, overlay: StringMap): StringMap { base + overlay }
}
