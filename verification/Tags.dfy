/**
 Selection of the latest tag (pkg/autoupgrade/tags.go).  The regular-expression engine is a parameter: a
 matcher maps a tag to its submatches and names, for every group, its kind and its submatch index.
 */
module Tags {
  import opened GoStrings
  import opened ImagePattern

  datatype Key = Key(kind: GroupKind, index: nat)

  datatype Matcher = Matcher(arity: nat, run: string -> Option<seq<string>>, keys: seq<Key>) {
    /** A compiled expression reports the same number of submatches for every tag, whole match included. */
    ghost predicate Valid() {
      && arity >= 1
      && (forall s :: run(s).Some? ==> |run(s).value| == arity)
      && (forall k :: k in keys ==> k.index < arity)
    }

    predicate Matches(tag: string) { run(tag).Some? }
  }

  datatype Order = Lt | Eq | Gt

  function Flip(o: Order): Order { match o case Lt => Gt case Eq => Eq case Gt => Lt }

  /** Order of two submatches of one group; None is a number that does not fit an int. */
  function CompareGroup(kind: GroupKind, a: string, b: string): Option<Order> {
    if kind.Alpha? then
      Some(if Less(a, b) then Lt else if Less(b, a) then Gt else Eq)
    else if Atoi(a).None? || Atoi(b).None? then None
    else if Atoi(a).value < Atoi(b).value then Some(Lt)
    else if Atoi(a).value > Atoi(b).value then Some(Gt)
    else Some(Eq)
  }

  ghost predicate Covers(keys: seq<Key>, a: seq<string>) {
    forall k :: k in keys ==> k.index < |a|
  }

  /** Left-to-right lexicographic order; groups after the deciding one are never looked at. */
  function Compare(keys: seq<Key>, a: seq<string>, b: seq<string>): Option<Order>
    requires Covers(keys, a) && Covers(keys, b)
  {
    if keys == [] then Some(Eq) else
      assert keys[0] in keys;
      var o := CompareGroup(keys[0].kind, a[keys[0].index], b[keys[0].index]);
      if o == Some(Eq) then Compare(keys[1..], a, b) else o
  }

  lemma CompareGroupLaws(kind: GroupKind, a: string, b: string, c: string)
    ensures CompareGroup(kind, a, b).None? == CompareGroup(kind, b, a).None?
    ensures CompareGroup(kind, a, b).Some? ==> CompareGroup(kind, b, a).value == Flip(CompareGroup(kind, a, b).value)
    ensures var ab, bc, ac := CompareGroup(kind, a, b), CompareGroup(kind, b, c), CompareGroup(kind, a, c);
            ab.Some? && ab != Some(Gt) && bc.Some? && bc != Some(Gt) ==>
              ac == Some(if ab == bc == Some(Eq) then Eq else Lt)
  {
    LessTrichotomy(a, b);
    LessTrichotomy(b, c);
    LessTrichotomy(a, c);
    if Less(a, b) && Less(b, c) {
      LessTransitive(a, b, c);
    }
  }

  lemma {:induction false} CompareFlip(keys: seq<Key>, a: seq<string>, b: seq<string>)
    requires Covers(keys, a) && Covers(keys, b)
    ensures Compare(keys, a, b).None? == Compare(keys, b, a).None?
    ensures Compare(keys, a, b).Some? ==> Compare(keys, b, a).value == Flip(Compare(keys, a, b).value)
  {
    if keys != [] {
      assert keys[0] in keys;
      CompareGroupLaws(keys[0].kind, a[keys[0].index], b[keys[0].index], "");
      CompareFlip(keys[1..], a, b);
    }
  }

  /** The order is transitive even where some numbers do not parse. */
  lemma {:induction false} CompareTransitive(keys: seq<Key>, a: seq<string>, b: seq<string>, c: seq<string>)
    requires Covers(keys, a) && Covers(keys, b) && Covers(keys, c)
    requires Compare(keys, a, b) in {Some(Lt), Some(Eq)} && Compare(keys, b, c) in {Some(Lt), Some(Eq)}
    ensures Compare(keys, a, c) ==
            Some(if Compare(keys, a, b) == Compare(keys, b, c) == Some(Eq) then Eq else Lt)
  {
    if keys != [] {
      assert keys[0] in keys;
      var k := keys[0];
      CompareGroupLaws(k.kind, a[k.index], b[k.index], c[k.index]);
      if CompareGroup(k.kind, a[k.index], b[k.index]) == CompareGroup(k.kind, b[k.index], c[k.index]) == Some(Eq) {
        CompareTransitive(keys[1..], a, b, c);
      }
    }
  }

  // ---------- What "latest" means ----------

  /** Tag `a` matches and ranks strictly above `b`; any matching tag is above a non-matching one. */
  ghost predicate Above(m: Matcher, a: string, b: string)
    requires m.Valid()
  {
    m.Matches(a) && (m.Matches(b) ==> Compare(m.keys, m.run(a).value, m.run(b).value) == Some(Gt))
  }

  ghost predicate AtMost(m: Matcher, a: string, b: string)
    requires m.Valid()
  {
    a == b || !m.Matches(a) ||
    (m.Matches(b) && Compare(m.keys, m.run(a).value, m.run(b).value) in {Some(Lt), Some(Eq)})
  }

  /** Same rank: neither matches, or both match with equal groups. */
  ghost predicate SameRank(m: Matcher, a: string, b: string)
    requires m.Valid()
  {
    AtMost(m, a, b) && AtMost(m, b, a)
  }

  ghost predicate FirstAt(m: Matcher, current: string, tags: seq<string>, r: string, i: nat)
    requires m.Valid()
  {
    i < |tags| && tags[i] == r && Above(m, r, current) && forall j :: 0 <= j < i ==> Above(m, r, tags[j])
  }

  /** `r` is maximal; ties keep the current tag, and after it the earliest listed tag. */
  ghost predicate IsLatest(m: Matcher, current: string, tags: seq<string>, r: string)
    requires m.Valid()
  {
    && AtMost(m, current, r)
    && (forall t :: t in tags ==> AtMost(m, t, r))
    && (r == current || exists i: nat :: FirstAt(m, current, tags, r, i))
  }

  lemma AtMostTransitive(m: Matcher, a: string, b: string, c: string)
    requires m.Valid() && AtMost(m, a, b) && AtMost(m, b, c)
    ensures AtMost(m, a, c)
  {
    if a != b && b != c && m.Matches(a) {
      CompareTransitive(m.keys, m.run(a).value, m.run(b).value, m.run(c).value);
    }
  }

  lemma AboveIsStrict(m: Matcher, a: string, b: string, c: string)
    requires m.Valid() && Above(m, a, b)
    ensures AtMost(m, b, a)
    ensures !AtMost(m, a, b)
    ensures AtMost(m, c, b) ==> Above(m, a, c)
  {
    if m.Matches(b) {
      CompareFlip(m.keys, m.run(a).value, m.run(b).value);
      if m.Matches(c) && AtMost(m, c, b) && c != b {
        CompareTransitive(m.keys, m.run(c).value, m.run(b).value, m.run(a).value);
        CompareFlip(m.keys, m.run(c).value, m.run(a).value);
      }
    }
  }

  /** The description leaves no choice. */
  lemma LatestUnique(m: Matcher, current: string, tags: seq<string>, r: string, s: string)
    requires m.Valid() && IsLatest(m, current, tags, r) && IsLatest(m, current, tags, s)
    ensures r == s
  {
    if r != current && s != current {
      var i: nat :| FirstAt(m, current, tags, r, i);
      var j: nat :| FirstAt(m, current, tags, s, j);
      if i < j {
        AboveIsStrict(m, s, r, "");
      } else if j < i {
        AboveIsStrict(m, r, s, "");
      }
    } else if r != current {
      AboveIsStrict(m, r, current, "");
    } else if s != current {
      AboveIsStrict(m, s, current, "");
    }
  }

  // ---------- The same in terms of numbers and characters ----------

  /** Two submatches of a group are the same: the same text, or the same number. */
  predicate SameGroup(k: Key, a: seq<string>, b: seq<string>)
    requires k.index < |a| && k.index < |b|
  {
    if k.kind.Alpha? then a[k.index] == b[k.index]
    else Atoi(a[k.index]).Some? && Atoi(a[k.index]) == Atoi(b[k.index])
  }

  /** The first submatch is the larger text, or the larger number. */
  ghost predicate LargerGroup(k: Key, a: seq<string>, b: seq<string>)
    requires k.index < |a| && k.index < |b|
  {
    if k.kind.Alpha? then LargerText(a[k.index], b[k.index])
    else Atoi(a[k.index]).Some? && Atoi(b[k.index]).Some? && Atoi(a[k.index]).value > Atoi(b[k.index]).value
  }

  ghost predicate LargerAt(keys: seq<Key>, a: seq<string>, b: seq<string>, g: nat)
    requires Covers(keys, a) && Covers(keys, b)
  {
    && g < |keys|
    && (forall h :: 0 <= h < g ==> keys[h] in keys && SameGroup(keys[h], a, b))
    && keys[g] in keys && LargerGroup(keys[g], a, b)
  }

  lemma CompareGroupMeans(k: Key, a: seq<string>, b: seq<string>)
    requires k.index < |a| && k.index < |b|
    ensures CompareGroup(k.kind, a[k.index], b[k.index]) == Some(Gt) <==> LargerGroup(k, a, b)
    ensures CompareGroup(k.kind, a[k.index], b[k.index]) == Some(Eq) <==> SameGroup(k, a, b)
  {
    LessMeans(b[k.index], a[k.index]);
    LessTrichotomy(a[k.index], b[k.index]);
  }

  /** Left to right: the first group that is not the same decides. */
  lemma {:induction false} CompareMeans(keys: seq<Key>, a: seq<string>, b: seq<string>)
    requires Covers(keys, a) && Covers(keys, b)
    ensures Compare(keys, a, b) == Some(Gt) <==> exists g: nat :: LargerAt(keys, a, b, g)
    ensures Compare(keys, a, b) == Some(Eq) <==> forall k :: k in keys ==> SameGroup(k, a, b)
  {
    if keys != [] {
      var rest := keys[1..];
      assert keys[0] in keys;
      CompareGroupMeans(keys[0], a, b);
      CompareMeans(rest, a, b);
      assert forall k :: k in keys <==> k == keys[0] || k in rest;
      if g: nat :| LargerAt(rest, a, b, g) {
        LargerBefore(keys, a, b, g);
      }
      if g: nat :| LargerAt(keys, a, b, g) {
        LargerAfter(keys, a, b, g);
      }
      if LargerGroup(keys[0], a, b) { assert LargerAt(keys, a, b, 0); }
    }
  }

  lemma LargerBefore(keys: seq<Key>, a: seq<string>, b: seq<string>, g: nat)
    requires keys != [] && Covers(keys, a) && Covers(keys, b) && LargerAt(keys[1..], a, b, g)
    ensures keys[0] in keys && (SameGroup(keys[0], a, b) ==> LargerAt(keys, a, b, g + 1))
  {
    assert keys[1..][g] == keys[g + 1];
    assert keys[0] in keys;
    forall h | 1 <= h < g + 1 ensures keys[h] in keys && SameGroup(keys[h], a, b) {
      assert keys[1..][h - 1] == keys[h];
    }
  }

  lemma LargerAfter(keys: seq<Key>, a: seq<string>, b: seq<string>, g: nat)
    requires keys != [] && Covers(keys, a) && Covers(keys, b) && LargerAt(keys, a, b, g)
    ensures keys[0] in keys && (g == 0 ==> LargerGroup(keys[0], a, b))
    ensures g > 0 ==> SameGroup(keys[0], a, b) && LargerAt(keys[1..], a, b, g - 1)
  {
    if g > 0 {
      assert keys[1..][g - 1] == keys[g];
      forall h | 0 <= h < g - 1 ensures keys[1..][h] in keys[1..] && SameGroup(keys[1..][h], a, b) {
        assert keys[1..][h] == keys[h + 1];
      }
    }
  }

  /** Tag `a` matches, and `b` does not or has a smaller number or text in the first group in which they differ. */
  ghost predicate Newer(m: Matcher, a: string, b: string)
    requires m.Valid()
  {
    m.Matches(a) && (m.Matches(b) ==> exists g: nat :: LargerAt(m.keys, m.run(a).value, m.run(b).value, g))
  }

  /** Both tags match and have the same texts and numbers in all groups. */
  ghost predicate SameGroups(m: Matcher, a: string, b: string)
    requires m.Valid()
  {
    m.Matches(a) && m.Matches(b) && forall k :: k in m.keys ==> SameGroup(k, m.run(a).value, m.run(b).value)
  }

  /** What `Above` and `AtMost` say, group by group. */
  lemma AboveMeans(m: Matcher, a: string, b: string)
    requires m.Valid()
    ensures Above(m, a, b) <==> Newer(m, a, b)
    ensures AtMost(m, b, a) <==> a == b || !m.Matches(b) || Newer(m, a, b) || SameGroups(m, a, b)
  {
    if m.Matches(a) && m.Matches(b) {
      CompareMeans(m.keys, m.run(a).value, m.run(b).value);
      CompareFlip(m.keys, m.run(a).value, m.run(b).value);
    }
  }

  /**
   The latest tag, without mention of the comparison: every other matching tag is older or has the same groups;
   the tag is the current one, or is newer than it and than every tag listed before.
   */
  ghost predicate LatestTag(m: Matcher, current: string, tags: seq<string>, r: string)
    requires m.Valid()
  {
    && (forall t :: t == current || t in tags ==> t == r || !m.Matches(t) || Newer(m, r, t) || SameGroups(m, r, t))
    && (r == current || exists i :: 0 <= i < |tags| && tags[i] == r && Newer(m, r, current) && forall j :: 0 <= j < i ==> Newer(m, r, tags[j]))
  }

  lemma LatestMeans(m: Matcher, current: string, tags: seq<string>, r: string)
    requires m.Valid()
    ensures IsLatest(m, current, tags, r) <==> LatestTag(m, current, tags, r)
  {
    forall t ensures (Above(m, r, t) <==> Newer(m, r, t)) && (AtMost(m, t, r) <==> t == r || !m.Matches(t) || Newer(m, r, t) || SameGroups(m, r, t)) {
      AboveMeans(m, r, t);
    }
    if i :| 0 <= i < |tags| && tags[i] == r && Newer(m, r, current) && forall j :: 0 <= j < i ==> Newer(m, r, tags[j]) {
      assert FirstAt(m, current, tags, r, i);
    }
    if i: nat :| FirstAt(m, current, tags, r, i) {
      assert 0 <= i < |tags| && tags[i] == r && Newer(m, r, current) && forall j :: 0 <= j < i ==> Newer(m, r, tags[j]);
    }
  }

  // ---------- FindLatest ----------

  /** The scan over the tags; None is an integer parse error met on the way. */
  function Scan(m: Matcher, best: string, tags: seq<string>): Option<string>
    requires m.Valid()
    decreases tags
  {
    if tags == [] then Some(best)
    else if !m.Matches(tags[0]) then Scan(m, best, tags[1..])
    else if !m.Matches(best) then Scan(m, tags[0], tags[1..])
    else
      var o := Compare(m.keys, m.run(tags[0]).value, m.run(best).value);
      if o.None? then None
      else Scan(m, if o.value.Gt? then tags[0] else best, tags[1..])
  }

  /** A pattern that does not compile is the same failure to the callers as a number that does not parse. */
  ghost predicate ValidOption(m: Option<Matcher>) { m.Some? ==> m.value.Valid() }

  function Latest(m: Option<Matcher>, current: string, tags: seq<string>): Option<string>
    requires ValidOption(m)
  {
    if m.None? then None else Scan(m.value, current, tags)
  }

  method FindLatest(compiled: Option<Matcher>, current: string, tags: seq<string>) returns (r: Option<string>)
    requires ValidOption(compiled)
    ensures r == Latest(compiled, current, tags)
    ensures r.Some? ==> compiled.Some? && IsLatest(compiled.value, current, tags, r.value) && LatestTag(compiled.value, current, tags, r.value)
    ensures compiled.Some? && Decided(compiled.value, current, tags) ==> r.Some?
  {
    if compiled.None? {
      return None;
    }
    var m := compiled.value;
    ScanLatest(m, current, tags);
    if Scan(m, current, tags).Some? {
      LatestMeans(m, current, tags, Scan(m, current, tags).value);
    }
    var latest := current;
    var latestMatches := [];
    if m.Matches(latest) {
      latestMatches := m.run(latest).value;
    }
    for i := 0 to |tags|
      invariant latestMatches == if m.Matches(latest) then m.run(latest).value else []
      invariant Scan(m, current, tags) == Scan(m, latest, tags[i..])
    {
      assert tags[i..][1..] == tags[i + 1..];
      if m.Matches(tags[i]) {
        var matches := m.run(tags[i]).value;
        if |latestMatches| == 0 {
          latest, latestMatches := tags[i], matches;
          continue;
        }
        var decided: Option<Order> := Some(Eq);
        var g := 0;
        while g < |m.keys| && decided == Some(Eq)
          invariant 0 <= g <= |m.keys|
          invariant Compare(m.keys, matches, latestMatches) ==
                    if decided == Some(Eq) then Compare(m.keys[g..], matches, latestMatches) else decided
        {
          assert m.keys[g..][1..] == m.keys[g + 1..];
          assert m.keys[g] in m.keys;
          decided := CompareGroup(m.keys[g].kind, matches[m.keys[g].index], latestMatches[m.keys[g].index]);
          g := g + 1;
        }
        if decided.None? {
          return None;
        }
        if decided == Some(Gt) {
          latest, latestMatches := tags[i], matches;
        }
      }
    }
    r := Some(latest);
  }

  /** Comparing the two tags meets no number that does not fit an int before the order is decided. */
  ghost predicate Comparable(m: Matcher, a: string, b: string)
    requires m.Valid()
  {
    m.Matches(a) && m.Matches(b) ==> Compare(m.keys, m.run(a).value, m.run(b).value).Some?
  }

  /** All tags are comparable with the current one, and those above it with each other. */
  ghost predicate Decided(m: Matcher, current: string, tags: seq<string>)
    requires m.Valid()
  {
    tags == [] ||
    (&& Comparable(m, tags[0], current)
     && (Above(m, tags[0], current) ==> forall t :: t in tags[1..] && Above(m, t, current) ==> Comparable(m, t, tags[0]))
     && Decided(m, current, tags[1..]))
  }

  /** Every numeric group of every listed tag that matches fits an int. */
  ghost predicate Parses(m: Matcher, tags: seq<string>)
    requires m.Valid()
  {
    forall t, k :: t in tags && m.Matches(t) && k in m.keys && k.kind.Numeric? ==> Atoi(m.run(t).value[k.index]).Some?
  }

  lemma {:induction false} CompareTotal(keys: seq<Key>, a: seq<string>, b: seq<string>)
    requires Covers(keys, a) && Covers(keys, b)
    requires forall k :: k in keys && k.kind.Numeric? ==> Atoi(a[k.index]).Some? && Atoi(b[k.index]).Some?
    ensures Compare(keys, a, b).Some?
  {
    if keys != [] {
      assert keys[0] in keys;
      CompareTotal(keys[1..], a, b);
    }
  }

  /** Numbers that all fit an int decide every comparison. */
  lemma {:induction false} ParsesDecides(m: Matcher, current: string, tags: seq<string>)
    requires m.Valid() && Parses(m, [current] + tags)
    ensures Decided(m, current, tags)
  {
    forall a, b | a in [current] + tags && b in [current] + tags ensures Comparable(m, a, b) {
      if m.Matches(a) && m.Matches(b) { CompareTotal(m.keys, m.run(a).value, m.run(b).value); }
    }
    if tags != [] {
      assert forall t :: t in [current] + tags[1..] ==> t in [current] + tags;
      ParsesDecides(m, current, tags[1..]);
    }
  }

  /** Above a decided current tag, moving to a newer one keeps the rest decided. */
  lemma {:induction false} DecidedStep(m: Matcher, current: string, next: string, tags: seq<string>)
    requires m.Valid() && Decided(m, current, tags) && Above(m, next, current)
    requires forall t :: t in tags && Above(m, t, current) ==> Comparable(m, t, next)
    ensures Decided(m, next, tags)
  {
    if tags != [] {
      var tag := tags[0];
      DecidedStep(m, current, next, tags[1..]);
      forall t ensures Above(m, t, next) ==> Above(m, t, current) {
        if Above(m, t, next) {
          AboveIsStrict(m, next, current, "");
          AboveIsStrict(m, t, next, current);
        }
      }
      if !Above(m, tag, current) && m.Matches(tag) {
        var o := Compare(m.keys, m.run(tag).value, m.run(current).value).value;
        assert o.Lt? || o.Eq?;
        AboveIsStrict(m, next, current, tag);
        CompareFlip(m.keys, m.run(tag).value, m.run(next).value);
      }
    }
  }

  lemma {:induction false} ScanLatest(m: Matcher, best: string, tags: seq<string>)
    requires m.Valid()
    ensures Scan(m, best, tags).Some? ==> IsLatest(m, best, tags, Scan(m, best, tags).value)
    ensures Decided(m, best, tags) ==> Scan(m, best, tags).Some?
    decreases tags
  {
    if tags != [] {
      var tag, rest := tags[0], tags[1..];
      assert tags == [tag] + rest;
      var next := if Above(m, tag, best) then tag else best;
      ScanLatest(m, next, rest);
      if Decided(m, best, tags) && Above(m, tag, best) {
        DecidedStep(m, best, tag, rest);
      }
      if Comparable(m, tag, best) {
        ScanStep(m, best, tag, rest, next);
      }
    }
  }

  /** One step of the scan: if `r` is the latest after looking at `tag`, it was the latest before. */
  lemma ScanStep(m: Matcher, best: string, tag: string, rest: seq<string>, next: string)
    requires m.Valid()
    requires next == if Above(m, tag, best) then tag else best
    requires Comparable(m, tag, best)
    ensures forall r :: IsLatest(m, next, rest, r) ==> IsLatest(m, best, [tag] + rest, r)
  {
    forall r | IsLatest(m, next, rest, r) ensures IsLatest(m, best, [tag] + rest, r) {
      var tags := [tag] + rest;
      assert AtMost(m, best, next) && AtMost(m, tag, next) by {
        if Above(m, tag, best) {
          AboveIsStrict(m, tag, best, "");
        } else if m.Matches(tag) {
          var o := Compare(m.keys, m.run(tag).value, m.run(best).value).value;
          assert o.Lt? || o.Eq?;
        }
      }
      AtMostTransitive(m, best, next, r);
      AtMostTransitive(m, tag, next, r);
      if r != next {
        var i: nat :| FirstAt(m, next, rest, r, i);
        AboveIsStrict(m, r, next, best);
        AboveIsStrict(m, r, next, tag);
        assert FirstAt(m, best, tags, r, i + 1);
      } else if r != best {
        assert FirstAt(m, best, tags, r, 0);
      }
    }
  }

  /** The rank of the result depends only on which tags are listed, not on their order or multiplicity. */
  lemma LatestRankOrderFree(m: Matcher, current: string, tags: seq<string>, tags': seq<string>)
    requires m.Valid() && forall t :: t in tags <==> t in tags'
    requires Latest(Some(m), current, tags).Some? && Latest(Some(m), current, tags').Some?
    ensures SameRank(m, Latest(Some(m), current, tags).value, Latest(Some(m), current, tags').value)
  {
    ScanLatest(m, current, tags);
    ScanLatest(m, current, tags');
  }

  // ---------- Ask, remove, retry ----------

  const INVALID_TAG := "+notfound+"

  function Filter(tags: seq<string>, keep: string -> bool): (r: seq<string>)
    ensures |r| <= |tags|
    ensures forall t :: t in r <==> t in tags && keep(t)
  {
    if tags == [] then [] else
      (if keep(tags[0]) then [tags[0]] else []) + Filter(tags[1..], keep)
  }

  /** Outcome of the loop: the tag it ends with, and whether its last question was answered with a refusal. */
  datatype Found = Found(tag: string, refused: bool)

  function Without(tags: seq<string>, tag: string): seq<string> { Filter(tags, t => t != tag) }

  lemma {:induction false} WithoutShrinks(tags: seq<string>, tag: string)
    requires tag in tags
    ensures |Without(tags, tag)| < |tags|
  {
    if tags[0] != tag {
      WithoutShrinks(tags[1..], tag);
    }
  }

  lemma LatestIsListed(m: Option<Matcher>, current: string, tags: seq<string>)
    requires ValidOption(m) && Latest(m, current, tags).Some?
    ensures Latest(m, current, tags).value in [current] + tags
  {
    ScanLatest(m.value, current, tags);
  }

  function Search(m: Option<Matcher>, allowed: string -> bool, start: string, tags: seq<string>, refused: bool): Found
    requires ValidOption(m)
    decreases |tags|
  {
    var next := Latest(m, start, tags);
    if tags == [] || next.None? || next.value == start then Found(start, refused)
    else if allowed(next.value) then Found(next.value, false)
    else
      LatestIsListed(m, start, tags);
      WithoutShrinks(tags, next.value);
      Search(m, allowed, start, Without(tags, next.value), true)
  }

  datatype Upgrade = Image(name: string, updated: bool) | NoTag(refused: bool)

  /**
   `imageOf` renders the image reference of a tag, `allowed` is the project's answer for an image.
   Where the listed tags are decided, or the loop cannot get stuck, the answer is the latest of the allowed tags, although refused
   tags are discovered one at a time.
   */
  method FindLatestTagForImageWithPattern(compiled: Option<Matcher>, current: string, tags: seq<string>,
                                          imageOf: string -> string, allowed: string -> bool)
    returns (r: Upgrade)
    requires ValidOption(compiled)
    ensures var start := if current == "" then "+notfound+" else current;
            var f := Search(compiled, t => allowed(imageOf(t)), start, tags, false);
            r == if f.tag == "+notfound+" then NoTag(f.refused) else Image(imageOf(f.tag), f.tag != current)
    ensures var start := if current == "" then "+notfound+" else current;
            compiled.Some? && Decided(compiled.value, start, tags) ==>
              Latest(compiled, start, Filter(tags, t => allowed(imageOf(t)))).Some?
    ensures var start := if current == "" then "+notfound+" else current;
            compiled.Some? && (Decided(compiled.value, start, tags) || NeverStuck(compiled.value, start, tags)) ==>
              var best := Latest(compiled, start, Filter(tags, t => allowed(imageOf(t))));
              best.Some? ==>
                && (r.NoTag? <==> best.value == "+notfound+")
                && (r.Image? ==> r.name == imageOf(best.value) && r.updated == (best.value != current))
  {
    ghost var allowedTag := (t: string) => allowed(imageOf(t));
    var newTag := if current == "" then INVALID_TAG else current;
    ghost var start := newTag;
    ghost var goal := Search(compiled, allowedTag, start, tags, false);
    if compiled.Some? {
      SearchFinds(compiled.value, allowedTag, start, tags);
    }
    var newImage := imageOf(newTag);
    var notAllowed := false;
    var rest := tags;
    while |rest| > 0
      invariant newTag == start && newImage == imageOf(start)
      invariant Search(compiled, allowedTag, start, rest, notAllowed) == goal
      decreases |rest|
    {
      var next := FindLatest(compiled, newTag, rest);
      if next.None? || next.value == newTag {
        break;
      }
      LatestIsListed(compiled, start, rest);
      WithoutShrinks(rest, next.value);
      var img := imageOf(next.value);
      notAllowed := !allowed(img);
      if notAllowed {
        rest := Without(rest, next.value);
        continue;
      }
      newTag, newImage := next.value, img;
      break;
    }
    assert goal == Found(newTag, notAllowed);
    if newTag == INVALID_TAG {
      r := NoTag(notAllowed);
    } else {
      r := Image(newImage, newTag != current);
    }
  }

  lemma SearchFinds(m: Matcher, allowed: string -> bool, start: string, tags: seq<string>)
    requires m.Valid()
    ensures var eager, lazy := Latest(Some(m), start, Filter(tags, allowed)), Search(Some(m), allowed, start, tags, false).tag;
            && (Decided(m, start, tags) ==> eager == Some(lazy))
            && (NeverStuck(m, start, tags) && eager.Some? ==> eager == Some(lazy))
  {
    if Decided(m, start, tags) {
      SearchIsEager(m, allowed, start, tags, false);
    } else if NeverStuck(m, start, tags) && Latest(Some(m), start, Filter(tags, allowed)).Some? {
      NeverStuckFinds(m, allowed, start, tags, false);
    }
  }

  /** The lazy search ends with the tag an eager one finds among the allowed tags only. */
  lemma {:induction false} SearchIsEager(m: Matcher, allowed: string -> bool, start: string, tags: seq<string>, refused: bool)
    requires m.Valid() && Decided(m, start, tags)
    ensures Latest(Some(m), start, Filter(tags, allowed)) == Some(Search(Some(m), allowed, start, tags, refused).tag)
    decreases |tags|
  {
    var kept := Filter(tags, allowed);
    FilterDecided(m, start, tags, allowed);
    ScanLatest(m, start, tags);
    ScanLatest(m, start, kept);
    var eager := Scan(m, start, kept).value;
    var next := Scan(m, start, tags).value;
    if next == start {
      LatestUnique(m, start, kept, start, eager);
    } else if allowed(next) {
      FilterKeepsLatest(m, start, tags, allowed, next);
      LatestUnique(m, start, kept, next, eager);
    } else {
      LatestIsListed(Some(m), start, tags);
      WithoutShrinks(tags, next);
      FilterDecided(m, start, tags, t => t != next);
      SearchIsEager(m, allowed, start, Without(tags, next), true);
      FilterWithout(tags, allowed, next);
    }
  }

  lemma {:induction false} FilterDecided(m: Matcher, start: string, tags: seq<string>, keep: string -> bool)
    requires m.Valid() && Decided(m, start, tags)
    ensures Decided(m, start, Filter(tags, keep))
  {
    if tags != [] {
      var rest := Filter(tags[1..], keep);
      FilterDecided(m, start, tags[1..], keep);
      if keep(tags[0]) {
        assert Filter(tags, keep) == [tags[0]] + rest;
        assert ([tags[0]] + rest)[1..] == rest;
      } else {
        assert Filter(tags, keep) == rest;
      }
    }
  }

  // ---------- Exactly when lazy is eager ----------

  /** Whatever the project allows, the lazy search ends with what the eager one finds. */
  ghost predicate EagerForEveryRule(m: Matcher, start: string, tags: seq<string>)
    requires m.Valid()
  {
    forall allowed: string -> bool {:trigger Filter(tags, allowed)} ::
      Latest(Some(m), start, Filter(tags, allowed)) == Some(Search(Some(m), allowed, start, tags, false).tag)
  }

  /** Undecided tags: one that cannot be compared with the current tag, or two positions above it that cannot be compared. */
  lemma {:induction false} UndecidedPair(m: Matcher, start: string, tags: seq<string>) returns (i: nat, j: nat)
    requires m.Valid() && !Decided(m, start, tags)
    ensures i <= j < |tags|
    ensures i == j ==> !Comparable(m, tags[i], start)
    ensures i < j ==> Above(m, tags[i], start) && Above(m, tags[j], start) && !Comparable(m, tags[j], tags[i])
  {
    if !Comparable(m, tags[0], start) {
      i, j := 0, 0;
    } else if !Decided(m, start, tags[1..]) {
      i, j := UndecidedPair(m, start, tags[1..]);
      i, j := i + 1, j + 1;
    } else {
      var t :| t in tags[1..] && Above(m, t, start) && !Comparable(m, t, tags[0]);
      i := 0;
      j :| 1 <= j < |tags| && tags[j] == t;
    }
  }

  /** A list of two or more copies of one tag above the current one compares that tag with itself. */
  lemma CopiesFail(m: Matcher, start: string, tags: seq<string>, tag: string)
    requires m.Valid() && Above(m, tag, start) && !Comparable(m, tag, tag)
    requires |tags| >= 2 && forall t :: t in tags ==> t == tag
    ensures Scan(m, start, tags) == None
  {
    var rest := tags[1..];
    assert tags[0] in tags && tags[1] in tags && rest[0] == tag;
    assert Scan(m, start, tags) == Scan(m, tag, rest);
  }

  /** Two tags above the current one that are incomparable cannot both be at most the result. */
  lemma PairFails(m: Matcher, start: string, tags: seq<string>, a: string, b: string)
    requires m.Valid() && Above(m, a, start) && Above(m, b, start) && !Comparable(m, b, a) && a != b
    requires a in tags && b in tags && forall t :: t in tags ==> t == a || t == b
    ensures Scan(m, start, tags) == None
  {
    ScanLatest(m, start, tags);
    if Scan(m, start, tags).Some? {
      var r := Scan(m, start, tags).value;
      LatestIsListed(Some(m), start, tags);
      assert AtMost(m, a, r) && AtMost(m, b, r);
      AboveIsStrict(m, a, start, "");
      CompareFlip(m.keys, m.run(a).value, m.run(b).value);
    }
  }

  /** If the project allows just the undecided tags, the eager scan fails on them. */
  lemma UndecidedFails(m: Matcher, start: string, tags: seq<string>, i: nat, j: nat)
    requires m.Valid() && i <= j < |tags|
    requires i == j ==> !Comparable(m, tags[i], start)
    requires i < j ==> Above(m, tags[i], start) && Above(m, tags[j], start) && !Comparable(m, tags[j], tags[i])
    ensures Scan(m, start, Filter(tags, t => t == tags[i] || t == tags[j])) == None
  {
    var a, b := tags[i], tags[j];
    var allowed := (t: string) => t == tags[i] || t == tags[j];
    var kept := Filter(tags, allowed);
    assert a in kept && b in kept;
    if i == j {
      assert kept[0] in kept;
    } else if a == b {
      FilterPosition(tags, allowed, j);
      assert tags[..j][i] == a;
      assert a in Filter(tags[..j], allowed);
      CopiesFail(m, start, kept, a);
    } else {
      PairFails(m, start, kept, a, b);
    }
  }

  /**
   Asking, removing and retrying is the same as filtering first, for every rule a project may have, exactly when
   every tag is comparable with the current one and the newer ones are comparable with each other.  Otherwise there
   is a rule under which the search over the allowed tags fails; `HidesNothingIff` is about the rules under which
   it does not.
   */
  lemma EagerForEveryRuleIff(m: Matcher, start: string, tags: seq<string>)
    requires m.Valid()
    ensures EagerForEveryRule(m, start, tags) <==> Decided(m, start, tags)
  {
    if Decided(m, start, tags) {
      forall allowed: string -> bool
        ensures Latest(Some(m), start, Filter(tags, allowed)) == Some(Search(Some(m), allowed, start, tags, false).tag)
      {
        SearchIsEager(m, allowed, start, tags, false);
      }
    } else {
      var i, j := UndecidedPair(m, start, tags);
      UndecidedFails(m, start, tags, i, j);
      var allowed := (t: string) => t == tags[i] || t == tags[j];
      assert Latest(Some(m), start, Filter(tags, allowed)) == None;
    }
  }

  // ---------- Exactly when no upgrade is hidden ----------

  /** The rule that allows just one tag. */
  function Only(t: string): string -> bool { (u: string) => u == t }

  /** Whatever the project allows, a tag found among the allowed tags is found by the lazy search. */
  ghost predicate HidesNothing(m: Matcher, start: string, tags: seq<string>)
    requires m.Valid()
  {
    forall allowed: string -> bool, refused {:trigger Search(Some(m), allowed, start, tags, refused)} ::
      var eager := Latest(Some(m), start, Filter(tags, allowed));
      eager.Some? ==> eager.value == Search(Some(m), allowed, start, tags, refused).tag
  }

  /**
   The loop is run with every tag refused.  If a scan fails on the way, no tag above the current one may be left
   that could be found if it alone were allowed.
   */
  ghost predicate NeverStuck(m: Matcher, start: string, tags: seq<string>)
    requires m.Valid()
    decreases |tags|
  {
    var next := Latest(Some(m), start, tags);
    if next.None? then forall t :: t in tags && Above(m, t, start) ==> Scan(m, start, Filter(tags, Only(t))) == None
    else if next.value == start then true
    else
      LatestIsListed(Some(m), start, tags);
      WithoutShrinks(tags, next.value);
      NeverStuck(m, start, Without(tags, next.value))
  }

  /** The tag a scan finds is also found when it alone is listed. */
  lemma {:induction false} FoundAlone(m: Matcher, best: string, tags: seq<string>, r: string)
    requires m.Valid() && Scan(m, best, tags) == Some(r)
    ensures Scan(m, best, Filter(tags, Only(r))) == Some(r)
    decreases tags
  {
    if tags != [] {
      var tag, rest := tags[0], tags[1..];
      var next := if Above(m, tag, best) then tag else best;
      var alone := Filter(rest, Only(r));
      FoundAlone(m, next, rest, r);
      if tag == r {
        assert Filter(tags, Only(r)) == [r] + alone;
        assert ([r] + alone)[1..] == alone;
      } else {
        assert Filter(tags, Only(r)) == alone;
        if next != best { FoundFromBelow(m, best, next, alone, r); }
      }
    }
  }

  lemma FoundFromBelow(m: Matcher, best: string, next: string, alone: seq<string>, r: string)
    requires m.Valid() && Above(m, next, best) && next != r && Scan(m, next, alone) == Some(r) && forall t :: t in alone ==> t == r
    ensures Scan(m, best, alone) == Some(r)
  {
    ScanLatest(m, next, alone);
    assert r in alone && alone[0] in alone;
    AboveIsStrict(m, next, best, "");
    AboveIsStrict(m, r, next, best);
  }

  lemma {:induction false} FilterOne(tags: seq<string>, allowed: string -> bool, r: string)
    requires allowed(r)
    ensures Filter(Filter(tags, allowed), Only(r)) == Filter(tags, Only(r))
  {
    if tags != [] {
      FilterOne(tags[1..], allowed, r);
      var rest := Filter(tags[1..], allowed);
      if allowed(tags[0]) {
        assert Filter(tags, allowed) == [tags[0]] + rest;
        assert ([tags[0]] + rest)[1..] == rest;
      } else {
        assert Filter(tags, allowed) == rest;
      }
    }
  }

  /** A hidden upgrade: the tag would be found if it alone were allowed, but the loop falls back to the current one. */
  ghost predicate Hidden(m: Matcher, start: string, tags: seq<string>, t: string)
    requires m.Valid()
  {
    && t in tags && Above(m, t, start) && Scan(m, start, Filter(tags, Only(t))) == Some(t)
    && Search(Some(m), Only(t), start, tags, false).tag == Search(Some(m), Only(t), start, tags, true).tag == start
  }

  lemma {:induction false} HiddenUpgrade(m: Matcher, start: string, tags: seq<string>) returns (t: string)
    requires m.Valid() && !NeverStuck(m, start, tags)
    ensures Hidden(m, start, tags, t)
    decreases |tags|
  {
    var next := Latest(Some(m), start, tags);
    if next.None? {
      t :| t in tags && Above(m, t, start) && Scan(m, start, Filter(tags, Only(t))).Some?;
      LoneResult(m, start, tags, t);
    } else {
      LatestIsListed(Some(m), start, tags);
      WithoutShrinks(tags, next.value);
      t := HiddenUpgrade(m, start, Without(tags, next.value));
      FilterWithout(tags, Only(t), next.value);
    }
  }

  lemma LoneResult(m: Matcher, start: string, tags: seq<string>, t: string)
    requires m.Valid() && t in tags && Above(m, t, start) && Scan(m, start, Filter(tags, Only(t))).Some?
    ensures Scan(m, start, Filter(tags, Only(t))) == Some(t)
  {
    var alone := Filter(tags, Only(t));
    assert t in alone;
    ScanLatest(m, start, alone);
    AboveIsStrict(m, t, start, "");
    LatestIsListed(Some(m), start, alone);
  }

  lemma {:induction false} NeverStuckFinds(m: Matcher, allowed: string -> bool, start: string, tags: seq<string>, refused: bool)
    requires m.Valid() && NeverStuck(m, start, tags) && Latest(Some(m), start, Filter(tags, allowed)).Some?
    ensures Latest(Some(m), start, Filter(tags, allowed)).value == Search(Some(m), allowed, start, tags, refused).tag
    decreases |tags|
  {
    var kept := Filter(tags, allowed);
    var next, r := Scan(m, start, tags), Scan(m, start, kept).value;
    ScanLatest(m, start, tags);
    ScanLatest(m, start, kept);
    if next.None? {
      if r != start {
        FoundAlone(m, start, kept, r);
        FilterOne(tags, allowed, r);
      }
    } else if next.value == start {
      LatestUnique(m, start, kept, start, r);
    } else if allowed(next.value) {
      FilterKeepsLatest(m, start, tags, allowed, next.value);
      LatestUnique(m, start, kept, next.value, r);
    } else {
      LatestIsListed(Some(m), start, tags);
      WithoutShrinks(tags, next.value);
      FilterWithout(tags, allowed, next.value);
      NeverStuckFinds(m, allowed, start, Without(tags, next.value), true);
    }
  }

  /** No rule hides an upgrade exactly when the loop, with every tag refused, is never stuck before a tag it could find. */
  lemma HidesNothingIff(m: Matcher, start: string, tags: seq<string>)
    requires m.Valid()
    ensures HidesNothing(m, start, tags) <==> NeverStuck(m, start, tags)
  {
    if NeverStuck(m, start, tags) {
      forall allowed: string -> bool, refused | Latest(Some(m), start, Filter(tags, allowed)).Some?
        ensures Latest(Some(m), start, Filter(tags, allowed)).value == Search(Some(m), allowed, start, tags, refused).tag
      {
        NeverStuckFinds(m, allowed, start, tags, refused);
      }
    } else {
      var t := HiddenUpgrade(m, start, tags);
      AboveIsStrict(m, t, start, "");
      assert Search(Some(m), Only(t), start, tags, false).tag != Latest(Some(m), start, Filter(tags, Only(t))).value;
    }
  }

  lemma {:induction false} FilterWithout(tags: seq<string>, allowed: string -> bool, tag: string)
    requires !allowed(tag)
    ensures Filter(Without(tags, tag), allowed) == Filter(tags, allowed)
  {
    if tags != [] {
      FilterWithout(tags[1..], allowed, tag);
      var rest := Without(tags[1..], tag);
      if tags[0] == tag {
        assert Without(tags, tag) == rest;
      } else {
        assert Without(tags, tag) == [tags[0]] + rest;
        assert ([tags[0]] + rest)[1..] == rest;
      }
    }
  }

  /** Dropping refused tags keeps an allowed latest tag the latest, and the earliest of its rank. */
  lemma FilterKeepsLatest(m: Matcher, start: string, tags: seq<string>, allowed: string -> bool, r: string)
    requires m.Valid() && IsLatest(m, start, tags, r) && allowed(r) && r != start
    ensures IsLatest(m, start, Filter(tags, allowed), r)
  {
    var i: nat :| FirstAt(m, start, tags, r, i);
    FilterPosition(tags, allowed, i);
    var k := |Filter(tags[..i], allowed)|;
    var kept := Filter(tags, allowed);
    forall j | 0 <= j < k ensures Above(m, r, kept[j]) {
      assert kept[j] == Filter(tags[..i], allowed)[j];
      assert kept[j] in tags[..i];
    }
    assert FirstAt(m, start, kept, r, k);
  }

  lemma PrefixAfter(head: seq<string>, before: seq<string>, t: string, all: seq<string>)
    requires before + [t] <= all
    ensures (head + before) + [t] <= head + all
  {
    assert (head + before) + [t] == head + (before + [t]);
  }

  lemma {:induction false} FilterPosition(tags: seq<string>, allowed: string -> bool, i: nat)
    requires i < |tags| && allowed(tags[i])
    ensures var before := Filter(tags[..i], allowed);
            before + [tags[i]] <= Filter(tags, allowed)
  {
    if i > 0 {
      FilterPosition(tags[1..], allowed, i - 1);
      var head := if allowed(tags[0]) then [tags[0]] else [];
      assert tags[..i][1..] == tags[1..][..i - 1];
      PrefixAfter(head, Filter(tags[1..][..i - 1], allowed), tags[i], Filter(tags[1..], allowed));
    }
  }

  /** The search reports a refusal exactly when something newer was listed and none of it is allowed. */
  lemma {:induction false} RefusedMeaning(m: Matcher, allowed: string -> bool, start: string, tags: seq<string>, refused: bool)
    requires m.Valid() && Decided(m, start, tags)
    ensures var f := Search(Some(m), allowed, start, tags, refused);
            f.refused <==> f.tag == start && (refused || exists t :: t in tags && Above(m, t, start))
    decreases |tags|
  {
    ScanLatest(m, start, tags);
    var next := Scan(m, start, tags).value;
    if next == start {
      forall t | t in tags ensures !Above(m, t, start) {
        if Above(m, t, start) { AboveIsStrict(m, t, start, ""); }
      }
    } else {
      assert next in tags && Above(m, next, start);
      if !allowed(next) {
        WithoutShrinks(tags, next);
        FilterDecided(m, start, tags, t => t != next);
        RefusedMeaning(m, allowed, start, Without(tags, next), true);
      }
    }
  }

  /** A matcher on which "new" carries a number that no int holds, between "old" (1) and "next" (2). */
  function OverflowMatcher(): Matcher {
    Matcher(2,
            (t: string) => if t == "old" then Some(["old", "1"])
                           else if t == "next" then Some(["next", "2"])
                           else if t == "new" then Some(["new", Decimal(MAX_INT + 1)])
                           else None,
            [Key(Numeric, 1)])
  }

  /**
   Without the premise the two searches differ: a refused tag whose number does not parse hides an
   allowed upgrade, because the failing scan makes the loop fall back to the current tag.
   */
  lemma ParseErrorHidesUpgrade()
    ensures var m := OverflowMatcher();
            var allowed := (t: string) => t == "next";
            && m.Valid()
            && Search(Some(m), allowed, "old", ["new", "next"], false).tag == "old"
            && Latest(Some(m), "old", Filter(["new", "next"], allowed)) == Some("next")
  {
    OverflowScan();
    OverflowFilter();
  }

  lemma OverflowScan()
    ensures OverflowMatcher().Valid()
    ensures Scan(OverflowMatcher(), "old", ["new", "next"]) == None
    ensures Scan(OverflowMatcher(), "old", ["next"]) == Some("next")
  {
    OverflowOrders();
    assert ["next"][1..] == [];
    assert Scan(OverflowMatcher(), "next", []) == Some("next");
  }

  lemma OverflowFilter()
    ensures Filter(["new", "next"], t => t == "next") == ["next"]
  {
    assert ["new", "next"][1..] == ["next"] && ["next"][1..] == [];
    assert Filter(["next"], t => t == "next") == ["next"];
  }

  lemma OverflowOrders()
    ensures CompareGroup(Numeric, Decimal(MAX_INT + 1), "1") == None
    ensures CompareGroup(Numeric, "2", "1") == Some(Gt)
  {
    DecimalRoundTrip(MAX_INT + 1);
    assert IsDigit(Decimal(MAX_INT + 1)[0]);
    assert ("1")[..0] == "" && ("2")[..0] == "";
    assert Atoi("1") == Some(1) && Atoi("2") == Some(2);
  }
}
