/**
 Image allow rules (pkg/imageallowrules/imageallowrules.go).  Coverage of an image by a rule, reference
 resolution and signature verification are answered by `Oracle`; the options passed to the verifier are one
 mutable object shared by all rules, and every question asked through it is recorded.
 */
module AllowRules {
  import opened GoStrings

  type Annotations = map<string, string>
  datatype SignatureRule = SignatureRule(annotations: Annotations, allOf: seq<string>, anyOf: seq<string>)
  datatype AllowRule = AllowRule(images: seq<string>, signatures: seq<SignatureRule>)
  datatype VerifyResult = Verified | NotVerified | VerifyError
  datatype Query = Query(annotations: Annotations, key: string)

  datatype Oracle = Oracle(covers: AllowRule -> bool, resolves: bool, verify: Query -> VerifyResult)

  datatype Verdict = Allowed | NotAllowed | CheckFailed

  // ---------- The intended meaning ----------

  predicate Signed(o: Oracle, r: SignatureRule, key: string) { o.verify(Query(r.annotations, key)).Verified? }

  predicate SignatureOk(o: Oracle, r: SignatureRule) {
    && (forall k :: k in r.allOf ==> Signed(o, r, k))
    && (r.anyOf == [] || exists k :: k in r.anyOf && Signed(o, r, k))
  }

  predicate AllSignaturesOk(o: Oracle, rs: seq<SignatureRule>) { forall s :: s in rs ==> SignatureOk(o, s) }

  predicate RuleOk(o: Oracle, r: AllowRule) { o.covers(r) && AllSignaturesOk(o, r.signatures) }

  lemma AllSignaturesCons(o: Oracle, rs: seq<SignatureRule>)
    requires rs != []
    ensures AllSignaturesOk(o, rs) <==> SignatureOk(o, rs[0]) && AllSignaturesOk(o, rs[1..])
  {
    assert forall s :: s in rs <==> s == rs[0] || s in rs[1..];
  }

  // ---------- What is asked, and in which order ----------

  /** Signers asked until the first one whose answer is `stop`. */
  function AskUntil(o: Oracle, r: SignatureRule, keys: seq<string>, stop: bool): seq<Query> {
    if keys == [] then []
    else [Query(r.annotations, keys[0])] + (if Signed(o, r, keys[0]) == stop then [] else AskUntil(o, r, keys[1..], stop))
  }

  predicate AllSigned(o: Oracle, r: SignatureRule) { forall k :: k in r.allOf ==> Signed(o, r, k) }

  function AskSignature(o: Oracle, r: SignatureRule): seq<Query> {
    AskUntil(o, r, r.allOf, false) + (if AllSigned(o, r) then AskUntil(o, r, r.anyOf, true) else [])
  }

  function AskSignatures(o: Oracle, rs: seq<SignatureRule>): seq<Query> {
    if rs == [] then []
    else AskSignature(o, rs[0]) + (if SignatureOk(o, rs[0]) then AskSignatures(o, rs[1..]) else [])
  }

  /** The questions of the whole check when references resolve. */
  function AskRules(o: Oracle, rules: seq<AllowRule>): seq<Query> {
    if rules == [] then []
    else if !o.covers(rules[0]) then AskRules(o, rules[1..])
    else AskSignatures(o, rules[0].signatures) + (if RuleOk(o, rules[0]) then [] else AskRules(o, rules[1..]))
  }

  /** Every question is about a signer of a covering rule, with the annotations of that very signature rule. */
  ghost predicate Belongs(o: Oracle, rules: seq<AllowRule>, q: Query) {
    exists r, s :: r in rules && o.covers(r) && s in r.signatures && q.annotations == s.annotations && (q.key in s.allOf || q.key in s.anyOf)
  }

  lemma {:induction false} AskUntilBelongs(o: Oracle, r: SignatureRule, keys: seq<string>, stop: bool)
    ensures forall q :: q in AskUntil(o, r, keys, stop) ==> q.annotations == r.annotations && q.key in keys
  {
    if keys != [] { AskUntilBelongs(o, r, keys[1..], stop); }
  }

  lemma {:induction false} AskSignaturesBelong(o: Oracle, rs: seq<SignatureRule>, q: Query)
    requires q in AskSignatures(o, rs)
    ensures exists s :: s in rs && q.annotations == s.annotations && (q.key in s.allOf || q.key in s.anyOf)
  {
    AskUntilBelongs(o, rs[0], rs[0].allOf, false);
    AskUntilBelongs(o, rs[0], rs[0].anyOf, true);
    if q !in AskSignature(o, rs[0]) {
      AskSignaturesBelong(o, rs[1..], q);
      var s :| s in rs[1..] && q.annotations == s.annotations && (q.key in s.allOf || q.key in s.anyOf);
      assert s in rs;
    } else {
      assert rs[0] in rs;
    }
  }

  /** Despite the shared options, no rule is ever checked with another rule's annotations or signers. */
  lemma {:induction false} QuestionsBelongToTheirRule(o: Oracle, rules: seq<AllowRule>, q: Query)
    requires q in AskRules(o, rules)
    ensures Belongs(o, rules, q)
  {
    if o.covers(rules[0]) && q in AskSignatures(o, rules[0].signatures) {
      AskSignaturesBelong(o, rules[0].signatures, q);
      assert rules[0] in rules;
    } else {
      QuestionsBelongToTheirRule(o, rules[1..], q);
      var r, s :| r in rules[1..] && o.covers(r) && s in r.signatures && q.annotations == s.annotations && (q.key in s.allOf || q.key in s.anyOf);
      assert r in rules;
    }
  }

  // ---------- The check ----------

  lemma Assoc(a: seq<Query>, b: seq<Query>, c: seq<Query>)
    ensures a + (b + c) == (a + b) + c && b + [] == b
  {
  }

  class VerifyOpts {
    const oracle: Oracle
    var resolved: bool
    var annotations: Annotations
    var key: string
    ghost var asked: seq<Query>

    constructor (oracle: Oracle)
      ensures this.oracle == oracle && !resolved && asked == []
    {
      this.oracle, resolved, annotations, key := oracle, false, map[], "";
      asked := [];
    }

    /** Resolves image and signature references once. */
    method EnsureReferences() returns (ok: bool)
      modifies this`resolved
      ensures ok == (old(resolved) || oracle.resolves) && resolved == ok
    {
      if !resolved {
        resolved := oracle.resolves;
      }
      ok := resolved;
    }

    /** Verification with whatever the options hold at the moment. */
    method VerifySignature() returns (r: VerifyResult)
      modifies this`asked
      ensures r == oracle.verify(Query(annotations, key)) && asked == old(asked) + [Query(annotations, key)]
    {
      r := oracle.verify(Query(annotations, key));
      asked := asked + [Query(annotations, key)];
    }

    /** `allOf`: all signers must verify; the first that does not ends the loop. */
    method CheckAllOf(ghost rule: SignatureRule, signers: seq<string>) returns (ok: bool)
      requires annotations == rule.annotations
      modifies this`key, this`asked
      ensures ok <==> forall k :: k in signers ==> Signed(oracle, rule, k)
      ensures asked == old(asked) + AskUntil(oracle, rule, signers, false)
    {
      ghost var all := AskUntil(oracle, rule, signers, false);
      assert signers[0..] == signers;
      for i := 0 to |signers|
        invariant forall k :: k in signers[..i] ==> Signed(oracle, rule, k)
        invariant old(asked) + all == asked + AskUntil(oracle, rule, signers[i..], false)
      {
        assert signers[i..][1..] == signers[i + 1..];
        assert signers[..i + 1] == signers[..i] + [signers[i]];
        key := signers[i];
        Assoc(asked, [Query(annotations, key)], AskUntil(oracle, rule, signers[i + 1..], false));
        var r := VerifySignature();
        if !r.Verified? {
          return false;
        }
      }
      assert signers[..|signers|] == signers;
      return true;
    }

    /** `anyOf`: the first signer that verifies is enough. */
    method CheckAnyOf(ghost rule: SignatureRule, signers: seq<string>) returns (ok: bool)
      requires annotations == rule.annotations
      modifies this`key, this`asked
      ensures ok <==> exists k :: k in signers && Signed(oracle, rule, k)
      ensures asked == old(asked) + AskUntil(oracle, rule, signers, true)
    {
      ghost var all := AskUntil(oracle, rule, signers, true);
      assert signers[0..] == signers;
      for i := 0 to |signers|
        invariant forall k :: k in signers[..i] ==> !Signed(oracle, rule, k)
        invariant old(asked) + all == asked + AskUntil(oracle, rule, signers[i..], true)
      {
        assert signers[i..][1..] == signers[i + 1..];
        assert signers[..i + 1] == signers[..i] + [signers[i]];
        key := signers[i];
        Assoc(asked, [Query(annotations, key)], AskUntil(oracle, rule, signers[i + 1..], true));
        var r := VerifySignature();
        if r.Verified? {
          assert signers[i] in signers;
          return true;
        }
      }
      assert signers[..|signers|] == signers;
      return false;
    }

    method CheckSignature(rule: SignatureRule) returns (ok: bool)
      modifies this`annotations, this`key, this`asked
      ensures ok == SignatureOk(oracle, rule) && asked == old(asked) + AskSignature(oracle, rule)
    {
      annotations := rule.annotations;
      var all, any := AskUntil(oracle, rule, rule.allOf, false), AskUntil(oracle, rule, rule.anyOf, true);
      assert rule.allOf == [] ==> all == [];
      assert rule.anyOf == [] ==> any == [];
      if |rule.allOf| != 0 {
        ok := CheckAllOf(rule, rule.allOf);
        if !ok {
          assert all + [] == all;
          return false;
        }
      }
      assert asked == old(asked) + all;
      if |rule.anyOf| != 0 {
        ok := CheckAnyOf(rule, rule.anyOf);
        assert (old(asked) + all) + any == old(asked) + (all + any);
        return;
      }
      assert all + [] == all;
      return true;
    }

    /** The signature rules of one covering rule; None when references do not resolve. */
    method CheckSignatures(rules: seq<SignatureRule>) returns (ok: Option<bool>)
      requires resolved ==> oracle.resolves
      modifies this
      ensures resolved ==> oracle.resolves
      ensures ok == if rules != [] && !oracle.resolves then None else Some(AllSignaturesOk(oracle, rules))
      ensures asked == old(asked) + (if oracle.resolves then AskSignatures(oracle, rules) else [])
    {
      assert rules[0..] == rules && old(asked) + [] == old(asked);
      for i := 0 to |rules|
        invariant (resolved || i > 0) ==> oracle.resolves
        invariant AllSignaturesOk(oracle, rules) == AllSignaturesOk(oracle, rules[i..])
        invariant oracle.resolves ==> old(asked) + AskSignatures(oracle, rules) == asked + AskSignatures(oracle, rules[i..])
        invariant !oracle.resolves ==> asked == old(asked)
      {
        assert rules[i..][0] == rules[i] && rules[i..][1..] == rules[i + 1..];
        var there := EnsureReferences();
        if !there {
          return None;
        }
        AllSignaturesCons(oracle, rules[i..]);
        Assoc(asked, AskSignature(oracle, rules[i]), AskSignatures(oracle, rules[i + 1..]));
        var signed := CheckSignature(rules[i]);
        if !signed {
          return Some(false);
        }
      }
      return Some(true);
    }
  }

  /** Where references do not resolve, the first covering rule decides. */
  function FirstCovering(o: Oracle, rules: seq<AllowRule>): Option<AllowRule> {
    if rules == [] then None else if o.covers(rules[0]) then Some(rules[0]) else FirstCovering(o, rules[1..])
  }

  function VerdictOf(o: Oracle, rules: seq<AllowRule>): Verdict {
    if o.resolves then (if exists r :: r in rules && RuleOk(o, r) then Allowed else NotAllowed)
    else
      match FirstCovering(o, rules)
      case None => NotAllowed
      case Some(r) => if r.signatures == [] then Allowed else CheckFailed
  }

  /**
   `config` is whether the feature is on, None when it cannot be read; `parses` is whether the image
   reference is well formed.
   */
  method CheckImageAgainstRules(o: Oracle, config: Option<bool>, parses: bool, rules: seq<AllowRule>)
    returns (v: Verdict, ghost asked: seq<Query>)
    ensures config.None? ==> v == CheckFailed
    ensures config == Some(false) ==> v == Allowed
    ensures config == Some(true) && rules == [] ==> v == NotAllowed
    ensures config == Some(true) && rules != [] ==> v == if parses then VerdictOf(o, rules) else CheckFailed
    ensures config == Some(true) && parses && o.resolves && rules != [] ==>
              && v != CheckFailed
              && (v == Allowed <==> exists r :: r in rules && o.covers(r) && forall s :: s in r.signatures ==>
                    && (forall k :: k in s.allOf ==> o.verify(Query(s.annotations, k)) == Verified)
                    && (s.anyOf == [] || exists k :: k in s.anyOf && o.verify(Query(s.annotations, k)) == Verified))
    ensures config == Some(true) && parses && o.resolves ==> asked == AskRules(o, rules)
  {
    asked := [];
    if config.None? {
      return CheckFailed, [];
    }
    if !config.value {
      return Allowed, [];
    }
    if |rules| == 0 {
      return NotAllowed, [];
    }
    var opts := new VerifyOpts(o);
    if !parses {
      return CheckFailed, [];
    }
    ghost var all := AskRules(o, rules);
    assert rules[0..] == rules;
    for i := 0 to |rules|
      invariant opts.oracle == o && (opts.resolved ==> o.resolves)
      invariant forall r :: r in rules[..i] ==> !RuleOk(o, r)
      invariant !o.resolves ==> FirstCovering(o, rules) == FirstCovering(o, rules[i..])
      invariant o.resolves ==> all == opts.asked + AskRules(o, rules[i..])
    {
      assert rules[i..][1..] == rules[i + 1..];
      assert rules[..i + 1] == rules[..i] + [rules[i]];
      if !o.covers(rules[i]) {
        continue;
      }
      Assoc(opts.asked, AskSignatures(o, rules[i].signatures), AskRules(o, rules[i + 1..]));
      var ok := opts.CheckSignatures(rules[i].signatures);
      if ok.None? {
        return CheckFailed, opts.asked;
      }
      if ok.value {
        assert rules[i] in rules && RuleOk(o, rules[i]);
        return Allowed, opts.asked;
      }
    }
    assert rules[..|rules|] == rules;
    return NotAllowed, opts.asked;
  }

  // ---------- Order of the rules ----------

  ghost predicate SameRules(a: seq<AllowRule>, b: seq<AllowRule>) { multiset(a) == multiset(b) }

  lemma SameMembers(a: seq<AllowRule>, b: seq<AllowRule>)
    requires SameRules(a, b)
    ensures forall r :: r in a <==> r in b
  {
    assert forall r :: (r in a <==> r in multiset(a)) && (r in b <==> r in multiset(b));
  }

  lemma ToFront(rules: seq<AllowRule>, r: AllowRule) returns (rules': seq<AllowRule>)
    requires r in rules
    ensures SameRules(rules, rules') && rules' != [] && rules'[0] == r
  {
    var p :| 0 <= p < |rules| && rules[p] == r;
    rules' := [r] + (rules[..p] + rules[p + 1..]);
    assert rules == rules[..p] + ([r] + rules[p + 1..]);
  }

  /** All covering rules ask for signatures, or none does. */
  predicate Uniform(o: Oracle, rules: seq<AllowRule>) {
    forall a, b :: a in rules && b in rules && o.covers(a) && o.covers(b) ==> (a.signatures == [] <==> b.signatures == [])
  }

  lemma {:induction false} FirstCoveringListed(o: Oracle, rules: seq<AllowRule>)
    ensures FirstCovering(o, rules).Some? ==> FirstCovering(o, rules).value in rules && o.covers(FirstCovering(o, rules).value)
    ensures FirstCovering(o, rules).None? ==> forall r :: r in rules ==> !o.covers(r)
  {
    if rules != [] { FirstCoveringListed(o, rules[1..]); }
  }

  /** The covering rule that decides without references has no covering rule before it. */
  lemma {:induction false} FirstCoveringMeans(o: Oracle, rules: seq<AllowRule>, i: nat)
    requires i < |rules| && o.covers(rules[i]) && forall j :: 0 <= j < i ==> !o.covers(rules[j])
    ensures FirstCovering(o, rules) == Some(rules[i])
  {
    if i > 0 {
      assert !o.covers(rules[0]);
      FirstCoveringMeans(o, rules[1..], i - 1);
    }
  }

  /** Signers are asked in their order, up to and including the first whose answer settles the matter. */
  lemma {:induction false} AskUntilMeans(o: Oracle, r: SignatureRule, keys: seq<string>, stop: bool)
    ensures var q := AskUntil(o, r, keys, stop);
            && |q| <= |keys|
            && (forall i :: 0 <= i < |q| ==> q[i] == Query(r.annotations, keys[i]))
            && (forall i :: 0 <= i < |q| - 1 ==> Signed(o, r, keys[i]) != stop)
            && (|q| < |keys| ==> |q| > 0 && Signed(o, r, keys[|q| - 1]) == stop)
  {
    if keys != [] && Signed(o, r, keys[0]) != stop {
      AskUntilMeans(o, r, keys[1..], stop);
    }
  }

  /** The verdict is independent of the order of the rules exactly when references resolve or the covering rules are alike. */
  lemma VerdictOrderFreeIff(o: Oracle, rules: seq<AllowRule>)
    ensures (forall rules' :: SameRules(rules, rules') ==> VerdictOf(o, rules') == VerdictOf(o, rules))
            <==> o.resolves || Uniform(o, rules)
  {
    FirstCoveringListed(o, rules);
    if o.resolves || Uniform(o, rules) {
      forall rules' | SameRules(rules, rules') ensures VerdictOf(o, rules') == VerdictOf(o, rules) {
        FirstCoveringListed(o, rules');
        SameMembers(rules, rules');
      }
    } else {
      var a, b :| a in rules && b in rules && o.covers(a) && o.covers(b) && a.signatures == [] && b.signatures != [];
      var withA := ToFront(rules, a);
      var withB := ToFront(rules, b);
      assert VerdictOf(o, withA) != VerdictOf(o, withB);
    }
  }

  /** Without resolved references, a covering rule without signatures allows the image or not, depending on where it stands. */
  lemma OrderCanDecide(o: Oracle, open: AllowRule, signed: AllowRule)
    requires !o.resolves && o.covers(open) && o.covers(signed) && open.signatures == [] && signed.signatures != []
    ensures SameRules([open, signed], [signed, open])
    ensures VerdictOf(o, [open, signed]) == Allowed && VerdictOf(o, [signed, open]) == CheckFailed
  {
    assert [open, signed] == [open] + [signed] && [signed, open] == [signed] + [open];
  }
}
