/**
 Annotation matching of pkg/cosign/cosign.go: the value lists of all signatures are expanded into label maps
 by a mixed-radix enumeration, and the image passes if some label map satisfies the selector.  Go ranges
 over a map in an order of its own choosing, so every pass over the keys has its own order here.
 */
module Annotations {
  import opened GoStrings

  type Lists = map<string, seq<string>>
  type LabelMap = map<string, string>

  /** A choice of one position in each list. */
  type Choice = map<string, nat>

  ghost predicate IsOrder(keys: set<string>, order: seq<string>) {
    && (forall k :: k in order <==> k in keys)
    && (forall i, j :: 0 <= i < j < |order| ==> order[i] != order[j])
  }

  predicate Known(input: Lists, order: seq<string>) { forall k :: k in order ==> k in input }

  predicate NonEmpty(input: Lists, order: seq<string>) { forall k :: k in order ==> k in input && |input[k]| > 0 }

  ghost predicate IsChoice(input: Lists, c: Choice) {
    c.Keys == input.Keys && forall k :: k in c ==> c[k] < |input[k]|
  }

  function Product(input: Lists, order: seq<string>): nat
    requires Known(input, order)
  {
    if order == [] then 1 else |input[order[0]]| * Product(input, order[1..])
  }

  /** The digits of `i` in the mixed radix given by the lists, the first key of the order being the lowest digit. */
  function Digits(input: Lists, order: seq<string>, i: nat): Choice
    requires NonEmpty(input, order)
    decreases order
  {
    if order == [] then map[]
    else
      var n := |input[order[0]]|;
      Digits(input, order[1..], i / n)[order[0] := i % n]
  }

  function Number(input: Lists, order: seq<string>, c: Choice): nat
    requires Known(input, order) && forall k :: k in order ==> k in c
  {
    if order == [] then 0 else c[order[0]] + |input[order[0]]| * Number(input, order[1..], c)
  }

  function Values(input: Lists, c: Choice): LabelMap
    requires forall k :: k in c ==> k in input && c[k] < |input[k]|
  {
    map k | k in c :: input[k][c[k]]
  }

  lemma MulPositive(a: nat, b: nat)
    ensures a * b > 0 <==> a > 0 && b > 0
  {
  }

  lemma {:induction false} ProductPositive(input: Lists, order: seq<string>)
    requires Known(input, order)
    ensures Product(input, order) > 0 <==> NonEmpty(input, order)
  {
    if order != [] {
      ProductPositive(input, order[1..]);
      assert order[0] in order;
      MulPositive(|input[order[0]]|, Product(input, order[1..]));
      assert forall k :: k in order <==> k == order[0] || k in order[1..];
    }
  }

  lemma {:induction false} DigitsInRange(input: Lists, order: seq<string>, i: nat)
    requires NonEmpty(input, order)
    ensures forall k :: k in Digits(input, order, i) <==> k in order
    ensures forall k :: k in Digits(input, order, i) ==> Digits(input, order, i)[k] < |input[k]|
    decreases order
  {
    if order != [] {
      assert order[0] in order;
      DigitsInRange(input, order[1..], i / |input[order[0]]|);
      assert forall k :: k in order <==> k == order[0] || k in order[1..];
    }
  }

  // ---------- The enumeration is a bijection ----------

  lemma MulStep(n: nat, a: nat, b: nat)
    requires a < b
    ensures n * a + n <= n * b
  {
    assert n * b == n * a + n * (b - a);
    assert n * (b - a) == n + n * (b - a - 1);
  }

  lemma EuclidUnique(n: nat, q: nat, r: nat, q': nat, r': nat)
    requires n * q + r == n * q' + r' && r < n && r' < n
    ensures q == q' && r == r'
  {
    if q < q' {
      MulStep(n, q, q');
    } else if q' < q {
      MulStep(n, q', q);
    }
  }

  lemma DivModUnique(n: nat, q: nat, r: nat)
    requires r < n
    ensures (r + n * q) / n == q && (r + n * q) % n == r
  {
    var x := r + n * q;
    EuclidUnique(n, x / n, x % n, q, r);
  }

  lemma DivBound(i: nat, n: nat, p: nat)
    requires n > 0 && i < n * p
    ensures i / n < p
  {
    if p < i / n {
      MulStep(n, p, i / n);
    }
  }

  /** Reading the digits of a number gives the number back. */
  lemma {:induction false} NumberOfDigits(input: Lists, order: seq<string>, i: nat, keys: set<string>)
    requires NonEmpty(input, order) && IsOrder(keys, order) && i < Product(input, order)
    ensures (forall k :: k in order ==> k in Digits(input, order, i)) && Number(input, order, Digits(input, order, i)) == i
    decreases order
  {
    DigitsInRange(input, order, i);
    if order != [] {
      var n := |input[order[0]]|;
      assert order[0] in order;
      DivBound(i, n, Product(input, order[1..]));
      TailOrder(keys, order);
      NumberOfDigits(input, order[1..], i / n, keys - {order[0]});
      NumberOfDigitsStep(input, order, i);
    }
  }

  lemma NumberOfDigitsStep(input: Lists, order: seq<string>, i: nat)
    requires order != [] && NonEmpty(input, order) && order[0] !in order[1..]
    requires var q := i / |input[order[0]]|;
             (forall k :: k in order[1..] ==> k in Digits(input, order[1..], q)) && Number(input, order[1..], Digits(input, order[1..], q)) == q
    ensures (forall k :: k in order ==> k in Digits(input, order, i)) && Number(input, order, Digits(input, order, i)) == i
  {
    var n := |input[order[0]]|;
    var d, rest := Digits(input, order, i), Digits(input, order[1..], i / n);
    assert d == rest[order[0] := i % n];
    assert forall k :: k in order <==> k == order[0] || k in order[1..];
    NumberAgrees(input, order[1..], d, rest);
    NumberCons(input, order, d, i / n);
    DivModSum(i, n);
  }

  lemma NumberCons(input: Lists, order: seq<string>, c: Choice, q: nat)
    requires order != [] && Known(input, order) && (forall k :: k in order ==> k in c) && Number(input, order[1..], c) == q
    ensures Number(input, order, c) == c[order[0]] + |input[order[0]]| * q
  {
  }

  lemma DivModSum(i: nat, n: nat)
    requires n > 0
    ensures i % n + n * (i / n) == i
  {
  }

  lemma TailOrder(keys: set<string>, order: seq<string>)
    requires order != [] && IsOrder(keys, order)
    ensures IsOrder(keys - {order[0]}, order[1..]) && order[0] !in order[1..]
  {
    assert forall i :: 0 <= i < |order[1..]| ==> order[1..][i] == order[i + 1];
    assert forall k :: k in order <==> k == order[0] || k in order[1..];
  }

  lemma {:induction false} NumberAgrees(input: Lists, order: seq<string>, c: Choice, d: Choice)
    requires Known(input, order) && forall k :: k in order ==> k in c && k in d && c[k] == d[k]
    ensures Number(input, order, c) == Number(input, order, d)
  {
    if order != [] {
      assert order[0] in order;
      NumberAgrees(input, order[1..], c, d);
    }
  }

  /** Every choice has a number within range whose digits it is. */
  lemma {:induction false} DigitsOfNumber(input: Lists, order: seq<string>, c: Choice, keys: set<string>)
    requires NonEmpty(input, order) && IsOrder(keys, order)
    requires forall k :: k in order ==> k in c && c[k] < |input[k]|
    ensures Number(input, order, c) < Product(input, order)
    ensures forall k :: k in order ==> k in Digits(input, order, Number(input, order, c)) && Digits(input, order, Number(input, order, c))[k] == c[k]
    decreases order
  {
    if order != [] {
      var n, q := |input[order[0]]|, Number(input, order[1..], c);
      assert order[0] in order;
      TailOrder(keys, order);
      DigitsOfNumber(input, order[1..], c, keys - {order[0]});
      DivModUnique(n, q, c[order[0]]);
      NumberBound(n, q, c[order[0]], Product(input, order[1..]));
      assert forall k :: k in order <==> k == order[0] || k in order[1..];
    }
  }

  lemma NumberBound(n: nat, q: nat, r: nat, p: nat)
    requires r < n && q < p
    ensures r + n * q < n * p
  {
    MulStep(n, q, p);
  }

  /** With one order for all passes, each choice is produced exactly once. */
  lemma EachChoiceOnce(input: Lists, order: seq<string>, c: Choice)
    requires IsOrder(input.Keys, order) && NonEmpty(input, order) && IsChoice(input, c)
    ensures Number(input, order, c) < Product(input, order) && Digits(input, order, Number(input, order, c)) == c
    ensures forall i: nat :: i < Product(input, order) && Digits(input, order, i) == c ==> i == Number(input, order, c)
  {
    DigitsOfNumber(input, order, c, input.Keys);
    DigitsInRange(input, order, Number(input, order, c));
    forall i: nat | i < Product(input, order) && Digits(input, order, i) == c ensures i == Number(input, order, c) {
      NumberOfDigits(input, order, i, input.Keys);
    }
  }

  // ---------- The number of variations does not depend on the order ----------

  lemma MulSwap(a: nat, b: nat, c: nat)
    ensures a * (b * c) == b * (a * c)
  {
    assert a * (b * c) == (a * b) * c == b * (a * c);
  }

  lemma {:induction false} ProductSplit(input: Lists, order: seq<string>, p: nat)
    requires Known(input, order) && p < |order|
    ensures Known(input, order[..p] + order[p + 1..])
    ensures Product(input, order) == |input[order[p]]| * Product(input, order[..p] + order[p + 1..])
  {
    var rest := order[..p] + order[p + 1..];
    if p == 0 {
      assert rest == order[1..];
    } else {
      ProductSplit(input, order[1..], p - 1);
      assert order[1..][..p - 1] + order[1..][p..] == rest[1..];
      assert rest[0] == order[0];
      MulSwap(|input[order[0]]|, |input[order[p]]|, Product(input, rest[1..]));
    }
  }

  lemma {:induction false} ProductOrderFree(input: Lists, keys: set<string>, order: seq<string>, order': seq<string>)
    requires IsOrder(keys, order) && IsOrder(keys, order') && Known(input, order) && Known(input, order')
    ensures Product(input, order) == Product(input, order')
    decreases order
  {
    assert |order'| > 0 ==> order'[0] in order';
    if order != [] {
      var k := order[0];
      assert k in order && k in order';
      var p :| 0 <= p < |order'| && order'[p] == k;
      var rest' := order'[..p] + order'[p + 1..];
      ProductSplit(input, order', p);
      TailOrder(keys, order);
      assert IsOrder(keys - {k}, rest') by {
        assert forall x :: x in order' <==> x == k || x in rest';
        assert k !in rest';
      }
      ProductOrderFree(input, keys - {k}, order[1..], rest');
    }
  }

  // ---------- generateVariations ----------

  lemma MulNested(j: nat, n: nat, q: nat, r: nat)
    ensures j * (n * q + r) == (j * n) * q + j * r
  {
    assert j * (n * q + r) == j * (n * q) + j * r;
    assert j * (n * q) == (j * n) * q;
  }

  lemma DivDivCore(i: nat, j: nat, n: nat, a: nat, r: nat, q: nat, r': nat)
    requires i == j * a + r && r < j && a == n * q + r' && r' < n
    ensures i == (j * n) * q + (j * r' + r) && j * r' + r < j * n
  {
    MulNested(j, n, q, r');
    NumberBound(j, r', r, n);
  }

  lemma QuotientIs(x: nat, n: nat, q: nat, r: nat)
    requires x == n * q + r && r < n
    ensures x / n == q
  {
    EuclidUnique(n, x / n, x % n, q, r);
  }

  lemma DivDiv(i: nat, j: nat, n: nat)
    requires j > 0 && n > 0
    ensures j * n > 0 && (i / j) / n == i / (j * n)
  {
    MulPositive(j, n);
    var a := i / j;
    DivDivCore(i, j, n, a, i % j, a / n, a % n);
    QuotientIs(i, j * n, a / n, j * (a % n) + i % j);
  }

  method CountVariations(input: Lists, counting: seq<string>) returns (count: nat)
    requires Known(input, counting)
    ensures count == Product(input, counting)
  {
    count := 1;
    assert counting[0..] == counting;
    for t := 0 to |counting|
      invariant count * Product(input, counting[t..]) == Product(input, counting)
    {
      assert counting[t] in counting && counting[t..][1..] == counting[t + 1..];
      MulNested(count, |input[counting[t]]|, Product(input, counting[t + 1..]), 0);
      count := count * |input[counting[t]]|;
    }
  }

  /**
   `orders(i)` is the order in which pass `i` ranges over the keys, `counting` the one of the counting pass.
   Whatever they are, output `i` picks in each list the position given by the digits of `i`.
   */
  method GenerateVariations(input: Lists, counting: seq<string>, orders: nat -> seq<string>) returns (output: seq<LabelMap>)
    requires IsOrder(input.Keys, counting) && forall i: nat :: IsOrder(input.Keys, orders(i))
    ensures |output| == Product(input, counting)
    ensures forall i :: 0 <= i < |output| ==> PassOutput(input, orders(i), i, output[i])
  {
    var count := CountVariations(input, counting);
    ProductPositive(input, counting);
    var maps := new LabelMap[count](_ => map[]);
    for i := 0 to count
      invariant forall x :: 0 <= x < i ==> PassOutput(input, orders(x), x, maps[..i][x])
    {
      ghost var done := maps[..i];
      var m := OneVariation(input, orders(i), i);
      maps[i] := m;
      assert maps[..i] == done;
    }
    output := maps[..];
  }

  /** A digit read directly: divide by the radix of the keys before it. */
  lemma {:induction false} PositionDigit(input: Lists, order: seq<string>, i: nat, t: nat, keys: set<string>)
    requires IsOrder(keys, order) && NonEmpty(input, order) && t < |order|
    ensures Product(input, order[..t]) > 0 && order[t] in Digits(input, order, i)
    ensures Digits(input, order, i)[order[t]] == (i / Product(input, order[..t])) % |input[order[t]]|
    decreases order
  {
    ProductPositive(input, order[..t]);
    DigitsInRange(input, order, i);
    assert order[t] in order;
    if t > 0 {
      var n := |input[order[0]]|;
      assert order[0] in order;
      TailOrder(keys, order);
      PositionDigit(input, order[1..], i / n, t - 1, keys - {order[0]});
      assert order[..t][1..] == order[1..][..t - 1];
      DivDiv(i, n, Product(input, order[1..][..t - 1]));
    }
  }

  lemma ProductSnoc(input: Lists, order: seq<string>, t: nat)
    requires Known(input, order) && t < |order|
    ensures Product(input, order[..t + 1]) == Product(input, order[..t]) * |input[order[t]]|
  {
    ProductSplit(input, order[..t + 1], t);
    assert order[..t + 1][..t] + order[..t + 1][t + 1..] == order[..t];
  }

  ghost predicate PassOutput(input: Lists, order: seq<string>, i: nat, m: LabelMap) {
    && NonEmpty(input, order)
    && (forall k :: k in m <==> k in order)
    && (forall k :: k in m ==> k in Digits(input, order, i) && Digits(input, order, i)[k] < |input[k]| && m[k] == input[k][Digits(input, order, i)[k]])
  }

  /** One pass over the keys with the running radix `j`. */
  method OneVariation(input: Lists, order: seq<string>, i: nat) returns (m: LabelMap)
    requires IsOrder(input.Keys, order) && NonEmpty(input, order)
    ensures PassOutput(input, order, i, m)
  {
    m := map[];
    var j := 1;
    ghost var d := Digits(input, order, i);
    DigitsInRange(input, order, i);
    for t := 0 to |order|
      invariant j == Product(input, order[..t])
      invariant forall k :: k in m <==> k in order[..t]
      invariant forall k :: k in m ==> m[k] == input[k][d[k]]
    {
      var key := order[t];
      var values := input[key];
      PositionDigit(input, order, i, t, input.Keys);
      ProductSnoc(input, order, t);
      m := m[key := values[(i / j) % |values|]];
      j := j * |values|;
      assert order[..t + 1] == order[..t] + [key];
    }
    assert order[..|order|] == order;
  }

  // ---------- Completeness and iteration order ----------

  /** Every choice is produced by some pass. */
  ghost predicate Complete(input: Lists, count: nat, orders: nat -> seq<string>)
    requires forall i: nat :: IsOrder(input.Keys, orders(i)) && NonEmpty(input, orders(i))
  {
    forall c :: IsChoice(input, c) ==> exists i: nat :: i < count && Digits(input, orders(i), i) == c
  }

  ghost predicate AllOrders(input: Lists, orders: nat -> seq<string>) {
    forall i: nat :: IsOrder(input.Keys, orders(i)) && NonEmpty(input, orders(i))
  }

  /** At most one annotation key has more than one value. */
  predicate AtMostOneMultiple(input: Lists) {
    forall a, b :: a in input && b in input && |input[a]| >= 2 && |input[b]| >= 2 ==> a == b
  }

  /** Where one key has all the choice, its digit is the number itself and every other digit is zero. */
  lemma {:induction false} DigitsOfSingle(input: Lists, order: seq<string>, keys: set<string>, i: nat)
    requires IsOrder(keys, order) && NonEmpty(input, order) && i < Product(input, order)
    requires forall a, b :: a in order && b in order && |input[a]| >= 2 && |input[b]| >= 2 ==> a == b
    ensures forall k :: k in order ==> k in Digits(input, order, i) && Digits(input, order, i)[k] == if |input[k]| >= 2 then i else 0
    decreases order
  {
    if order != [] {
      var n := |input[order[0]]|;
      assert order[0] in order;
      TailOrder(keys, order);
      assert forall k :: k in order <==> k == order[0] || k in order[1..];
      DivBound(i, n, Product(input, order[1..]));
      DigitsOfSingle(input, order[1..], keys - {order[0]}, i / n);
      if n >= 2 {
        ProductOfOnes(input, order[1..]);
      }
    }
  }

  lemma {:induction false} ProductOfOnes(input: Lists, order: seq<string>)
    requires NonEmpty(input, order) && forall k :: k in order ==> |input[k]| < 2
    ensures Product(input, order) == 1
  {
    if order != [] {
      assert order[0] in order;
      ProductOfOnes(input, order[1..]);
    }
  }

  lemma SingleIsComplete(input: Lists, order: seq<string>, orders: nat -> seq<string>)
    requires IsOrder(input.Keys, order) && NonEmpty(input, order) && AllOrders(input, orders) && AtMostOneMultiple(input)
    ensures Complete(input, Product(input, order), orders)
  {
    forall c | IsChoice(input, c) ensures exists i: nat :: i < Product(input, order) && Digits(input, orders(i), i) == c {
      EachChoiceOnce(input, order, c);
      var i := Number(input, order, c);
      SingleSameDigits(input, order, orders(i), i);
      assert Digits(input, orders(i), i) == c;
    }
  }

  lemma SingleSameDigits(input: Lists, order: seq<string>, order': seq<string>, i: nat)
    requires IsOrder(input.Keys, order) && NonEmpty(input, order) && IsOrder(input.Keys, order') && NonEmpty(input, order')
    requires AtMostOneMultiple(input) && i < Product(input, order)
    ensures Digits(input, order, i) == Digits(input, order', i)
  {
    ProductOrderFree(input, input.Keys, order, order');
    DigitsOfSingle(input, order, input.Keys, i);
    DigitsOfSingle(input, order', input.Keys, i);
    DigitsInRange(input, order, i);
    DigitsInRange(input, order', i);
  }

  lemma {:induction false} DigitsOfZero(input: Lists, order: seq<string>)
    requires NonEmpty(input, order)
    ensures forall k :: k in order ==> k in Digits(input, order, 0) && Digits(input, order, 0)[k] == 0
    decreases order
  {
    if order != [] {
      assert order[0] in order;
      DigitsOfZero(input, order[1..]);
      assert forall k :: k in order <==> k == order[0] || k in order[1..];
    }
  }

  /** Pass 1 counts in the first key of its order. */
  lemma DigitsOfOne(input: Lists, order: seq<string>, keys: set<string>)
    requires IsOrder(keys, order) && NonEmpty(input, order) && order != [] && |input[order[0]]| >= 2
    ensures forall k :: k in order ==> k in Digits(input, order, 1) && Digits(input, order, 1)[k] == if k == order[0] then 1 else 0
  {
    TailOrder(keys, order);
    DigitsOfZero(input, order[1..]);
    assert forall k :: k in order <==> k == order[0] || k in order[1..];
  }

  /** All passes range in one order, but pass 1 swaps the first two keys. */
  function SwapAtOne(a: string, b: string, rest: seq<string>, i: nat): seq<string> {
    if i == 1 then [b, a] + rest else [a, b] + rest
  }

  /** With two keys to choose from, a pass that ranges in another order than the others loses a choice. */
  lemma TwoMultiplesLoseAChoice(input: Lists, a: string, b: string, rest: seq<string>, i: nat)
    requires a != b && IsOrder(input.Keys, [a, b] + rest) && NonEmpty(input, [a, b] + rest)
    requires |input[a]| >= 2 && |input[b]| >= 2
    ensures IsOrder(input.Keys, SwapAtOne(a, b, rest, i)) && NonEmpty(input, SwapAtOne(a, b, rest, i))
    ensures var lost := Digits(input, [a, b] + rest, 1);
            IsChoice(input, lost) && (i < Product(input, [a, b] + rest) ==> Digits(input, SwapAtOne(a, b, rest, i), i) != lost)
  {
    SwapOrder(input.Keys, a, b, rest);
    DigitsInRange(input, [a, b] + rest, 1);
    if i == 1 {
      SwappedPassDiffers(input, a, b, rest);
    } else if i < Product(input, [a, b] + rest) {
      OtherPassDiffers(input, a, b, rest, i);
    }
  }

  lemma SwappedPassDiffers(input: Lists, a: string, b: string, rest: seq<string>)
    requires a != b && IsOrder(input.Keys, [a, b] + rest) && IsOrder(input.Keys, [b, a] + rest)
    requires NonEmpty(input, [a, b] + rest) && NonEmpty(input, [b, a] + rest) && |input[a]| >= 2 && |input[b]| >= 2
    ensures Digits(input, [b, a] + rest, 1) != Digits(input, [a, b] + rest, 1)
  {
    var o, o' := [a, b] + rest, [b, a] + rest;
    assert o[0] == a && o'[0] == b && a in o && a in o';
    DigitsOfOne(input, o, input.Keys);
    DigitsOfOne(input, o', input.Keys);
    assert Digits(input, o', 1)[a] == 0 && Digits(input, o, 1)[a] == 1;
  }

  lemma OtherPassDiffers(input: Lists, a: string, b: string, rest: seq<string>, i: nat)
    requires IsOrder(input.Keys, [a, b] + rest) && NonEmpty(input, [a, b] + rest) && |input[a]| >= 2
    requires i != 1 && i < Product(input, [a, b] + rest)
    ensures Digits(input, [a, b] + rest, i) != Digits(input, [a, b] + rest, 1)
  {
    OneIsInRange(input, a, b, rest);
    NumberOfDigits(input, [a, b] + rest, i, input.Keys);
    NumberOfDigits(input, [a, b] + rest, 1, input.Keys);
  }

  lemma OneIsInRange(input: Lists, a: string, b: string, rest: seq<string>)
    requires NonEmpty(input, [a, b] + rest) && |input[a]| >= 2
    ensures 1 < Product(input, [a, b] + rest)
  {
    var o := [a, b] + rest;
    assert o[0] == a && forall k :: k in o[1..] ==> k in o;
    ProductPositive(input, o[1..]);
    MulStep(|input[a]|, 0, Product(input, o[1..]));
  }

  lemma SwapOrder(keys: set<string>, a: string, b: string, rest: seq<string>)
    requires IsOrder(keys, [a, b] + rest)
    ensures IsOrder(keys, [b, a] + rest)
  {
    var o, o' := [a, b] + rest, [b, a] + rest;
    assert forall k :: k in o' <==> k in o;
    assert forall i :: 2 <= i < |o| ==> o'[i] == o[i];
    assert o[0] == a && o[1] == b && o'[0] == b && o'[1] == a;
  }

  lemma {:induction false} MoveToFront(keys: set<string>, order: seq<string>, k: string) returns (rest: seq<string>)
    requires IsOrder(keys, order) && k in keys
    ensures IsOrder(keys, [k] + rest)
  {
    assert k in order;
    var p :| 0 <= p < |order| && order[p] == k;
    rest := order[..p] + order[p + 1..];
    assert forall x :: x in order <==> x == k || x in rest;
    assert forall i :: 0 <= i < |rest| ==> rest[i] == if i < p then order[i] else order[i + 1];
  }

  /**
   The enumeration is complete whatever orders Go picks if and only if at most one key has several values;
   otherwise some family of orders loses a choice.
   */
  lemma CompleteForEveryOrderIff(input: Lists, order: seq<string>)
    requires IsOrder(input.Keys, order) && NonEmpty(input, order)
    ensures (forall orders: nat -> seq<string> :: AllOrders(input, orders) ==> Complete(input, Product(input, order), orders))
            <==> AtMostOneMultiple(input)
  {
    if AtMostOneMultiple(input) {
      forall orders: nat -> seq<string> | AllOrders(input, orders) ensures Complete(input, Product(input, order), orders) {
        SingleIsComplete(input, order, orders);
      }
    } else {
      var orders := LosingOrders(input, order);
    }
  }

  lemma LosingOrders(input: Lists, order: seq<string>) returns (orders: nat -> seq<string>)
    requires IsOrder(input.Keys, order) && NonEmpty(input, order) && !AtMostOneMultiple(input)
    ensures AllOrders(input, orders) && !Complete(input, Product(input, order), orders)
  {
    var a, b :| a in input && b in input && |input[a]| >= 2 && |input[b]| >= 2 && a != b;
    var rest := TwoInFront(input.Keys, order, a, b);
    ProductOrderFree(input, input.Keys, order, [a, b] + rest);
    orders := (i: nat) => SwapAtOne(a, b, rest, i);
    SwapLoses(input, a, b, rest, orders);
  }

  lemma SwapLoses(input: Lists, a: string, b: string, rest: seq<string>, orders: nat -> seq<string>)
    requires a != b && IsOrder(input.Keys, [a, b] + rest) && NonEmpty(input, [a, b] + rest)
    requires |input[a]| >= 2 && |input[b]| >= 2
    requires forall i: nat :: orders(i) == SwapAtOne(a, b, rest, i)
    ensures AllOrders(input, orders) && !Complete(input, Product(input, [a, b] + rest), orders)
  {
    var count, lost := Product(input, [a, b] + rest), Digits(input, [a, b] + rest, 1);
    TwoMultiplesLoseAChoice(input, a, b, rest, 0);
    forall i: nat
      ensures IsOrder(input.Keys, orders(i)) && NonEmpty(input, orders(i))
      ensures i < count ==> Digits(input, orders(i), i) != lost
    {
      TwoMultiplesLoseAChoice(input, a, b, rest, i);
    }
  }

  lemma TwoInFront(keys: set<string>, order: seq<string>, a: string, b: string) returns (rest: seq<string>)
    requires IsOrder(keys, order) && a in keys && b in keys && a != b
    ensures IsOrder(keys, [a, b] + rest)
  {
    var tail := MoveToFront(keys, order, a);
    var o := [a] + tail;
    assert tail == o[1..];
    TailOrder(keys, o);
    rest := MoveToFront(keys - {a}, tail, b);
    assert [a, b] + rest == [a] + ([b] + rest);
    PrependOrder(keys, a, [b] + rest);
  }

  lemma PrependOrder(keys: set<string>, k: string, tail: seq<string>)
    requires k in keys && IsOrder(keys - {k}, tail)
    ensures IsOrder(keys, [k] + tail)
  {
    var o := [k] + tail;
    assert forall x :: x in o <==> x == k || x in tail;
    assert forall i :: 1 <= i < |o| ==> o[i] == tail[i - 1];
  }

  ghost predicate DistinctValues(input: Lists) {
    forall k, i, j :: k in input && 0 <= i < j < |input[k]| ==> input[k][i] != input[k][j]
  }

  /** The loss is visible: where lists have no repeated value, no pass outputs the lost choice's label map. */
  lemma LostLabelMap(input: Lists, a: string, b: string, rest: seq<string>, i: nat, m: LabelMap)
    requires a != b && IsOrder(input.Keys, [a, b] + rest) && NonEmpty(input, [a, b] + rest) && DistinctValues(input)
    requires |input[a]| >= 2 && |input[b]| >= 2 && i < Product(input, [a, b] + rest)
    requires PassOutput(input, SwapAtOne(a, b, rest, i), i, m)
    ensures var lost := Digits(input, [a, b] + rest, 1);
            IsChoice(input, lost) && m != Values(input, lost)
  {
    TwoMultiplesLoseAChoice(input, a, b, rest, i);
    var order := SwapAtOne(a, b, rest, i);
    OutputIsChoice(input, order, i, m);
    ValuesInjective(input, Digits(input, order, i), Digits(input, [a, b] + rest, 1));
  }

  lemma ValuesInjective(input: Lists, c: Choice, d: Choice)
    requires DistinctValues(input) && IsChoice(input, c) && IsChoice(input, d) && c != d
    ensures Values(input, c) != Values(input, d)
  {
    var k :| k in c && c[k] != d[k];
    assert Values(input, c)[k] != Values(input, d)[k];
  }

  // ---------- checkAnnotations ----------

  datatype Selector = Selector(empty: bool, matches: LabelMap -> bool)
  datatype Verdict = Passed | Unmatched | RuleError

  /** A signature payload's optional annotations; None is a nil value. */
  type Payload = map<string, Option<string>>

  /** The non-nil values a key has across the payloads, in order. */
  function ListOf(payloads: seq<Payload>, k: string): seq<string> {
    if payloads == [] then [] else
      var last := payloads[|payloads| - 1];
      ListOf(payloads[..|payloads| - 1], k) + (if k in last && last[k].Some? then [last[k].value] else [])
  }

  ghost predicate Collects(kv: Lists, payloads: seq<Payload>) {
    forall k :: (k in kv <==> ListOf(payloads, k) != []) && (k in kv ==> kv[k] == ListOf(payloads, k))
  }

  method CollectLists(payloads: seq<Payload>) returns (kv: Lists)
    ensures Collects(kv, payloads)
  {
    kv := map[];
    for i := 0 to |payloads|
      invariant Collects(kv, payloads[..i])
    {
      var p := payloads[i];
      ghost var was := kv;
      var todo := p.Keys;
      while todo != {}
        invariant todo <= p.Keys
        invariant forall k :: k !in p.Keys - todo ==> (k in kv <==> k in was) && (k in kv ==> kv[k] == was[k])
        invariant forall k :: k in p.Keys - todo ==>
                    (k in kv <==> k in was || p[k].Some?) &&
                    (k in kv ==> kv[k] == (if k in was then was[k] else []) + (if p[k].Some? then [p[k].value] else []))
      {
        var k :| k in todo;
        todo := todo - {k};
        if p[k].Some? {
          kv := kv[k := (if k in kv then kv[k] else []) + [p[k].value]];
        }
      }
      assert payloads[..i + 1][..i] == payloads[..i];
    }
    assert payloads[..|payloads|] == payloads;
  }

  /** A payload gives the key this value. */
  predicate Gives(p: Payload, k: string, v: string) { k in p && p[k] == Some(v) }

  lemma {:induction false} ListMeans(payloads: seq<Payload>, k: string)
    ensures forall v :: v in ListOf(payloads, k) <==> exists i :: 0 <= i < |payloads| && Gives(payloads[i], k, v)
  {
    if payloads != [] {
      var front, last := payloads[..|payloads| - 1], payloads[|payloads| - 1];
      ListMeans(front, k);
      forall v ensures v in ListOf(payloads, k) <==> exists i :: 0 <= i < |payloads| && Gives(payloads[i], k, v) {
        if i :| 0 <= i < |payloads| && Gives(payloads[i], k, v) {
          if i < |front| { assert Gives(front[i], k, v); }
        }
        if v in ListOf(front, k) {
          var i :| 0 <= i < |front| && Gives(front[i], k, v);
          assert Gives(payloads[i], k, v);
        }
      }
    }
  }

  /** The label map gives every key that has a value in some payload one of the values it has there, and no other key. */
  ghost predicate PicksFrom(payloads: seq<Payload>, m: LabelMap) {
    && (forall k :: k in m ==> exists i :: 0 <= i < |payloads| && Gives(payloads[i], k, m[k]))
    && (forall k, v, i :: 0 <= i < |payloads| && Gives(payloads[i], k, v) ==> k in m)
  }

  ghost predicate SomePickMatches(payloads: seq<Payload>, sel: Selector) { exists m :: PicksFrom(payloads, m) && sel.matches(m) }

  /** Choosing a position in every collected list is picking a value of some payload for every key. */
  lemma ChoicesArePicks(payloads: seq<Payload>, kv: Lists, sel: Selector)
    requires Collects(kv, payloads)
    ensures SomeChoiceMatches(kv, sel) <==> SomePickMatches(payloads, sel)
  {
    if SomeChoiceMatches(kv, sel) {
      var c :| IsChoice(kv, c) && sel.matches(Values(kv, c));
      ChoiceIsPick(payloads, kv, c);
    }
    if SomePickMatches(payloads, sel) {
      var m :| PicksFrom(payloads, m) && sel.matches(m);
      var c := PickIsChoice(payloads, kv, m);
    }
  }

  lemma ChoiceIsPick(payloads: seq<Payload>, kv: Lists, c: Choice)
    requires Collects(kv, payloads) && IsChoice(kv, c)
    ensures PicksFrom(payloads, Values(kv, c))
  {
    var m := Values(kv, c);
    forall k | k in m ensures exists i :: 0 <= i < |payloads| && Gives(payloads[i], k, m[k]) {
      ListMeans(payloads, k);
      assert m[k] in kv[k];
    }
    forall k, v, i | 0 <= i < |payloads| && Gives(payloads[i], k, v) ensures k in m {
      ListMeans(payloads, k);
      assert v in ListOf(payloads, k);
    }
  }

  lemma PickIsChoice(payloads: seq<Payload>, kv: Lists, m: LabelMap) returns (c: Choice)
    requires Collects(kv, payloads) && PicksFrom(payloads, m)
    ensures IsChoice(kv, c) && Values(kv, c) == m
  {
    forall k ensures (k in m <==> k in kv) && (k in m ==> m[k] in kv[k]) {
      PickedKey(payloads, kv, m, k);
    }
    c := ChoiceOf(kv, m);
  }

  lemma ChoiceOf(kv: Lists, m: LabelMap) returns (c: Choice)
    requires forall k :: (k in m <==> k in kv) && (k in m ==> m[k] in kv[k])
    ensures IsChoice(kv, c) && Values(kv, c) == m
  {
    c := map k | k in m :: Position(kv[k], m[k]);
    assert c.Keys == m.Keys == kv.Keys;
  }

  lemma PickedKey(payloads: seq<Payload>, kv: Lists, m: LabelMap, k: string)
    requires Collects(kv, payloads) && PicksFrom(payloads, m)
    ensures (k in m <==> k in kv) && (k in m ==> m[k] in kv[k])
  {
    ListMeans(payloads, k);
    if k in m {
      assert m[k] in ListOf(payloads, k);
    }
    if k in kv {
      assert kv[k][0] in ListOf(payloads, k);
    }
  }

  function Position(list: seq<string>, v: string): (i: nat)
    requires v in list
    ensures i < |list| && list[i] == v
  {
    if list[0] == v then 0 else 1 + Position(list[1..], v)
  }

  /** Some choice of one value per key satisfies the selector. */
  ghost predicate SomeChoiceMatches(kv: Lists, sel: Selector) {
    exists c :: IsChoice(kv, c) && sel.matches(Values(kv, c))
  }

  /**
   Passing is always justified by a choice; and with one order common to all passes, or whatever the orders
   where at most one key has several values, every satisfiable selector passes.
   */
  method CheckAnnotations(payloads: seq<Payload>, rule: Option<Selector>, counting: set<string> -> seq<string>,
                          orders: (nat, set<string>) -> seq<string>)
    returns (r: Verdict, kv: Lists)
    requires forall keys :: IsOrder(keys, counting(keys))
    requires forall i: nat, keys :: IsOrder(keys, orders(i, keys))
    ensures Collects(kv, payloads)
    ensures r.RuleError? <==> rule.None?
    ensures r.Passed? ==> rule.Some? && (rule.value.empty || SomeChoiceMatches(kv, rule.value))
    ensures r.Passed? ==> rule.value.empty || SomePickMatches(payloads, rule.value)
    ensures rule.Some? && ((forall i: nat :: orders(i, kv.Keys) == counting(kv.Keys)) || AtMostOneMultiple(kv)) ==>
              (r.Passed? <==> rule.value.empty || SomePickMatches(payloads, rule.value))
  {
    kv := CollectLists(payloads);
    if rule.None? {
      return RuleError, kv;
    }
    var sel := rule.value;
    ChoicesArePicks(payloads, kv, sel);
    if sel.empty {
      return Passed, kv;
    }
    var ok := MatchVariations(kv, sel, counting(kv.Keys), (i: nat) => orders(i, kv.Keys));
    r := if ok then Passed else Unmatched;
  }

  /** Some pass outputs a label map that satisfies the selector. */
  ghost predicate SomeOutputMatches(kv: Lists, count: nat, orders: nat -> seq<string>, sel: Selector) {
    exists i: nat, m :: i < count && PassOutput(kv, orders(i), i, m) && sel.matches(m)
  }

  method MatchVariations(kv: Lists, sel: Selector, counting: seq<string>, orders: nat -> seq<string>) returns (ok: bool)
    requires IsOrder(kv.Keys, counting) && forall i: nat :: IsOrder(kv.Keys, orders(i))
    ensures ok <==> SomeOutputMatches(kv, Product(kv, counting), orders, sel)
    ensures ok ==> SomeChoiceMatches(kv, sel)
    ensures (forall i: nat :: orders(i) == counting) || AtMostOneMultiple(kv) ==> (ok <==> SomeChoiceMatches(kv, sel))
  {
    var maps := GenerateVariations(kv, counting, orders);
    OutputsDecide(kv, counting, orders, maps, sel);
    ok := AnyMatches(maps, sel);
  }

  method AnyMatches(maps: seq<LabelMap>, sel: Selector) returns (ok: bool)
    ensures ok <==> exists i :: 0 <= i < |maps| && sel.matches(maps[i])
  {
    for i := 0 to |maps|
      invariant forall x :: 0 <= x < i ==> !sel.matches(maps[x])
    {
      if sel.matches(maps[i]) {
        return true;
      }
    }
    return false;
  }

  /** What it means that one of the generated label maps satisfies the selector. */
  lemma OutputsDecide(input: Lists, order: seq<string>, orders: nat -> seq<string>, maps: seq<LabelMap>, sel: Selector)
    requires IsOrder(input.Keys, order) && (forall i: nat :: IsOrder(input.Keys, orders(i))) && |maps| == Product(input, order)
    requires forall i :: 0 <= i < |maps| ==> PassOutput(input, orders(i), i, maps[i])
    ensures (exists i :: 0 <= i < |maps| && sel.matches(maps[i])) <==> SomeOutputMatches(input, Product(input, order), orders, sel)
    ensures SomeOutputMatches(input, Product(input, order), orders, sel) ==> SomeChoiceMatches(input, sel)
    ensures (forall i: nat :: orders(i) == order) || AtMostOneMultiple(input) ==>
              (SomeOutputMatches(input, Product(input, order), orders, sel) <==> SomeChoiceMatches(input, sel))
  {
    forall i: nat, m | i < |maps| && PassOutput(input, orders(i), i, m) ensures m == maps[i] {
      OutputIsChoice(input, orders(i), i, m);
      OutputIsChoice(input, orders(i), i, maps[i]);
    }
    OutputsAreChoices(input, Product(input, order), orders, sel);
    if (forall i: nat :: orders(i) == order) || AtMostOneMultiple(input) {
      VerdictRight(input, order, orders, sel);
    }
  }

  lemma OutputsAreChoices(input: Lists, count: nat, orders: nat -> seq<string>, sel: Selector)
    requires forall i: nat :: IsOrder(input.Keys, orders(i))
    ensures SomeOutputMatches(input, count, orders, sel) ==> SomeChoiceMatches(input, sel)
  {
    if SomeOutputMatches(input, count, orders, sel) {
      var i: nat, m :| i < count && PassOutput(input, orders(i), i, m) && sel.matches(m);
      OutputIsChoice(input, orders(i), i, m);
    }
  }

  /** With one order, or one key to choose from, the outputs satisfy a selector exactly when some choice does. */
  lemma VerdictRight(input: Lists, order: seq<string>, orders: nat -> seq<string>, sel: Selector)
    requires IsOrder(input.Keys, order) && forall i: nat :: IsOrder(input.Keys, orders(i))
    requires (forall i: nat :: orders(i) == order) || AtMostOneMultiple(input)
    ensures SomeOutputMatches(input, Product(input, order), orders, sel) <==> SomeChoiceMatches(input, sel)
  {
    OutputsAreChoices(input, Product(input, order), orders, sel);
    if SomeChoiceMatches(input, sel) {
      var c :| IsChoice(input, c) && sel.matches(Values(input, c));
      var i := ChoiceIsOutput(input, order, orders, c);
      assert PassOutput(input, orders(i), i, Values(input, c));
    }
  }

  /** The pass that outputs a given choice. */
  lemma ChoiceIsOutput(input: Lists, order: seq<string>, orders: nat -> seq<string>, c: Choice) returns (i: nat)
    requires IsOrder(input.Keys, order) && (forall i: nat :: IsOrder(input.Keys, orders(i))) && IsChoice(input, c)
    requires (forall i: nat :: orders(i) == order) || AtMostOneMultiple(input)
    ensures i < Product(input, order) && PassOutput(input, orders(i), i, Values(input, c))
  {
    assert forall k :: k in input ==> k in c && c[k] < |input[k]|;
    EachChoiceOnce(input, order, c);
    i := Number(input, order, c);
    if AtMostOneMultiple(input) {
      SingleIsComplete(input, order, orders);
      i :| i < Product(input, order) && Digits(input, orders(i), i) == c;
    }
  }

  /** Whatever orders the passes range in, the outputs satisfy a selector exactly when some choice does. */
  ghost predicate VerdictForEveryOrder(input: Lists, count: nat) {
    forall orders: nat -> seq<string>, sel :: AllOrders(input, orders) ==>
      (SomeOutputMatches(input, count, orders, sel) <==> SomeChoiceMatches(input, sel))
  }

  /** Where no list repeats a value, the verdict is right for every order and selector exactly when at most one key has several values. */
  lemma VerdictForEveryOrderIff(input: Lists, order: seq<string>)
    requires IsOrder(input.Keys, order) && NonEmpty(input, order) && DistinctValues(input)
    ensures VerdictForEveryOrder(input, Product(input, order)) <==> AtMostOneMultiple(input)
  {
    if AtMostOneMultiple(input) {
      forall orders: nat -> seq<string>, sel | AllOrders(input, orders)
        ensures SomeOutputMatches(input, Product(input, order), orders, sel) <==> SomeChoiceMatches(input, sel)
      {
        VerdictRight(input, order, orders, sel);
      }
    } else {
      var orders, sel := LosingVerdict(input, order);
    }
  }

  lemma LosingVerdict(input: Lists, order: seq<string>) returns (orders: nat -> seq<string>, sel: Selector)
    requires IsOrder(input.Keys, order) && NonEmpty(input, order) && DistinctValues(input) && !AtMostOneMultiple(input)
    ensures AllOrders(input, orders) && SomeChoiceMatches(input, sel)
    ensures !SomeOutputMatches(input, Product(input, order), orders, sel)
  {
    orders := LosingOrders(input, order);
    var lost :| IsChoice(input, lost) && forall i: nat :: i < Product(input, order) ==> Digits(input, orders(i), i) != lost;
    var labels := Values(input, lost);
    sel := Selector(false, (m: LabelMap) => m == labels);
    forall i: nat, m | i < Product(input, order) && PassOutput(input, orders(i), i, m) ensures m != labels {
      OutputIsChoice(input, orders(i), i, m);
      ValuesInjective(input, Digits(input, orders(i), i), lost);
    }
  }

  lemma OutputIsChoice(input: Lists, order: seq<string>, i: nat, m: LabelMap)
    requires IsOrder(input.Keys, order) && PassOutput(input, order, i, m)
    ensures IsChoice(input, Digits(input, order, i)) && m == Values(input, Digits(input, order, i))
  {
    DigitsInRange(input, order, i);
  }
}
