/** The few operations of Go's `strings` and `strconv` packages that the modelled code relies on. */
module GoStrings {

  /** `strings.Index` for a one-character needle: the leftmost position, or -1. */
  function IndexOf(s: string, c: char): (i: int)
    ensures -1 <= i < |s|
    ensures i == -1 <==> c !in s
    ensures 0 <= i ==> s[i] == c && forall k :: 0 <= k < i ==> s[k] != c
  {
    if s == [] then -1
    else if s[0] == c then 0
    else
      var j := IndexOf(s[1..], c);
      assert s == [s[0]] + s[1..];
      if j < 0 then -1 else j + 1
  }

  /** `strings.LastIndex` for a one-character needle: the rightmost position, or -1. */
  function LastIndexOf(s: string, c: char): (i: int)
    ensures -1 <= i < |s|
    ensures i == -1 <==> c !in s
    ensures 0 <= i ==> s[i] == c && forall k :: i < k < |s| ==> s[k] != c
  {
    if s == [] then -1
    else if s[|s| - 1] == c then |s| - 1
    else
      var front := s[..|s| - 1];
      assert s == front + [s[|s| - 1]];
      LastIndexOf(front, c)
  }

  predicate HasPrefix(s: string, prefix: string) {
    |prefix| <= |s| && s[..|prefix|] == prefix
  }

  function TrimSuffix(s: string, suffix: string): string {
    if |suffix| <= |s| && s[|s| - |suffix|..] == suffix then s[..|s| - |suffix|] else s
  }

  /** `strings.Split` on a one-character separator; the result is never empty. */
  function Split(s: string, sep: char): (parts: seq<string>)
    ensures |parts| >= 1
    ensures forall p :: p in parts ==> sep !in p
    ensures |parts| == 1 <==> sep !in s
    ensures Join(parts, sep) == s
    decreases |s|
  {
    var i := IndexOf(s, sep);
    if i < 0 then [s] else
      var tail := Split(s[i + 1..], sep);
      SplitAt(s, i, tail, sep);
      [s[..i]] + tail
  }

  lemma SplitAt(s: string, i: nat, tail: seq<string>, sep: char)
    requires i < |s| && s[i] == sep && |tail| >= 1 && Join(tail, sep) == s[i + 1..]
    ensures Join([s[..i]] + tail, sep) == s
  {
    assert ([s[..i]] + tail)[1..] == tail;
    assert s == s[..i] + [sep] + s[i + 1..];
  }

  function Join(parts: seq<string>, sep: char): (s: string)
    requires |parts| >= 1
  {
    if |parts| == 1 then parts[0] else parts[0] + [sep] + Join(parts[1..], sep)
  }

  /** A text joined from separator-free parts splits back into exactly those parts. */
  lemma {:induction false} SplitJoin(parts: seq<string>, sep: char)
    requires |parts| >= 1
    requires forall p :: p in parts ==> sep !in p
    ensures Split(Join(parts, sep), sep) == parts
  {
    if |parts| == 1 {
      assert parts[0] in parts && parts == [parts[0]];
    } else {
      SplitJoin(parts[1..], sep);
      assert parts[0] in parts;
      SplitFirst(parts[0], sep, Join(parts[1..], sep));
      assert parts == [parts[0]] + parts[1..];
    }
  }

  lemma SplitFirst(head: string, sep: char, tail: string)
    requires sep !in head
    ensures Split(head + [sep] + tail, sep) == [head] + Split(tail, sep)
  {
    FirstSeparator(head, sep, tail);
  }

  lemma FirstSeparator(head: string, sep: char, tail: string)
    requires sep !in head
    ensures var s := head + [sep] + tail;
            IndexOf(s, sep) == |head| && s[..|head|] == head && s[|head| + 1..] == tail
  {
    var s := head + [sep] + tail;
    assert s[|head|] == sep;
    forall j | 0 <= j < |head| ensures s[j] != sep {
      assert s[j] == head[j];
    }
  }

  /** The last part of a split is what follows the last separator. */
  lemma {:induction false} SplitLast(head: string, sep: char, tail: string)
    requires sep !in tail
    ensures var parts := Split(head + [sep] + tail, sep);
            |parts| > 1 && parts[|parts| - 1] == tail
    decreases |head|
  {
    var i := IndexOf(head, sep);
    if i < 0 {
      SplitFirst(head, sep, tail);
      SplitWhole(tail, sep);
    } else {
      var rest := head[i + 1..];
      SplitLast(rest, sep, tail);
      CutAt(head, i, sep, tail);
      SplitFirst(head[..i], sep, rest + [sep] + tail);
    }
  }

  lemma SplitWhole(s: string, sep: char)
    requires sep !in s
    ensures Split(s, sep) == [s]
  {
  }

  lemma CutAt(head: string, i: nat, sep: char, tail: string)
    requires i < |head| && head[i] == sep
    ensures head + [sep] + tail == head[..i] + [sep] + (head[i + 1..] + [sep] + tail)
  {
    assert head == head[..i] + [sep] + head[i + 1..];
  }

  lemma TrimAppended(s: string, suffix: string)
    ensures TrimSuffix(s + suffix, suffix) == s
  {
    assert (s + suffix)[|s|..] == suffix && (s + suffix)[..|s|] == s;
  }

  /** Go's `<` on strings: byte-wise lexicographic, a proper prefix being smaller. */
  predicate Less(a: string, b: string) {
    b != [] && (a == [] || a[0] < b[0] || (a[0] == b[0] && Less(a[1..], b[1..])))
  }

  lemma {:induction false} LessTransitive(a: string, b: string, c: string)
    requires Less(a, b) && Less(b, c)
    ensures Less(a, c)
  {
    if a != [] && a[0] == b[0] == c[0] {
      LessTransitive(a[1..], b[1..], c[1..]);
    }
  }

  lemma {:induction false} LessTrichotomy(a: string, b: string)
    ensures Less(a, b) || a == b || Less(b, a)
    ensures !(Less(a, b) && Less(b, a))
    ensures !Less(a, a)
  {
    if a != [] {
      LessTrichotomy(a[1..], a[1..]);
      if b != [] {
        LessTrichotomy(a[1..], b[1..]);
        assert a == [a[0]] + a[1..] && b == [b[0]] + b[1..];
      }
    }
  }

  /** The texts agree up to `i`; there `a` has the greater character, or goes on where `b` ends. */
  predicate LargerFrom(a: string, b: string, i: int) {
    0 <= i < |a| && i <= |b| && (forall j :: 0 <= j < i ==> a[j] == b[j]) && (i < |b| ==> b[i] < a[i])
  }

  ghost predicate LargerText(a: string, b: string) { exists i :: LargerFrom(a, b, i) }

  lemma {:induction false} LessMeans(a: string, b: string)
    ensures Less(a, b) <==> LargerText(b, a)
  {
    if b != [] && (a == [] || a[0] < b[0]) {
      assert LargerFrom(b, a, 0);
    } else if a != [] && b != [] && a[0] == b[0] {
      LessMeans(a[1..], b[1..]);
      if i :| LargerFrom(b[1..], a[1..], i) {
        LargerShift(b, a, i + 1);
      }
      if i :| LargerFrom(b, a, i) {
        LargerShift(b, a, i);
      }
    }
  }

  lemma LargerShift(a: string, b: string, i: int)
    requires a != [] && b != [] && a[0] == b[0]
    ensures LargerFrom(a, b, i) <==> LargerFrom(a[1..], b[1..], i - 1)
  {
    if LargerFrom(a[1..], b[1..], i - 1) {
      forall j | 0 <= j < i ensures a[j] == b[j] {
        if j > 0 { assert a[1..][j - 1] == b[1..][j - 1]; }
      }
    }
    if LargerFrom(a, b, i) {
      assert i > 0;
    }
  }

  predicate IsDigit(c: char) { '0' <= c <= '9' }

  predicate AllDigits(s: string) { forall c :: c in s ==> IsDigit(c) }

  function DigitsValue(s: string): nat
    requires AllDigits(s)
  {
    if s == [] then 0 else
      var last := s[|s| - 1];
      assert IsDigit(last);
      10 * DigitsValue(s[..|s| - 1]) + (last as int - '0' as int)
  }

  /** Decimal rendering of a natural number, as `%v` prints it. */
  function Decimal(n: nat): (s: string)
    ensures |s| >= 1 && AllDigits(s)
  {
    var last := [('0' as int + n % 10) as char];
    if n < 10 then last else Decimal(n / 10) + last
  }

  /** Rendering in decimal loses nothing, so distinct numbers print differently. */
  lemma {:induction false} DecimalRoundTrip(n: nat)
    ensures DigitsValue(Decimal(n)) == n
  {
    var s := Decimal(n);
    if n < 10 {
      assert s[..|s| - 1] == [];
    } else {
      assert s[..|s| - 1] == Decimal(n / 10);
      DecimalRoundTrip(n / 10);
    }
  }

  datatype Option<+T> = None | Some(value: T)

  const MAX_INT := 0x7FFF_FFFF_FFFF_FFFF

  /** `strconv.Atoi` on a 64-bit platform: optional sign, digits only, range checked. */
  function Atoi(s: string): (r: Option<int>)
    ensures r.Some? ==> -MAX_INT - 1 <= r.value <= MAX_INT
  {
    var negative := s != [] && s[0] == '-';
    var digits := if s != [] && (s[0] == '-' || s[0] == '+') then s[1..] else s;
    if digits == [] || !AllDigits(digits) then None
    else
      var v: int := if negative then 0 - DigitsValue(digits) else DigitsValue(digits);
      if -MAX_INT - 1 <= v <= MAX_INT then Some(v) else None
  }

  /** What `Atoi` reads off a printed number, with or without a sign. */
  lemma AtoiOfDecimal(n: nat)
    ensures Atoi(Decimal(n)) == Atoi("+" + Decimal(n)) == if n <= MAX_INT then Some(n) else None
    ensures Atoi("-" + Decimal(n)) == if n <= MAX_INT + 1 then Some(0 - n) else None
  {
    DecimalRoundTrip(n);
    AtoiUnsigned(Decimal(n));
    AtoiSigned(Decimal(n));
  }

  lemma AtoiUnsigned(s: string)
    requires s != [] && AllDigits(s)
    ensures Atoi(s) == if DigitsValue(s) <= MAX_INT then Some(DigitsValue(s)) else None
  {
    assert IsDigit(s[0]);
  }

  lemma AtoiSigned(s: string)
    requires s != [] && AllDigits(s)
    ensures Atoi("+" + s) == if DigitsValue(s) <= MAX_INT then Some(DigitsValue(s)) else None
    ensures Atoi("-" + s) == if DigitsValue(s) <= MAX_INT + 1 then Some(0 - DigitsValue(s)) else None
  {
    assert ("+" + s)[1..] == s && ("-" + s)[1..] == s;
  }

  /** Leading zeros do not count. */
  lemma AtoiLeadingZero(s: string)
    requires s != [] && AllDigits(s)
    ensures Atoi("0" + s) == Atoi(s)
  {
    ZeroInFront(s);
    AtoiUnsigned(s);
    AtoiUnsigned("0" + s);
  }

  lemma {:induction false} ZeroInFront(s: string)
    requires AllDigits(s)
    ensures AllDigits("0" + s) && DigitsValue("0" + s) == DigitsValue(s)
  {
    var t := "0" + s;
    if s == [] {
      assert t[..0] == [];
    } else {
      ZeroInFront(s[..|s| - 1]);
      assert t[..|t| - 1] == "0" + s[..|s| - 1];
    }
  }
}
