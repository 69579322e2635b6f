/**
 Compilation of an image pattern (`#`, `*`, `**`) into a regular-expression text and the ordered list of
 its named groups, as pkg/imagepattern/pattern.go does it by repeated textual rewriting.  The reference is
 a single left-to-right tokenisation.
 */
module ImagePattern {
  import opened GoStrings

  datatype GroupKind = Alpha | Numeric
  datatype Group = Group(kind: GroupKind, name: string)
  datatype Token = Literal(c: char) | Wildcard | AlphaMark | NumericMark

  const WILDCARD_REGEX := "([0-9A-Za-z_./:-]{0,})"

  function GroupName(index: nat): string { "m" + Decimal(index) }

  function GroupRegex(kind: GroupKind, index: nat): string {
    "(?P<" + GroupName(index) + (if kind.Alpha? then ">[0-9A-Za-z_.-]+)" else ">\\d+)")
  }

  // ---------- Reference: one left-to-right pass ----------

  function TokenOf(c: char): Token { if c == '*' then AlphaMark else if c == '#' then NumericMark else Literal(c) }

  /** Splits a pattern into tokens, taking `**` before `*`. */
  function Tokenise(s: string): seq<Token> {
    if s == [] then []
    else if |s| >= 2 && s[0] == '*' && s[1] == '*' then [Wildcard] + Tokenise(s[2..])
    else [TokenOf(s[0])] + Tokenise(s[1..])
  }

  predicate IsGroup(t: Token) { t.AlphaMark? || t.NumericMark? }

  function KindOf(t: Token): GroupKind { if t.AlphaMark? then Alpha else Numeric }

  /** The regular expression of a token list whose first group carries number `index`. */
  function Render(tokens: seq<Token>, index: nat): string {
    if tokens == [] then []
    else if tokens[0].Literal? then [tokens[0].c] + Render(tokens[1..], index)
    else if tokens[0].Wildcard? then WILDCARD_REGEX + Render(tokens[1..], index)
    else GroupRegex(KindOf(tokens[0]), index) + Render(tokens[1..], index + 1)
  }

  function GroupsOf(tokens: seq<Token>, index: nat): seq<Group> {
    if tokens == [] then []
    else if IsGroup(tokens[0]) then [Group(KindOf(tokens[0]), GroupName(index))] + GroupsOf(tokens[1..], index + 1)
    else GroupsOf(tokens[1..], index)
  }

  function SourceOf(t: Token): string {
    match t
    case Literal(c) => [c]
    case Wildcard => "**"
    case AlphaMark => "*"
    case NumericMark => "#"
  }

  /** The pattern text a token list stands for. */
  function Source(tokens: seq<Token>): string {
    if tokens == [] then [] else SourceOf(tokens[0]) + Source(tokens[1..])
  }

  /** Greedy token lists: literals are ordinary characters and no `*` token is followed by another star. */
  ghost predicate Greedy(tokens: seq<Token>) {
    && (forall i :: 0 <= i < |tokens| && tokens[i].Literal? ==> tokens[i].c != '*' && tokens[i].c != '#')
    && (forall i :: 0 <= i < |tokens| - 1 && tokens[i].AlphaMark? ==> !tokens[i + 1].AlphaMark? && !tokens[i + 1].Wildcard?)
  }

  /** The tokenisation is the one and only greedy reading of the pattern. */
  lemma {:induction false} TokeniseIsTheGreedyReading(s: string, tokens: seq<Token>)
    ensures Tokenise(s) == tokens <==> Source(tokens) == s && Greedy(tokens)
  {
    TokeniseSound(s);
    if Source(tokens) == s && Greedy(tokens) {
      TokeniseUnique(tokens);
    }
  }

  lemma {:induction false} TokeniseSound(s: string)
    ensures Source(Tokenise(s)) == s && Greedy(Tokenise(s))
    decreases |s|
  {
    if s != [] {
      var t, rest := FirstToken(s);
      TokeniseSound(rest);
      SourceCons(t, Tokenise(rest));
      TokeniseHead(rest);
      GreedyCons(t, Tokenise(rest));
    }
  }

  /** The first token, the text it stands for, and what is left. */
  lemma FirstToken(s: string) returns (t: Token, rest: string)
    requires s != []
    ensures |rest| < |s| && Tokenise(s) == [t] + Tokenise(rest) && s == SourceOf(t) + rest
    ensures t.Literal? ==> t.c != '*' && t.c != '#'
    ensures t.AlphaMark? ==> rest == [] || rest[0] != '*'
  {
    if |s| >= 2 && s[0] == '*' && s[1] == '*' {
      t, rest := Wildcard, s[2..];
      assert s == "**" + rest;
    } else {
      t, rest := TokenOf(s[0]), s[1..];
      assert s == [s[0]] + rest;
    }
  }

  lemma SourceCons(t: Token, rest: seq<Token>)
    ensures Source([t] + rest) == SourceOf(t) + Source(rest)
  {
    assert ([t] + rest)[1..] == rest;
  }

  /** Only a star gives a star token. */
  lemma TokeniseHead(s: string)
    ensures Tokenise(s) != [] && (Tokenise(s)[0].AlphaMark? || Tokenise(s)[0].Wildcard?) ==> s != [] && s[0] == '*'
  {
  }

  lemma GreedyCons(t: Token, rest: seq<Token>)
    requires Greedy(rest) && (t.Literal? ==> t.c != '*' && t.c != '#')
    requires t.AlphaMark? && rest != [] ==> !rest[0].AlphaMark? && !rest[0].Wildcard?
    ensures Greedy([t] + rest)
  {
    var all := [t] + rest;
    assert forall i :: 1 <= i < |all| ==> all[i] == rest[i - 1];
  }

  lemma {:induction false} TokeniseUnique(tokens: seq<Token>)
    requires Greedy(tokens)
    ensures Tokenise(Source(tokens)) == tokens
  {
    if tokens != [] {
      var rest := tokens[1..];
      assert Greedy(rest) by {
        assert forall i :: 0 <= i < |rest| ==> rest[i] == tokens[i + 1];
      }
      TokeniseUnique(rest);
      SourceHead(rest);
      TokeniseCons(tokens[0], Source(rest));
      assert tokens == [tokens[0]] + rest;
    }
  }

  lemma SourceHead(tokens: seq<Token>)
    requires Greedy(tokens)
    ensures Source(tokens) != [] && Source(tokens)[0] == '*' ==> tokens != [] && (tokens[0].AlphaMark? || tokens[0].Wildcard?)
  {
  }

  lemma TokeniseCons(t: Token, s: string)
    requires t.Literal? ==> t.c != '*' && t.c != '#'
    requires t.AlphaMark? ==> s == [] || s[0] != '*'
    ensures Tokenise(SourceOf(t) + s) == [t] + Tokenise(s)
  {
    var all := SourceOf(t) + s;
    assert all[|SourceOf(t)|..] == s;
  }

  /** Groups are numbered m0, m1, ... from left to right, so their names are pairwise distinct. */
  lemma {:induction false} GroupNamesDistinct(tokens: seq<Token>)
    ensures forall i, j :: 0 <= i < j < |GroupsOf(tokens, 0)| ==> GroupsOf(tokens, 0)[i].name != GroupsOf(tokens, 0)[j].name
  {
    GroupsNumbered(tokens, 0);
    var g := GroupsOf(tokens, 0);
    forall i, j | 0 <= i < j < |g| ensures g[i].name != g[j].name {
      DecimalRoundTrip(i);
      DecimalRoundTrip(j);
      assert g[i].name[1..] == Decimal(i) && g[j].name[1..] == Decimal(j);
    }
  }

  lemma {:induction false} GroupsNumbered(tokens: seq<Token>, index: nat)
    ensures forall i :: 0 <= i < |GroupsOf(tokens, index)| ==> GroupsOf(tokens, index)[i].name == GroupName(index + i)
  {
    if tokens != [] {
      GroupsNumbered(tokens[1..], if IsGroup(tokens[0]) then index + 1 else index);
    }
  }

  // ---------- The rewriting loop ----------

  /** `strings.ReplaceAll(s, "**", WILDCARD_REGEX)`. */
  function ReplaceDoubleStars(s: string): string {
    if s == [] then []
    else if |s| >= 2 && s[0] == '*' && s[1] == '*' then WILDCARD_REGEX + ReplaceDoubleStars(s[2..])
    else [s[0]] + ReplaceDoubleStars(s[1..])
  }

  /** `strings.Replace(s, c, replacement, 1)`. */
  function ReplaceFirst(s: string, c: char, replacement: string): string {
    var i := IndexOf(s, c);
    if i < 0 then s else s[..i] + replacement + s[i + 1..]
  }

  predicate IsMark(c: char) { c == '*' || c == '#' }

  predicate Plain(s: string) { forall c :: c in s ==> !IsMark(c) }

  function CountMarks(s: string): nat {
    if s == [] then 0 else (if IsMark(s[0]) then 1 else 0) + CountMarks(s[1..])
  }

  /** What is left for the loop to do on a text: every mark is one group, everything else is copied. */
  function Marks(s: string): seq<Token> {
    if s == [] then []
    else [TokenOf(s[0])] + Marks(s[1..])
  }

  /** The loop's choice: `*` when it stands before every `#`. */
  function NextKind(text: string): GroupKind {
    if '*' in text && ('#' !in text || IndexOf(text, '*') < IndexOf(text, '#')) then Alpha else Numeric
  }

  function MarkOf(kind: GroupKind): char { if kind.Alpha? then '*' else '#' }

  method NewMatcher(pattern: string) returns (regex: string, groups: seq<Group>)
    ensures regex == "^" + Render(Tokenise(pattern), 0) + "$"
    ensures groups == GroupsOf(Tokenise(pattern), 0)
  {
    regex := ReplaceDoubleStars("^" + pattern + "$");
    ghost var start := regex;
    var index := 0;
    groups := [];
    while '#' in regex || '*' in regex
      invariant Render(Marks(regex), index) == Render(Marks(start), 0)
      invariant groups + GroupsOf(Marks(regex), index) == GroupsOf(Marks(start), 0)
      decreases CountMarks(regex)
    {
      var kind := NextKind(regex);
      RewriteStep(regex, index);
      regex := ReplaceFirst(regex, MarkOf(kind), GroupRegex(kind, index));
      groups := groups + [Group(kind, GroupName(index))];
      index := index + 1;
    }
    PlainIsDone(regex, index);
    DoubleStarsAreWildcards("^" + pattern + "$", 0);
    AnchorsStayLiteral(pattern);
  }

  /** One iteration keeps the final text and group list, and uses up exactly one mark. */
  lemma RewriteStep(text: string, index: nat)
    requires !Plain(text)
    ensures var kind := NextKind(text);
            var next := ReplaceFirst(text, MarkOf(kind), GroupRegex(kind, index));
            && Render(Marks(next), index + 1) == Render(Marks(text), index)
            && [Group(kind, GroupName(index))] + GroupsOf(Marks(next), index + 1) == GroupsOf(Marks(text), index)
            && CountMarks(next) + 1 == CountMarks(text)
  {
    var kind := NextKind(text);
    var mark := MarkOf(kind);
    var at := IndexOf(text, mark);
    LeftmostMark(text, mark);
    assert text == text[..at] + [mark] + text[at + 1..];
    GroupRegexPlain(kind, index);
    ReplaceMark(text[..at], kind, text[at + 1..], index);
  }

  /** The loop's two tests pick the leftmost mark of either kind. */
  lemma LeftmostMark(text: string, mark: char)
    requires IsMark(mark) && mark in text
    requires mark == '*' ==> '#' !in text || IndexOf(text, '*') < IndexOf(text, '#')
    requires mark == '#' ==> '*' !in text || IndexOf(text, '#') <= IndexOf(text, '*')
    ensures Plain(text[..IndexOf(text, mark)])
  {
    assert forall c :: c in text[..IndexOf(text, mark)] ==> c in text;
  }

  lemma GroupRegexPlain(kind: GroupKind, index: nat)
    ensures Plain(GroupRegex(kind, index))
  {
    forall c | c in Decimal(index) ensures !IsMark(c) {
      assert IsDigit(c);
    }
  }

  lemma {:induction false} ReplaceMark(before: string, kind: GroupKind, after: string, index: nat)
    requires Plain(before) && Plain(GroupRegex(kind, index))
    ensures var was := before + [MarkOf(kind)] + after;
            var now := before + GroupRegex(kind, index) + after;
            && Render(Marks(now), index + 1) == Render(Marks(was), index)
            && [Group(kind, GroupName(index))] + GroupsOf(Marks(now), index + 1) == GroupsOf(Marks(was), index)
            && CountMarks(now) + 1 == CountMarks(was)
  {
    var g, rest := GroupRegex(kind, index), Render(Marks(after), index + 1);
    PrefixedMark(before, kind, after, index);
    PlainPrefix(before + g, after, index + 1);
    Assoc(before, g, rest);
  }

  lemma Assoc(a: string, b: string, c: string)
    ensures (a + b) + c == a + (b + c)
  {
  }

  lemma PrefixedMark(before: string, kind: GroupKind, after: string, index: nat)
    requires Plain(before)
    ensures var was := before + [MarkOf(kind)] + after;
            && Render(Marks(was), index) == before + (GroupRegex(kind, index) + Render(Marks(after), index + 1))
            && GroupsOf(Marks(was), index) == [Group(kind, GroupName(index))] + GroupsOf(Marks(after), index + 1)
            && CountMarks(was) == 1 + CountMarks(after)
  {
    Assoc(before, [MarkOf(kind)], after);
    PlainPrefix(before, [MarkOf(kind)] + after, index);
    MarkFirst(kind, after, index);
  }

  lemma MarkFirst(kind: GroupKind, after: string, index: nat)
    ensures var tail := [MarkOf(kind)] + after;
            && Render(Marks(tail), index) == GroupRegex(kind, index) + Render(Marks(after), index + 1)
            && GroupsOf(Marks(tail), index) == [Group(kind, GroupName(index))] + GroupsOf(Marks(after), index + 1)
            && CountMarks(tail) == 1 + CountMarks(after)
  {
    var tail := [MarkOf(kind)] + after;
    assert tail[1..] == after;
    assert Marks(tail)[1..] == Marks(after);
  }

  lemma RenderLiteral(tokens: seq<Token>, index: nat)
    requires tokens != [] && tokens[0].Literal?
    ensures Render(tokens, index) == [tokens[0].c] + Render(tokens[1..], index)
    ensures GroupsOf(tokens, index) == GroupsOf(tokens[1..], index)
  {
  }

  lemma MarksCons(p: string, s: string)
    requires p != [] && Plain(p)
    ensures Marks(p + s) == [Literal(p[0])] + Marks(p[1..] + s) && Marks(p + s)[1..] == Marks(p[1..] + s)
    ensures CountMarks(p + s) == CountMarks(p[1..] + s)
  {
    assert (p + s)[1..] == p[1..] + s;
    assert p[0] in p;
  }

  /** Text without marks is copied. */
  lemma {:induction false} PlainPrefix(p: string, s: string, index: nat)
    requires Plain(p)
    ensures Render(Marks(p + s), index) == p + Render(Marks(s), index)
    ensures GroupsOf(Marks(p + s), index) == GroupsOf(Marks(s), index)
    ensures CountMarks(p + s) == CountMarks(s)
  {
    if p == [] {
      assert p + s == s;
    } else {
      PlainPrefix(p[1..], s, index);
      MarksCons(p, s);
      RenderLiteral(Marks(p + s), index);
      var r := Render(Marks(s), index);
      assert p + r == [p[0]] + (p[1..] + r);
    }
  }

  lemma PlainIsDone(s: string, index: nat)
    requires Plain(s)
    ensures Render(Marks(s), index) == s && GroupsOf(Marks(s), index) == []
  {
    PlainPrefix(s, [], index);
    assert s + [] == s;
  }

  /** Replacing `**` first and then single marks is the same as tokenising greedily. */
  lemma {:induction false} DoubleStarsAreWildcards(s: string, index: nat)
    ensures Render(Marks(ReplaceDoubleStars(s)), index) == Render(Tokenise(s), index)
    ensures GroupsOf(Marks(ReplaceDoubleStars(s)), index) == GroupsOf(Tokenise(s), index)
  {
    if s == [] {
    } else if |s| >= 2 && s[0] == '*' && s[1] == '*' {
      DoubleStarsAreWildcards(s[2..], index);
      PlainPrefix(WILDCARD_REGEX, ReplaceDoubleStars(s[2..]), index);
      assert Tokenise(s)[1..] == Tokenise(s[2..]);
    } else {
      var next := if IsMark(s[0]) then index + 1 else index;
      var rest := ReplaceDoubleStars(s[1..]);
      DoubleStarsAreWildcards(s[1..], next);
      MarksHead(s[0], rest);
      RenderHead(TokenOf(s[0]), Marks(rest), Tokenise(s[1..]), index, next);
    }
  }

  lemma MarksHead(c: char, rest: string)
    ensures Marks([c] + rest) == [TokenOf(c)] + Marks(rest)
  {
    assert ([c] + rest)[1..] == rest;
  }

  /** Token lists that mean the same still do after the same first token. */
  lemma RenderHead(t: Token, a: seq<Token>, b: seq<Token>, index: nat, next: nat)
    requires !t.Wildcard? && next == if IsGroup(t) then index + 1 else index
    requires Render(a, next) == Render(b, next) && GroupsOf(a, next) == GroupsOf(b, next)
    ensures Render([t] + a, index) == Render([t] + b, index) && GroupsOf([t] + a, index) == GroupsOf([t] + b, index)
  {
    assert ([t] + a)[1..] == a && ([t] + b)[1..] == b;
  }

  /** The anchors added around the pattern never merge with its marks. */
  lemma AnchorsStayLiteral(pattern: string)
    ensures var t := Tokenise("^" + pattern + "$");
            && Render(t, 0) == "^" + Render(Tokenise(pattern), 0) + "$"
            && GroupsOf(t, 0) == GroupsOf(Tokenise(pattern), 0)
  {
    var s := "^" + pattern + "$";
    assert s[1..] == pattern + "$";
    assert Tokenise(s)[1..] == Tokenise(pattern + "$");
    DollarStaysLiteral(pattern);
    RenderAppendDollar(Tokenise(pattern), 0);
  }

  lemma {:induction false} DollarStaysLiteral(s: string)
    ensures Tokenise(s + "$") == Tokenise(s) + [Literal('$')]
  {
    if s == [] {
      assert ("$")[1..] == [];
    } else if |s| >= 2 && s[0] == '*' && s[1] == '*' {
      DollarStaysLiteral(s[2..]);
      assert (s + "$")[2..] == s[2..] + "$";
    } else {
      DollarStaysLiteral(s[1..]);
      assert (s + "$")[1..] == s[1..] + "$";
    }
  }

  lemma {:induction false} RenderAppendDollar(tokens: seq<Token>, index: nat)
    ensures Render(tokens + [Literal('$')], index) == Render(tokens, index) + "$"
    ensures GroupsOf(tokens + [Literal('$')], index) == GroupsOf(tokens, index)
  {
    var all := tokens + [Literal('$')];
    if tokens == [] {
      assert all[1..] == [];
    } else {
      assert all[1..] == tokens[1..] + [Literal('$')];
      RenderAppendDollar(tokens[1..], if IsGroup(tokens[0]) then index + 1 else index);
    }
  }

  lemma GroupTexts()
    ensures GroupName(0) == "m0" && GroupName(1) == "m1"
    ensures GroupRegex(Numeric, 0) == "(?P<m0>\\d+)" && GroupRegex(Alpha, 1) == "(?P<m1>[0-9A-Za-z_.-]+)"
  {
    assert Decimal(0) == "0" && Decimal(1) == "1";
    assert "m" + "0" == "m0" && "m" + "1" == "m1";
    assert "(?P<" + "m0" + ">\\d+)" == "(?P<m0>\\d+)";
    assert "(?P<" + "m1" + ">[0-9A-Za-z_.-]+)" == "(?P<m1>[0-9A-Za-z_.-]+)";
  }

  /** The pattern `#*`, spelled out: a numeric group, then an alphabetic one. */
  lemma SampleRegex()
    ensures Tokenise("#*") == [NumericMark, AlphaMark]
    ensures Render(Tokenise("#*"), 0) == "(?P<m0>\\d+)" + "(?P<m1>[0-9A-Za-z_.-]+)"
    ensures GroupsOf(Tokenise("#*"), 0) == [Group(Numeric, "m0"), Group(Alpha, "m1")]
  {
    GroupTexts();
    var t := [NumericMark, AlphaMark];
    assert ("#*")[1..] == "*" && ("*")[1..] == "";
    assert Tokenise("*") == [AlphaMark];
    assert t[1..] == [AlphaMark] && [AlphaMark][1..] == [];
    assert Render([AlphaMark], 1) == GroupRegex(Alpha, 1) + Render([], 2) == GroupRegex(Alpha, 1);
    assert GroupsOf([AlphaMark], 1) == [Group(Alpha, GroupName(1))] + GroupsOf([], 2);
  }

  /** The pattern `**`, spelled out: any text of tag and path characters, in no group. */
  lemma SampleWildcard()
    ensures Tokenise("**") == [Wildcard]
    ensures Render(Tokenise("**"), 0) == "([0-9A-Za-z_./:-]{0,})" && GroupsOf(Tokenise("**"), 0) == []
  {
    assert ("**")[2..] == "";
    assert [Wildcard][1..] == [];
    assert WILDCARD_REGEX + "" == WILDCARD_REGEX;
  }
}
