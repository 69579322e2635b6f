/** Project names (pkg/project/client.go): parsing against a default context, and rendering without the default parts. */
module Projects {
  import opened GoStrings

  const LOCAL := "kubeconfig"

  datatype Parsed = Parsed(server: string, account: string, namespace: string)
  datatype ParseResult = Ok(value: Parsed, isKubeconfig: bool) | Invalid

  /** `strings.Cut` at the first slash, with the local server when there is none. */
  function DefaultServer(context: string): string {
    var i := IndexOf(context, '/');
    if i < 0 then LOCAL else context[..i]
  }

  function DefaultAccount(context: string): string {
    var i := IndexOf(context, '/');
    if i < 0 then "" else context[i + 1..]
  }

  /** The parts of a name, with what is missing taken from the default context. */
  function Complete(parts: seq<string>, server: string, account: string): seq<string>
    requires |parts| >= 1
  {
    if |parts| == 1 then [server, account, parts[0]]
    else if |parts| == 2 then
      if parts[0] == LOCAL then [LOCAL, "", parts[1]] else [server, parts[0], parts[1]]
    else parts
  }

  function ParseParts(given: seq<string>, server: string, account: string): ParseResult
    requires |given| >= 1
  {
    var parts := Complete(given, server, account);
    if |parts| != 3 || '.' in parts[2] || (parts[0] == LOCAL && parts[1] != "") then Invalid
    else Ok(Parsed(parts[0], parts[1], parts[2]), parts[0] == LOCAL)
  }

  function ParseProject(project: string, context: string): ParseResult {
    ParseParts(Split(project, '/'), DefaultServer(context), DefaultAccount(context))
  }

  /** The first of the two prefixes that the name has is removed. */
  function Render(project: string, server: string, account: string): string {
    var full := server + "/" + account + "/";
    if HasPrefix(project, full) then project[|full|..]
    else if HasPrefix(project, server + "/") then project[|server + "/"|..]
    else project
  }

  function RenderProjectName(project: string, context: string): string {
    Render(project, DefaultServer(context), DefaultAccount(context))
  }

  /**
   Where rendering loses nothing: a two-part name whose first part is the default server must mean the default
   account, and a three-part name on the default server must not have the local server's name as its account
   (unless that is the default account).
   */
  predicate SafeParts(parts: seq<string>, server: string, account: string) {
    && (|parts| == 2 && parts[0] == server ==> account == if server == LOCAL then "" else server)
    && (|parts| == 3 && parts[0] == server && parts[1] == LOCAL ==> account == LOCAL)
  }

  predicate RenderSafe(project: string, context: string) {
    SafeParts(Split(project, '/'), DefaultServer(context), DefaultAccount(context))
  }

  // ---------- Prefixes of names ----------

  /** A slash-free text followed by a slash is a prefix exactly when it is the first part. */
  lemma FirstPart(p: string, s: string)
    requires '/' !in s
    ensures HasPrefix(p, s + "/") <==> |Split(p, '/')| >= 2 && Split(p, '/')[0] == s
    ensures HasPrefix(p, s + "/") ==> Split(p[|s| + 1..], '/') == Split(p, '/')[1..]
  {
    var i := IndexOf(p, '/');
    if HasPrefix(p, s + "/") {
      assert p[|s|] == (s + "/")[|s|] == '/';
      assert forall k :: 0 <= k < |s| ==> p[k] == (s + "/")[k] == s[k];
      assert i == |s| && p[..i] == s;
    }
    if i >= 0 && p[..i] == s {
      assert p[..i + 1] == s + "/";
    }
  }

  lemma DefaultServerPlain(context: string)
    ensures '/' !in DefaultServer(context)
  {
  }

  /** A name that starts with an account containing a slash has at least three parts. */
  lemma SlashedAccount(rest: string, account: string)
    requires '/' in account && HasPrefix(rest, account + "/")
    ensures |Split(rest, '/')| >= 3
  {
    var i, k := IndexOf(rest, '/'), IndexOf(account, '/');
    assert rest[k] == (account + "/")[k] == '/' && rest[|account|] == (account + "/")[|account|] == '/';
    assert rest[i + 1..][|account| - i - 1] == '/';
    assert |Split(rest[i + 1..], '/')| >= 2;
  }

  /** What rendering does to the parts of a name: it strips server and account, or the server, or nothing. */
  function StripParts(parts: seq<string>, server: string, account: string): (r: seq<string>)
    requires |parts| >= 1
    ensures |r| >= 1
  {
    if |parts| == 3 && parts[0] == server && parts[1] == account then [parts[2]]
    else if |parts| >= 2 && parts[0] == server then parts[1..]
    else parts
  }

  lemma RenderCases(p: string, server: string, account: string)
    ensures Render(p, server, account) ==
            if !HasPrefix(p, server + "/") then p
            else
              var rest := p[|server| + 1..];
              if HasPrefix(rest, account + "/") then rest[|account| + 1..] else rest
  {
    var head, tail := server + "/", account + "/";
    PrefixSplits(p, head, tail);
    assert server + "/" + account + "/" == head + tail;
    assert |head| == |server| + 1 && |tail| == |account| + 1;
    if HasPrefix(p, head + tail) {
      assert p[|head + tail|..] == p[|head|..][|tail|..];
    }
  }

  lemma RenderStrips(p: string, context: string)
    requires |Split(p, '/')| <= 3
    ensures Split(RenderProjectName(p, context), '/') == StripParts(Split(p, '/'), DefaultServer(context), DefaultAccount(context))
  {
    var server, account := DefaultServer(context), DefaultAccount(context);
    DefaultServerPlain(context);
    RenderCases(p, server, account);
    FirstPart(p, server);
    if HasPrefix(p, server + "/") {
      StripAccount(p, server, account);
    }
  }

  lemma StripAccount(p: string, server: string, account: string)
    requires '/' !in server && |Split(p, '/')| <= 3 && HasPrefix(p, server + "/")
    ensures var rest, parts := p[|server| + 1..], Split(p, '/');
            && (HasPrefix(rest, account + "/") <==> |parts| == 3 && parts[1] == account)
            && (HasPrefix(rest, account + "/") ==> Split(rest[|account| + 1..], '/') == [parts[2]])
  {
    FirstPart(p, server);
    var rest, parts := p[|server| + 1..], Split(p, '/');
    assert parts[1] in parts;
    if '/' in account {
      if HasPrefix(rest, account + "/") { SlashedAccount(rest, account); }
    } else {
      FirstPart(rest, account);
    }
  }

  lemma PrefixSplits(p: string, a: string, b: string)
    ensures HasPrefix(p, a + b) <==> HasPrefix(p, a) && HasPrefix(p[|a|..], b)
  {
    if HasPrefix(p, a + b) {
      assert p[..|a|] == (a + b)[..|a|] == a;
      assert p[|a|..][..|b|] == (a + b)[|a|..] == b;
    }
    if HasPrefix(p, a) && HasPrefix(p[|a|..], b) {
      assert p[..|a + b|] == p[..|a|] + p[|a|..][..|b|];
    }
  }

  lemma ParseJoined(parts: seq<string>, context: string)
    requires |parts| >= 1 && forall p :: p in parts ==> '/' !in p
    ensures ParseProject(Join(parts, '/'), context) == ParseParts(parts, DefaultServer(context), DefaultAccount(context))
  {
    SplitJoin(parts, '/');
  }

  /** What a full name means and when it is refused. */
  lemma FullForm(server: string, account: string, ns: string, context: string)
    requires '/' !in server && '/' !in account && '/' !in ns
    ensures ParseProject(Join([server, account, ns], '/'), context) ==
            if '.' in ns || (server == LOCAL && account != "") then Invalid else Ok(Parsed(server, account, ns), server == LOCAL)
  {
    ParseJoined([server, account, ns], context);
  }

  /** Two parts are an account of the default server and a namespace, or the local server and a namespace. */
  lemma TwoPartForm(account: string, ns: string, context: string)
    requires '/' !in account && '/' !in ns
    ensures ParseProject(Join([account, ns], '/'), context) ==
            if '.' in ns then Invalid
            else if account == LOCAL then Ok(Parsed(LOCAL, "", ns), true)
            else if DefaultServer(context) == LOCAL && account != "" then Invalid
            else Ok(Parsed(DefaultServer(context), account, ns), DefaultServer(context) == LOCAL)
  {
    ParseJoined([account, ns], context);
  }

  /** A bare namespace is completed from the default context. */
  lemma BareForm(ns: string, context: string)
    requires '/' !in ns
    ensures ParseProject(ns, context) ==
            if '.' in ns || (DefaultServer(context) == LOCAL && DefaultAccount(context) != "") then Invalid
            else Ok(Parsed(DefaultServer(context), DefaultAccount(context), ns), DefaultServer(context) == LOCAL)
  {
    ParseJoined([ns], context);
  }

  /** A default context is a server, or the local one if it has no slash, and an account. */
  lemma ContextMeans(s: string, a: string)
    requires '/' !in s
    ensures DefaultServer(s + "/" + a) == s && DefaultAccount(s + "/" + a) == a
    ensures DefaultServer(s) == "kubeconfig" && DefaultAccount(s) == ""
  {
    FirstSeparator(s, '/', a);
  }

  /** What names without a server, and without an account, mean in the default context `s/a`. */
  lemma ShortNames(ns: string, account: string, s: string, a: string)
    requires '/' !in ns && '/' !in account && '/' !in s && '.' !in ns && s != "kubeconfig"
    ensures ParseProject(ns, s + "/" + a) == Ok(Parsed(s, a, ns), false)
    ensures ParseProject(account + "/" + ns, s + "/" + a) ==
            if account == "kubeconfig" then Ok(Parsed("kubeconfig", "", ns), true) else Ok(Parsed(s, account, ns), false)
  {
    ContextMeans(s, a);
    BareForm(ns, s + "/" + a);
    TwoPartForm(account, ns, s + "/" + a);
    JoinTwo(account, ns);
  }

  lemma JoinTwo(a: string, b: string)
    ensures Join([a, b], '/') == a + "/" + b
  {
    assert [a, b][1..] == [b];
  }

  /** Rendering drops the default account together with its server, or else the default server, or else nothing. */
  lemma RenderForms(server: string, account: string, rest: string)
    ensures Render(server + "/" + account + "/" + rest, server, account) == rest
    ensures !HasPrefix(rest, account + "/") ==> Render(server + "/" + rest, server, account) == rest
    ensures !HasPrefix(rest, server + "/") ==> Render(rest, server, account) == rest
  {
    var p, q := server + "/" + account + "/" + rest, server + "/" + rest;
    RenderCases(p, server, account);
    RenderCases(q, server, account);
    RenderCases(rest, server, account);
    assert p[..|server| + 1] == server + "/" && p[|server| + 1..] == account + "/" + rest;
    assert (account + "/" + rest)[..|account| + 1] == account + "/" && (account + "/" + rest)[|account| + 1..] == rest;
    assert q[..|server| + 1] == server + "/" && q[|server| + 1..] == rest;
  }

  // ---------- Rendering keeps the identity ----------

  lemma StripKeepsIff(parts: seq<string>, server: string, account: string)
    requires |parts| >= 1 && ParseParts(parts, server, account).Ok?
    ensures ParseParts(StripParts(parts, server, account), server, account) == ParseParts(parts, server, account)
            <==> SafeParts(parts, server, account)
  {
  }

  /** For every name that parses, the rendered name parses to the same project exactly when it is render-safe. */
  lemma RenderKeepsIdentityIff(p: string, context: string)
    requires ParseProject(p, context).Ok?
    ensures ParseProject(RenderProjectName(p, context), context) == ParseProject(p, context) <==> RenderSafe(p, context)
  {
    RenderStrips(p, context);
    StripKeepsIff(Split(p, '/'), DefaultServer(context), DefaultAccount(context));
  }

  /** Full names: `server/account/namespace` with another account than the local server's name, or `kubeconfig/namespace`. */
  predicate FullName(p: string) {
    var parts := Split(p, '/');
    (|parts| == 3 && parts[1] != LOCAL) || (|parts| == 2 && parts[0] == LOCAL)
  }

  predicate WellFormedContext(context: string) { DefaultServer(context) == LOCAL ==> DefaultAccount(context) == "" }

  lemma FullNamesRoundTrip(p: string, context: string)
    requires ParseProject(p, context).Ok? && FullName(p) && WellFormedContext(context)
    ensures ParseProject(RenderProjectName(p, context), context) == ParseProject(p, context)
  {
    RenderKeepsIdentityIff(p, context);
  }

  /** Render-safe names that render alike are the same project. */
  lemma RenderInjective(p: string, q: string, context: string)
    requires ParseProject(p, context).Ok? && ParseProject(q, context).Ok? && RenderSafe(p, context) && RenderSafe(q, context)
    requires RenderProjectName(p, context) == RenderProjectName(q, context)
    ensures ParseProject(p, context) == ParseProject(q, context)
  {
    RenderKeepsIdentityIff(p, context);
    RenderKeepsIdentityIff(q, context);
  }

  /** Outside the condition it fails: with an account in a local default context, local projects render to names that do not parse. */
  lemma RenderCanLoseTheProject(ns: string, context: string)
    requires '/' !in ns && '.' !in ns && DefaultServer(context) == LOCAL && DefaultAccount(context) != ""
    ensures ParseProject(Join([LOCAL, ns], '/'), context).Ok?
    ensures ParseProject(RenderProjectName(Join([LOCAL, ns], '/'), context), context).Invalid?
  {
    DefaultServerPlain(context);
    SplitJoin([LOCAL, ns], '/');
    RenderStrips(Join([LOCAL, ns], '/'), context);
    assert [LOCAL, ns][1..] == [ns];
  }

  /** And an account with the local server's name on the default server renders to a project of the local server. */
  lemma RenderCanSwitchTheProject(ns: string, context: string)
    requires '/' !in ns && '.' !in ns && DefaultServer(context) != LOCAL && DefaultAccount(context) != LOCAL
    ensures var p := Join([DefaultServer(context), LOCAL, ns], '/');
            && ParseProject(p, context) == Ok(Parsed(DefaultServer(context), LOCAL, ns), false)
            && ParseProject(RenderProjectName(p, context), context) == Ok(Parsed(LOCAL, "", ns), true)
  {
    var server, account := DefaultServer(context), DefaultAccount(context);
    var parts := [server, LOCAL, ns];
    DefaultServerPlain(context);
    SplitJoin(parts, '/');
    RenderStrips(Join(parts, '/'), context);
    SwitchParts(server, account, ns);
  }

  lemma SwitchParts(server: string, account: string, ns: string)
    requires '.' !in ns && server != LOCAL && account != LOCAL
    ensures StripParts([server, LOCAL, ns], server, account) == [LOCAL, ns]
    ensures ParseParts([server, LOCAL, ns], server, account) == Ok(Parsed(server, LOCAL, ns), false)
    ensures ParseParts([LOCAL, ns], server, account) == Ok(Parsed(LOCAL, "", ns), true)
  {
    assert [server, LOCAL, ns][1..] == [LOCAL, ns];
  }
}
