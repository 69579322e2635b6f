/** Addressing objects across projects (pkg/client/multi.go and the client factory of pkg/project/client.go). */
module MultiClient {
  import opened GoStrings

  /** A client of one project and the names of the objects it lists. */
  datatype Client = Client(project: string, objects: seq<string>)

  /** An addressed object: the client asked and the name it is asked for. */
  datatype Target = Target(client: Client, name: string)

  datatype Factory = Factory(clients: seq<Client>, fallback: string -> Option<Client>) {
    /** The default project is the only client's, and none when there are several. */
    function DefaultProject(): string { if |clients| == 1 then clients[0].project else "" }

    ghost predicate Valid() {
      && (forall c, n :: c in clients && n in c.objects ==> '/' !in n)
      && (forall c :: c in clients ==> c.project != "")
      && (forall i, j :: 0 <= i < j < |clients| ==> clients[i].project != clients[j].project)
      && (forall c, i, j :: c in clients && 0 <= i < j < |c.objects| ==> c.objects[i] != c.objects[j])
    }
  }

  /** The name under which an object of a client is listed and returned. */
  function ListedName(f: Factory, c: Client, name: string): string {
    if c.project != f.DefaultProject() then c.project + "/" + name else name
  }

  /** Client `i` is the first one of a project. */
  predicate FirstOf(f: Factory, project: string, i: int) {
    0 <= i < |f.clients| && f.clients[i].project == project && forall j :: 0 <= j < i ==> f.clients[j].project != project
  }

  /** `ForProject`: the first client for no project, the named one, or a new client. */
  method ForProject(f: Factory, project: string) returns (c: Option<Client>)
    requires |f.clients| > 0
    ensures project == "" ==> c == Some(f.clients[0])
    ensures project != "" ==> forall i :: FirstOf(f, project, i) ==> c == Some(f.clients[i])
    ensures project != "" && (forall i :: 0 <= i < |f.clients| ==> f.clients[i].project != project) ==> c == f.fallback(project)
  {
    if project == "" {
      return Some(f.clients[0]);
    }
    for i := 0 to |f.clients|
      invariant forall j :: 0 <= j < i ==> f.clients[j].project != project
    {
      if f.clients[i].project == project {
        return Some(f.clients[i]);
      }
    }
    return f.fallback(project);
  }

  function ListingOf(c: Client): seq<Target> {
    seq(|c.objects|, i requires 0 <= i < |c.objects| => Target(c, c.objects[i]))
  }

  function Listing(clients: seq<Client>): seq<Target> {
    if clients == [] then [] else ListingOf(clients[0]) + Listing(clients[1..])
  }

  predicate NamesOf(f: Factory, names: seq<string>, targets: seq<Target>) {
    |names| == |targets| && forall i :: 0 <= i < |names| ==> names[i] == ListedName(f, targets[i].client, targets[i].name)
  }

  /** The objects of one client, renamed where its project is not the default one. */
  method ListClient(f: Factory, c: Client) returns (names: seq<string>)
    ensures NamesOf(f, names, ListingOf(c))
  {
    names := [];
    for k := 0 to |c.objects|
      invariant |names| == k && forall i :: 0 <= i < k ==> names[i] == ListedName(f, c, c.objects[i])
    {
      var name := c.objects[k];
      if c.project != f.DefaultProject() {
        name := c.project + "/" + name;
      }
      names := names + [name];
    }
  }

  /** `aggregate`: the objects of all clients in turn. */
  method Aggregate(f: Factory) returns (names: seq<string>)
    ensures NamesOf(f, names, Listing(f.clients))
    ensures ListsAll(f, names)
  {
    names := [];
    ghost var targets: seq<Target> := [];
    assert f.clients[0..] == f.clients;
    for i := 0 to |f.clients|
      invariant targets + Listing(f.clients[i..]) == Listing(f.clients)
      invariant NamesOf(f, names, targets)
    {
      assert f.clients[i..][1..] == f.clients[i + 1..];
      var more := ListClient(f, f.clients[i]);
      names := names + more;
      targets := targets + ListingOf(f.clients[i]);
    }
    assert targets + [] == targets;
    ListingComplete(f, names);
  }

  /** Every object of every client is named: as it is if there is one client, else after its project. */
  ghost predicate ListsAll(f: Factory, names: seq<string>) {
    && (forall c, n :: c in f.clients && n in c.objects && |f.clients| == 1 ==> n in names)
    && (forall c, n :: c in f.clients && n in c.objects && |f.clients| != 1 && c.project != "" ==> c.project + "/" + n in names)
  }

  /** The listing has every object of every client, and nothing else. */
  lemma {:induction false} ListingMeans(clients: seq<Client>, t: Target)
    ensures t in Listing(clients) <==> t.client in clients && t.name in t.client.objects
  {
    if clients != [] {
      ListingMeans(clients[1..], t);
      var own := ListingOf(clients[0]);
      if t.client == clients[0] && t.name in t.client.objects {
        var i :| 0 <= i < |clients[0].objects| && clients[0].objects[i] == t.name;
        assert own[i] == t;
      }
      if t in own {
        var i :| 0 <= i < |own| && own[i] == t;
      }
    }
  }

  lemma ListingComplete(f: Factory, names: seq<string>)
    requires NamesOf(f, names, Listing(f.clients))
    ensures ListsAll(f, names)
  {
    forall c, n | c in f.clients && n in c.objects ensures ListedName(f, c, n) in names {
      ListingMeans(f.clients, Target(c, n));
      var i :| 0 <= i < |names| && Listing(f.clients)[i] == Target(c, n);
      assert names[i] == ListedName(f, c, n);
    }
    forall c, n | c in f.clients && n in c.objects && |f.clients| != 1 && c.project != "" ensures c.project + "/" + n in names {
      assert ListedName(f, c, n) in names;
    }
    forall c, n | c in f.clients && n in c.objects && |f.clients| == 1 ensures n in names {
      assert c == f.clients[0] && ListedName(f, c, n) in names;
    }
  }

  /** The names that `Aggregate` returns are pairwise different. */
  lemma NamesDistinct(f: Factory, names: seq<string>, targets: seq<Target>)
    requires f.Valid() && targets == Listing(f.clients) && NamesOf(f, names, targets)
    ensures forall i, j :: 0 <= i < j < |names| ==> names[i] != names[j]
  {
    ListingDistinct(f, 0);
    assert f.clients[0..] == f.clients;
    forall i, j | 0 <= i < j < |names| ensures names[i] != names[j] {
      if names[i] == names[j] {
        assert targets[i] in targets && targets[j] in targets;
        ListingMeans(f.clients, targets[i]);
        ListingMeans(f.clients, targets[j]);
        ListedNamesDistinct(f, targets[i].client, targets[i].name, targets[j].client, targets[j].name);
      }
    }
  }

  predicate AllDistinct(s: seq<Target>) { forall i, j :: 0 <= i < j < |s| ==> s[i] != s[j] }

  predicate NoneShared(a: seq<Target>, b: seq<Target>) { forall i, j :: 0 <= i < |a| && 0 <= j < |b| ==> a[i] != b[j] }

  lemma DistinctConcat(a: seq<Target>, b: seq<Target>)
    requires AllDistinct(a) && AllDistinct(b) && NoneShared(a, b)
    ensures AllDistinct(a + b)
  {
  }

  /** The listing names each object of each client once. */
  lemma {:induction false} ListingDistinct(f: Factory, k: nat)
    requires f.Valid() && k <= |f.clients|
    ensures AllDistinct(Listing(f.clients[k..]))
    decreases |f.clients| - k
  {
    if k < |f.clients| {
      var c := f.clients[k];
      assert f.clients[k..][0] == c && f.clients[k..][1..] == f.clients[k + 1..];
      ListingDistinct(f, k + 1);
      OwnDistinct(f, c);
      OthersDiffer(f, k);
      DistinctConcat(ListingOf(c), Listing(f.clients[k + 1..]));
    }
  }

  lemma OwnDistinct(f: Factory, c: Client)
    requires f.Valid() && c in f.clients
    ensures AllDistinct(ListingOf(c))
  {
    var own := ListingOf(c);
    assert forall i, j :: 0 <= i < j < |own| ==> own[i].name == c.objects[i] != c.objects[j] == own[j].name;
  }

  lemma OthersDiffer(f: Factory, k: nat)
    requires f.Valid() && k < |f.clients|
    ensures NoneShared(ListingOf(f.clients[k]), Listing(f.clients[k + 1..]))
  {
    var own, rest := ListingOf(f.clients[k]), Listing(f.clients[k + 1..]);
    forall i, j | 0 <= i < |own| && 0 <= j < |rest| ensures own[i] != rest[j] {
      ListingMeans(f.clients[k + 1..], rest[j]);
      assert rest[j] in rest;
      var d :| 0 <= d < |f.clients[k + 1..]| && f.clients[k + 1..][d] == rest[j].client;
      assert f.clients[k + 1 + d] == rest[j].client;
    }
  }

  /** The project and object name that `onOne` reads off a name: cut at the last slash. */
  function ProjectPart(name: string): string {
    var i := LastIndexOf(name, '/');
    if i < 0 then "" else name[..i]
  }

  function ObjectPart(name: string): string {
    var i := LastIndexOf(name, '/');
    name[i + 1..]
  }

  /** `onOne`: dispatch, ask the client, and return the object (or none) under its listed name. */
  method OnOne(f: Factory, name: string, ask: (Client, string) -> Option<string>) returns (asked: Option<Target>, r: Option<string>)
    requires |f.clients| > 0
    ensures asked.Some? ==> asked.value.name == ObjectPart(name)
    ensures asked.Some? ==> r == var got := ask(asked.value.client, asked.value.name);
                                 if got.None? then None else Some(ListedName(f, asked.value.client, got.value))
    ensures asked.None? ==> r.None?
    ensures ProjectPart(name) == "" ==> asked == Some(Target(f.clients[0], ObjectPart(name)))
    ensures ProjectPart(name) != "" ==>
              forall i :: FirstOf(f, ProjectPart(name), i) ==> asked == Some(Target(f.clients[i], ObjectPart(name)))
    ensures ProjectPart(name) != "" && (forall i :: 0 <= i < |f.clients| ==> f.clients[i].project != ProjectPart(name)) ==>
              var other := f.fallback(ProjectPart(name));
              asked == if other.None? then None else Some(Target(other.value, ObjectPart(name)))
  {
    var projectName, objectName := "", name;
    var i := LastIndexOf(name, '/');
    if i != -1 {
      projectName := name[0..i];
      objectName := name[i + 1..];
    }
    var client := ForProject(f, projectName);
    if client.None? {
      return None, None;
    }
    asked := Some(Target(client.value, objectName));
    var got := ask(client.value, objectName);
    if got.None? {
      return asked, None;
    }
    if client.value.project != f.DefaultProject() {
      return asked, Some(client.value.project + "/" + got.value);
    }
    return asked, got;
  }

  // ---------- Listed names address their own objects ----------

  lemma LastSlash(p: string, n: string)
    requires '/' !in n
    ensures ProjectPart(p + "/" + n) == p && ObjectPart(p + "/" + n) == n
    ensures ProjectPart(n) == "" && ObjectPart(n) == n
  {
    var s := p + "/" + n;
    assert s[|p|] == '/';
    assert forall k :: |p| < k < |s| ==> s[k] == n[k - |p| - 1];
    assert LastIndexOf(s, '/') == |p|;
    assert s[..|p|] == p && s[|p| + 1..] == n;
  }

  /** A listed name cut at its last slash gives back the client's project (nothing for the only client) and the object's name. */
  lemma ListedNameParts(f: Factory, c: Client, n: string)
    requires f.Valid() && c in f.clients && n in c.objects
    ensures ObjectPart(ListedName(f, c, n)) == n
    ensures ProjectPart(ListedName(f, c, n)) == if |f.clients| == 1 then "" else c.project
  {
    LastSlash(c.project, n);
    if |f.clients| == 1 { assert c == f.clients[0]; }
  }

  /** The client of a listed object is the one its name leads to. */
  lemma ListedClient(f: Factory, c: Client, n: string) returns (i: nat)
    requires f.Valid() && c in f.clients && n in c.objects
    ensures i < |f.clients| && f.clients[i] == c
    ensures var p := ProjectPart(ListedName(f, c, n)); if p == "" then i == 0 else FirstOf(f, p, i)
  {
    ListedNameParts(f, c, n);
    i :| 0 <= i < |f.clients| && f.clients[i] == c;
    forall j | 0 <= j < i ensures f.clients[j].project != c.project {
    }
  }

  /** Every listed name dispatches to the client it came from, with the original name, and comes back under the same name. */
  method AddressListed(f: Factory, c: Client, n: string, ask: (Client, string) -> Option<string>) returns (asked: Option<Target>, r: Option<string>)
    requires f.Valid() && c in f.clients && n in c.objects && ask(c, n) == Some(n)
    ensures asked == Some(Target(c, n)) && r == Some(ListedName(f, c, n))
  {
    ghost var i := ListedClient(f, c, n);
    assert ObjectPart(ListedName(f, c, n)) == n by { ListedNameParts(f, c, n); }
    asked, r := OnOne(f, ListedName(f, c, n), ask);
  }

  /** Distinct objects are listed under distinct names. */
  lemma ListedNamesDistinct(f: Factory, c: Client, n: string, c': Client, n': string)
    requires f.Valid() && c in f.clients && c' in f.clients && n in c.objects && n' in c'.objects
    requires ListedName(f, c, n) == ListedName(f, c', n')
    ensures c == c' && n == n'
  {
    ListedNameParts(f, c, n);
    ListedNameParts(f, c', n');
    var i :| 0 <= i < |f.clients| && f.clients[i] == c;
    var j :| 0 <= j < |f.clients| && f.clients[j] == c';
  }
}
