/** Slash paths as Go's path package documents them, and the router's joinPath. */
module GoPath {
  import opened Text

  predicate Dropped(component: string) {
    component in {"", "."}
  }

  function Components(parts: seq<string>): seq<string> {
    if parts == [] then []
    else
      var last := parts[|parts| - 1];
      Components(parts[..|parts| - 1]) + if Dropped(last) then [] else [last]
  }

  /** One component on the stack: ".." takes back the one before it, or is kept or dropped at the start. */
  function Push(rooted: bool, stack: seq<string>, component: string): seq<string> {
    if component != ".." then stack + [component]
    else if stack != [] && stack[|stack| - 1] != ".." then stack[..|stack| - 1]
    else if rooted then stack
    else stack + [".."]
  }

  function Resolve(rooted: bool, components: seq<string>): seq<string> {
    if components == [] then []
    else Push(rooted, Resolve(rooted, components[..|components| - 1]), components[|components| - 1])
  }

  predicate Rooted(path: string) {
    path != "" && path[0] == '/'
  }

  function Render(rooted: bool, stack: seq<string>): string {
    var s := (if rooted then "/" else "") + Join(stack, '/');
    if s == "" then "." else s
  }

  function Stack(path: string): seq<string> {
    Resolve(Rooted(path), Components(Split(path, '/')))
  }

  function Clean(path: string): string {
    Render(Rooted(path), Stack(path))
  }

  /** path.Join of two elements: empty ones are left out. */
  function JoinTwo(a: string, b: string): string {
    if a == "" && b == "" then ""
    else if a == "" then Clean(b)
    else Clean(a + "/" + b)
  }

  function StripSlashes(path: string): string {
    if path != "" && path[|path| - 1] == '/' then StripSlashes(path[..|path| - 1]) else path
  }

  function AfterLastSlash(path: string): string {
    if path == "" || path[|path| - 1] == '/' then ""
    else AfterLastSlash(path[..|path| - 1]) + [path[|path| - 1]]
  }

  function Base(path: string): string {
    if path == "" then "."
    else
      var last := AfterLastSlash(StripSlashes(path));
      if last == "" then "/" else last
  }

  /** joinPath: an empty base counts as the root. */
  function JoinPath(base: string, endpoint: string): string {
    JoinTwo(if base == "" then "/" else base, endpoint)
  }

  /** A usual endpoint name: one component, and not a dot one. */
  predicate Plain(endpoint: string) {
    endpoint != "" && '/' !in endpoint && endpoint != "." && endpoint != ".."
  }

  lemma ComponentsSnoc(parts: seq<string>, last: string)
    ensures Components(parts + [last]) == Components(parts) + if Dropped(last) then [] else [last]
  {
  }

  lemma ResolveSnoc(rooted: bool, components: seq<string>, last: string)
    ensures Resolve(rooted, components + [last]) == Push(rooted, Resolve(rooted, components), last)
  {
  }

  /** Appending one component to a path pushes it on the stack, unless it is one that drops out. */
  lemma StackAppend(base: string, name: string)
    requires base != "" && '/' !in name
    ensures Rooted(base + "/" + name) == Rooted(base)
    ensures Stack(base + "/" + name) == if Dropped(name) then Stack(base) else Push(Rooted(base), Stack(base), name)
  {
    SplitConcat(base, name, '/');
    SplitPlain(name, '/');
    ComponentsSnoc(Split(base, '/'), name);
    assert base + "/" + name == base + ['/'] + name;
    ResolveSnoc(Rooted(base), Components(Split(base, '/')), name);
    assert Dropped(name) ==> Components(Split(base, '/')) + [] == Components(Split(base, '/'));
  }

  /** What stands before the last component: nothing, or something ending in a slash. */
  function Lead(rooted: bool, stack: seq<string>): (lead: string)
    ensures lead == "" || lead[|lead| - 1] == '/'
    ensures rooted ==> Rooted(lead)
  {
    (if rooted then "/" else "") + if stack == [] then "" else Join(stack, '/') + "/"
  }

  lemma RenderLast(rooted: bool, stack: seq<string>, name: string)
    requires name != ""
    ensures Render(rooted, stack + [name]) == Lead(rooted, stack) + name
  {
    if stack == [] {
      assert stack + [name] == [name];
    } else {
      JoinSnoc(stack, name, '/');
    }
  }

  lemma JoinedShape(base: string, endpoint: string)
    requires Plain(endpoint) && base != ""
    ensures JoinPath(base, endpoint) == Lead(Rooted(base), Stack(base)) + endpoint
  {
    StackAppend(base, endpoint);
    RenderLast(Rooted(base), Stack(base), endpoint);
  }

  lemma {:induction false} LastAfter(lead: string, name: string)
    requires '/' !in name && (lead == "" || lead[|lead| - 1] == '/')
    ensures AfterLastSlash(lead + name) == name
  {
    if name == "" {
      assert lead + name == lead;
    } else {
      assert (lead + name)[..|lead + name| - 1] == lead + name[..|name| - 1];
      LastAfter(lead, name[..|name| - 1]);
    }
  }

  /** A plain endpoint survives: it is the last element of the joined path, for every base. */
  lemma BaseOfJoinPath(base: string, endpoint: string)
    requires Plain(endpoint)
    ensures Base(JoinPath(base, endpoint)) == endpoint
  {
    var start := if base == "" then "/" else base;
    var lead := Lead(Rooted(start), Stack(start));
    JoinedShape(start, endpoint);
    LastAfter(lead, endpoint);
    assert StripSlashes(lead + endpoint) == lead + endpoint;
  }

  /** Rooted bases, and the empty one, give rooted paths. */
  lemma JoinPathStaysRooted(base: string, endpoint: string)
    requires Plain(endpoint) && (base == "" || Rooted(base))
    ensures Rooted(JoinPath(base, endpoint))
  {
  }

  /** A trailing slash on the base makes no difference. */
  lemma TrailingSlash(base: string, endpoint: string)
    requires Plain(endpoint)
    ensures JoinPath(base + "/", endpoint) == JoinPath(base, endpoint)
  {
    if base != "" {
      StackAppend(base, "");
      assert base + "/" == base + "/" + "";
      JoinedShape(base, endpoint);
      JoinedShape(base + "/", endpoint);
    } else {
      assert base + "/" == "/";
    }
  }

  // ---- Cleaning is a normal form ----

  /** What a stack can hold: single components, ".." only at the start of a relative path. */
  predicate Normal(rooted: bool, stack: seq<string>) {
    && (forall c :: c in stack ==> '/' !in c && !Dropped(c))
    && (rooted ==> ".." !in stack)
    && forall i, j :: 0 <= i < j < |stack| && stack[j] == ".." ==> stack[i] == ".."
  }

  lemma {:induction false} ResolveNormal(rooted: bool, components: seq<string>)
    requires forall c :: c in components ==> '/' !in c && !Dropped(c)
    ensures Normal(rooted, Resolve(rooted, components))
  {
    if components != [] {
      ResolveNormal(rooted, components[..|components| - 1]);
    }
  }

  lemma {:induction false} NormalResolves(rooted: bool, stack: seq<string>)
    requires Normal(rooted, stack)
    ensures Resolve(rooted, stack) == stack && Components(stack) == stack
  {
    if stack != [] {
      var front := stack[..|stack| - 1];
      NormalResolves(rooted, front);
      assert front != [] && stack[|stack| - 1] == ".." ==> front[|front| - 1] == "..";
    }
  }

  lemma {:induction false} ComponentsKept(parts: seq<string>)
    ensures forall c :: c in Components(parts) ==> c in parts && !Dropped(c)
  {
    if parts != [] { ComponentsKept(parts[..|parts| - 1]); }
  }

  lemma {:induction false} ComponentsConcat(a: seq<string>, b: seq<string>)
    ensures Components(a + b) == Components(a) + Components(b)
  {
    if b == [] {
      assert a + b == a;
    } else {
      ComponentsConcat(a, b[..|b| - 1]);
      assert (a + b)[..|a + b| - 1] == a + b[..|b| - 1];
    }
  }

  lemma EmptyReads(rooted: bool)
    ensures Rooted(Render(rooted, [])) == rooted && Stack(Render(rooted, [])) == []
  {
    SplitPlain(".", '/');
    SplitConcat("", "", '/');
    assert "" + ['/'] + "" == "/";
    assert Split("/", '/') == ["", ""] && Split(".", '/') == ["."];
    assert ["", ""][..1] == [""] && [""][..0] == [] && ["."][..0] == [];
    assert Components([""]) == [] && Components(["", ""]) == [] && Components(["."]) == [];
    assert Render(true, []) == "/" && Render(false, []) == ".";
  }

  lemma RootedReads(text: string, stack: seq<string>)
    requires Split(text, '/') == stack && Components(stack) == stack
    ensures Components(Split("/" + text, '/')) == stack
  {
    SplitConcat("", text, '/');
    assert "" + ['/'] + text == "/" + text;
    ComponentsConcat([""], stack);
    assert [""][..0] == [];
  }

  /** Rendering a normal stack and reading it again changes nothing. */
  lemma RenderReads(rooted: bool, stack: seq<string>)
    requires Normal(rooted, stack)
    ensures Rooted(Render(rooted, stack)) == rooted && Stack(Render(rooted, stack)) == stack
  {
    NormalResolves(rooted, stack);
    if stack == [] {
      EmptyReads(rooted);
    } else {
      SplitJoin(stack, '/');
      assert stack[0] in stack;
      JoinHead(stack);
      if rooted {
        RootedReads(Join(stack, '/'), stack);
      } else {
        assert "" + Join(stack, '/') == Join(stack, '/');
      }
    }
  }

  lemma JoinHead(stack: seq<string>)
    requires stack != [] && stack[0] != ""
    ensures Join(stack, '/') != "" && Join(stack, '/')[0] == stack[0][0]
  {
  }

  /** Clean is idempotent and its result is rooted exactly when the path is. */
  lemma CleanIdempotent(path: string)
    ensures Clean(Clean(path)) == Clean(path) && Rooted(Clean(path)) == Rooted(path)
  {
    ComponentsKept(Split(path, '/'));
    ResolveNormal(Rooted(path), Components(Split(path, '/')));
    RenderReads(Rooted(path), Stack(path));
  }

  // ---- Which endpoint names a request can have ----

  lemma {:induction false} LastShape(path: string)
    ensures '/' !in AfterLastSlash(path)
  {
    if path != "" && path[|path| - 1] != '/' { LastShape(path[..|path| - 1]); }
  }

  /** An endpoint taken from a request path is plain, except for these three. */
  lemma BaseIsPlain(path: string)
    ensures Plain(Base(path)) <==> Base(path) !in {"/", ".", ".."}
  {
    LastShape(StripSlashes(path));
  }

  /** The base of a path of one letter below the root. */
  lemma LetterBase(c: char)
    requires c != '/'
    ensures Base(['/', c]) == [c] && (c != '.' ==> Plain([c]))
  {
    assert ['/', c][..1] == ['/'];
    assert StripSlashes(['/', c]) == ['/', c];
    LastAfter("/", [c]);
    assert "/" + [c] == ['/', c];
  }

  /** A clean base other than the root is kept as it stands, with the endpoint after it. */
  lemma JoinKeepsBase(base: string, endpoint: string)
    requires Plain(endpoint) && base !in {"", "/", "."} && Clean(base) == base
    ensures JoinPath(base, endpoint) == base + "/" + endpoint
  {
    JoinedShape(base, endpoint);
    assert Stack(base) != [] by {
      assert Render(true, []) == "/" && Render(false, []) == ".";
    }
  }

  /** At the root, and on an empty base, the endpoint stands alone below the root. */
  lemma JoinAtRoot(endpoint: string)
    requires Plain(endpoint)
    ensures JoinPath("/", endpoint) == "/" + endpoint && JoinPath("", endpoint) == "/" + endpoint
  {
    JoinedShape("/", endpoint);
    EmptyReads(true);
    assert Render(true, []) == "/";
  }

  lemma UpAgain(rooted: bool, stack: seq<string>, name: string)
    requires Plain(name)
    ensures Push(rooted, Push(rooted, stack, name), "..") == stack
  {
    assert (stack + [name])[..|stack|] == stack;
  }

  lemma DotDrops(base: string)
    requires base != ""
    ensures Clean(base + "/.") == Clean(base)
  {
    StackAppend(base, ".");
    assert base + "/" + "." == base + "/.";
  }

  lemma ParentOf(below: string)
    requires below != ""
    ensures Clean(below + "/..") == Render(Rooted(below), Push(Rooted(below), Stack(below), ".."))
  {
    StackAppend(below, "..");
    assert below + "/" + ".." == below + "/..";
  }

  /** A name and the ".." after it cancel, and a "." does nothing. */
  lemma DotsCancel(base: string, name: string)
    requires base != "" && Plain(name)
    ensures Clean(base + "/" + name + "/..") == Clean(base) && Clean(base + "/.") == Clean(base)
  {
    StackAppend(base, name);
    ParentOf(base + "/" + name);
    UpAgain(Rooted(base), Stack(base), name);
    DotDrops(base);
  }
}
