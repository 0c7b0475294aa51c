/** The schema cache: a walk over a directory tree that files each schema under a text key, and the
    key a request asks for. */
module SchemaIndex {
  import opened GoPath
  import opened Text
  import opened Wrappers

  datatype Entry = File(name: string) | Dir(name: string, entries: seq<Entry>)

  /** A file's components below the schema directory; the cache's value is the schema compiled there. */
  type Path = seq<string>

  type Cache = map<string, Path>

  datatype LoadError = DoesNotCompile(path: Path) | TooShallow(path: Path) | EmptyComponent(path: Path)

  const JSON := ".json"

  predicate HasSuffix(s: string, suffix: string) {
    |s| >= |suffix| && s[|s| - |suffix|..] == suffix
  }

  function TrimSuffix(s: string, suffix: string): string {
    if HasSuffix(s, suffix) then s[..|s| - |suffix|] else s
  }

  function Key(domain: string, version: string, name: string): string {
    domain + "_" + version + "_" + name
  }

  /** The key of a file, from its first three components; deeper ones are not looked at. */
  function KeyOf(path: Path): string
    requires |path| >= 3
  {
    Key(TrimSpace(path[0]), TrimSpace(path[1]), TrimSuffix(TrimSpace(path[2]), JSON))
  }

  predicate HasEmpty(path: Path)
    requires |path| >= 3
  {
    TrimSpace(path[0]) == "" || TrimSpace(path[1]) == "" || TrimSuffix(TrimSpace(path[2]), JSON) == ""
  }

  /** The .json files below some entries, in walking order. */
  function Files(entries: seq<Entry>, at: Path): seq<Path>
    decreases entries
  {
    if entries == [] then []
    else
      (match entries[0]
       case Dir(name, below) => Files(below, at + [name])
       case File(name) => if HasSuffix(name, JSON) then [at + [name]] else [])
      + Files(entries[1..], at)
  }

  /** Following a path's names down from some entries leads to a .json file. */
  predicate Stands(entries: seq<Entry>, p: Path)
    decreases |p|, 1
  {
    exists i :: 0 <= i < |entries| && StandsAs(entries[i], p)
  }

  predicate StandsAs(entry: Entry, p: Path)
    decreases |p|, 0
  {
    p != [] && entry.name == p[0] &&
    if |p| == 1 then entry.File? && HasSuffix(entry.name, ".json") else entry.Dir? && Stands(entry.entries, p[1..])
  }

  lemma StandsFirst(entries: seq<Entry>, p: Path)
    requires entries != []
    ensures Stands(entries, p) <==> StandsAs(entries[0], p) || Stands(entries[1..], p)
  {
    if Stands(entries, p) {
      var i :| 0 <= i < |entries| && StandsAs(entries[i], p);
      assert i > 0 ==> entries[1..][i - 1] == entries[i];
    }
    if Stands(entries[1..], p) {
      var i :| 0 <= i < |entries[1..]| && StandsAs(entries[1..][i], p);
      assert entries[i + 1] == entries[1..][i];
    }
  }

  lemma {:induction false} FilesBelow(entries: seq<Entry>, at: Path)
    ensures forall q :: q in Files(entries, at) ==> at < q
    decreases entries
  {
    if entries != [] {
      FilesBelow(entries[1..], at);
      if entries[0].Dir? {
        FilesBelow(entries[0].entries, at + [entries[0].name]);
      }
    }
  }

  lemma NotUnder(at: Path, p: Path, name: string)
    requires p == [] || p[0] != name
    ensures !(at + [name] < at + p)
  {
    assert p != [] ==> (at + p)[|at|] == p[0];
    assert (at + [name])[|at|] == name;
  }

  /** The files below some entries are exactly those that stand there. */
  lemma {:induction false} FilesStand(entries: seq<Entry>, at: Path, p: Path)
    ensures at + p in Files(entries, at) <==> Stands(entries, p)
    decreases entries, 1
  {
    if entries != [] {
      FilesStand(entries[1..], at, p);
      StandsFirst(entries, p);
      if entries[0].Dir? {
        DirStands(entries, at, p);
      } else if HasSuffix(entries[0].name, JSON) {
        assert at + p == at + [entries[0].name] <==> p == [entries[0].name] by {
          assert (at + p)[|at|..] == p && (at + [entries[0].name])[|at|..] == [entries[0].name];
        }
      }
    }
  }

  lemma {:induction false} DirStands(entries: seq<Entry>, at: Path, p: Path)
    requires entries != [] && entries[0].Dir?
    ensures at + p in Files(entries[0].entries, at + [entries[0].name]) <==> StandsAs(entries[0], p)
    decreases entries, 0
  {
    var below, name := entries[0].entries, entries[0].name;
    FilesBelow(below, at + [name]);
    if p != [] && p[0] == name {
      assert at + p == at + [name] + p[1..];
      FilesStand(below, at + [name], p[1..]);
      if |p| == 1 { NothingStands(below); }
    } else {
      NotUnder(at, p, name);
    }
  }

  lemma NothingStands(entries: seq<Entry>)
    ensures !Stands(entries, [])
  {
  }

  /** Sibling names are distinct, at every level. */
  predicate DistinctNames(entries: seq<Entry>) {
    && (forall i, j :: 0 <= i < j < |entries| ==> entries[i].name != entries[j].name)
    && (forall i :: 0 <= i < |entries| && entries[i].Dir? ==> DistinctNames(entries[i].entries))
  }

  /** A walk in order meets p before q. */
  predicate WalksBefore(entries: seq<Entry>, p: Path, q: Path)
    decreases |p|
  {
    p != [] && q != [] &&
    exists i, j :: 0 <= i <= j < |entries| && entries[i].name == p[0] && entries[j].name == q[0]
      && (i < j || (entries[i].Dir? && WalksBefore(entries[i].entries, p[1..], q[1..])))
  }

  lemma WalksLater(entries: seq<Entry>, p: Path, q: Path)
    requires entries != [] && WalksBefore(entries[1..], p, q)
    ensures WalksBefore(entries, p, q)
  {
    var i, j :| 0 <= i <= j < |entries[1..]| && entries[1..][i].name == p[0] && entries[1..][j].name == q[0]
      && (i < j || (entries[1..][i].Dir? && WalksBefore(entries[1..][i].entries, p[1..], q[1..])));
    assert entries[i + 1] == entries[1..][i] && entries[j + 1] == entries[1..][j];
  }

  /** Where a file stands below, from the location its walk started at. */
  function Below(at: Path, q: Path): Path
    requires at <= q
  {
    q[|at|..]
  }

  lemma NamedFirst(entries: seq<Entry>, at: Path, q: Path) returns (i: nat)
    requires q in Files(entries, at)
    ensures at < q && i < |entries| && entries[i].name == q[|at|]
  {
    FilesBelow(entries, at);
    assert at + q[|at|..] == q;
    FilesStand(entries, at, q[|at|..]);
    i :| 0 <= i < |entries| && StandsAs(entries[i], q[|at|..]);
  }

  lemma {:induction false} FilesInOrder(entries: seq<Entry>, at: Path, a: nat, b: nat)
    requires a < b < |Files(entries, at)|
    ensures at < Files(entries, at)[a] && at < Files(entries, at)[b]
    ensures WalksBefore(entries, Below(at, Files(entries, at)[a]), Below(at, Files(entries, at)[b]))
    decreases entries
  {
    var entry, rest := entries[0], Files(entries[1..], at);
    var here := if entry.Dir? then Files(entry.entries, at + [entry.name])
                else if HasSuffix(entry.name, JSON) then [at + [entry.name]]
                else [];
    FilesBelow(entries, at);
    assert Files(entries, at) == here + rest;
    var p, q := Files(entries, at)[a], Files(entries, at)[b];
    assert p in Files(entries, at) && q in Files(entries, at);
    if a >= |here| {
      FilesInOrder(entries[1..], at, a - |here|, b - |here|);
      WalksLater(entries, Below(at, p), Below(at, q));
    } else if b >= |here| {
      assert q in rest;
      var j := NamedFirst(entries[1..], at, q);
      HereNamed(entry, at, here, p);
      assert entries[1..][j] == entries[j + 1];
    } else {
      FilesInOrder(entry.entries, at + [entry.name], a, b);
      assert Below(at, p)[1..] == Below(at + [entry.name], p) && Below(at, q)[1..] == Below(at + [entry.name], q);
      HereNamed(entry, at, here, p);
      HereNamed(entry, at, here, q);
    }
  }

  lemma HereNamed(entry: Entry, at: Path, here: seq<Path>, q: Path)
    requires here == if entry.Dir? then Files(entry.entries, at + [entry.name])
                     else if HasSuffix(entry.name, JSON) then [at + [entry.name]]
                     else []
    requires q in here && at < q
    ensures q[|at|] == entry.name
  {
    if entry.Dir? {
      FilesBelow(entry.entries, at + [entry.name]);
      assert (at + [entry.name])[|at|] == q[|at|];
    }
  }

  lemma {:induction false} NotBeforeItself(entries: seq<Entry>, p: Path)
    requires DistinctNames(entries)
    ensures !WalksBefore(entries, p, p)
    decreases |p|
  {
    if p != [] {
      forall i | 0 <= i < |entries| && entries[i].Dir? ensures !WalksBefore(entries[i].entries, p[1..], p[1..]) {
        NotBeforeItself(entries[i].entries, p[1..]);
      }
    }
  }

  /** The walk lists every file that stands in a tree, in walking order and, when sibling names are
      distinct, once. */
  lemma FilesExactly(entries: seq<Entry>)
    ensures var files := Files(entries, []);
      && (forall p :: p in files <==> Stands(entries, p))
      && (forall a, b :: 0 <= a < b < |files| ==> WalksBefore(entries, files[a], files[b]))
      && (DistinctNames(entries) ==> forall a, b :: 0 <= a < b < |files| ==> files[a] != files[b])
  {
    var files := Files(entries, []);
    StandingFiles(entries);
    forall a, b | 0 <= a < b < |files|
      ensures WalksBefore(entries, files[a], files[b])
      ensures DistinctNames(entries) ==> files[a] != files[b]
    {
      FilesInOrder(entries, [], a, b);
      assert Below([], files[a]) == files[a] && Below([], files[b]) == files[b];
      if DistinctNames(entries) { NotBeforeItself(entries, files[a]); }
    }
  }

  /** Why a file cannot be filed, in the order the reasons are looked at. */
  function Refusal(path: Path, compiles: Path -> bool): (r: Option<LoadError>)
    ensures r.None? ==> |path| >= 3
  {
    if !compiles(path) then Some(DoesNotCompile(path))
    else if |path| < 3 then Some(TooShallow(path))
    else if HasEmpty(path) then Some(EmptyComponent(path))
    else None
  }

  /** What is refused: a file that does not compile, lies less than three levels down, or has one of
      its first three names blank. */
  lemma RefusalExactly(path: Path, compiles: Path -> bool)
    ensures Refusal(path, compiles) == None <==>
      compiles(path) && |path| >= 3
      && TrimSpace(path[0]) != "" && TrimSpace(path[1]) != "" && TrimSpace(path[2]) !in {"", ".json"}
    ensures Refusal(path, compiles) == Some(DoesNotCompile(path)) <==> !compiles(path)
    ensures Refusal(path, compiles) == Some(TooShallow(path)) <==> compiles(path) && |path| < 3
  {
    if |path| >= 3 { SuffixOnly(TrimSpace(path[2])); }
  }

  lemma SuffixOnly(s: string)
    ensures TrimSuffix(s, ".json") == "" <==> s in {"", ".json"}
  {
    if HasSuffix(s, ".json") { assert s == s[..|s| - 5] + s[|s| - 5..]; }
  }

  /** One file after another, up to the first that is refused. */
  function AddFiles(cache: Cache, files: seq<Path>, compiles: Path -> bool): (Cache, Option<LoadError>)
    decreases |files|
  {
    if files == [] then (cache, None)
    else if Refusal(files[0], compiles).Some? then (cache, Refusal(files[0], compiles))
    else AddFiles(cache[KeyOf(files[0]) := files[0]], files[1..], compiles)
  }

  lemma {:induction false} AddFilesConcat(cache: Cache, a: seq<Path>, b: seq<Path>, compiles: Path -> bool)
    ensures AddFiles(cache, a + b, compiles) ==
      var (next, error) := AddFiles(cache, a, compiles);
      if error.Some? then (next, error) else AddFiles(next, b, compiles)
    decreases |a|
  {
    if a == [] {
      assert a + b == b;
    } else {
      assert (a + b)[1..] == a[1..] + b;
      if Refusal(a[0], compiles).None? {
        AddFilesConcat(cache[KeyOf(a[0]) := a[0]], a[1..], b, compiles);
      }
    }
  }

  lemma AddOne(cache: Cache, path: Path, compiles: Path -> bool)
    ensures AddFiles(cache, [path], compiles) ==
      if Refusal(path, compiles).Some? then (cache, Refusal(path, compiles)) else (cache[KeyOf(path) := path], None)
  {
    var one: seq<Path> := [path];
    assert one[1..] == [];
  }

  class SchemaValidator {
    var schemaCache: Cache

    constructor ()
      ensures schemaCache == map[]
    {
      schemaCache := map[];
    }

    /** The recursive walk does what one pass over all .json files below does: it stops at the first
        that is refused, with its error, and the cache keeps what was filed before. */
    method ProcessDir(entries: seq<Entry>, at: Path, compiles: Path -> bool) returns (error: Option<LoadError>)
      modifies this
      ensures (schemaCache, error) == AddFiles(old(schemaCache), Files(entries, at), compiles)
      decreases entries
    {
      for k := 0 to |entries|
        invariant AddFiles(old(schemaCache), Files(entries, at), compiles)
               == AddFiles(schemaCache, Files(entries[k..], at), compiles)
      {
        assert entries[k..][0] == entries[k] && entries[k..][1..] == entries[k + 1..];
        ghost var rest := Files(entries[k + 1..], at);
        match entries[k]
        case Dir(name, below) =>
          AddFilesConcat(schemaCache, Files(below, at + [name]), rest, compiles);
          error := ProcessDir(below, at + [name], compiles);
          if error.Some? {
            return;
          }
        case File(name) =>
          if HasSuffix(name, JSON) {
            var path := at + [name];
            AddFilesConcat(schemaCache, [path], rest, compiles);
            AddOne(schemaCache, path, compiles);
            if !compiles(path) {
              return Some(DoesNotCompile(path));
            }
            if |path| < 3 {
              return Some(TooShallow(path));
            }
            var domain, version := TrimSpace(path[0]), TrimSpace(path[1]);
            var schemaFileName := TrimSuffix(TrimSpace(path[2]), JSON);
            if domain == "" || version == "" || schemaFileName == "" {
              return Some(EmptyComponent(path));
            }
            schemaCache := schemaCache[Key(domain, version, schemaFileName) := path];
          } else {
            assert [] + rest == rest;
          }
      }
      return None;
    }
  }

  predicate Deep(files: seq<Path>) {
    forall p :: p in files ==> |p| >= 3
  }

  function Filled(cache: Cache, files: seq<Path>): Cache
    requires Deep(files)
    decreases files
  {
    if files == [] then cache else Filled(cache[KeyOf(files[0]) := files[0]], files[1..])
  }

  /** Every file is filed when none is refused; otherwise the first refused one gives the error, and
      the cache holds the files before it. */
  lemma {:induction false} AddFilesExactly(cache: Cache, files: seq<Path>, compiles: Path -> bool)
    returns (n: nat)
    ensures n <= |files| && forall i :: 0 <= i < n ==> Refusal(files[i], compiles).None?
    ensures n < |files| ==> Refusal(files[n], compiles).Some?
    ensures Deep(files[..n])
    ensures AddFiles(cache, files, compiles) ==
      (Filled(cache, files[..n]), if n < |files| then Refusal(files[n], compiles) else None)
    decreases |files|
  {
    if files == [] || Refusal(files[0], compiles).Some? {
      n := 0;
    } else {
      var m := AddFilesExactly(cache[KeyOf(files[0]) := files[0]], files[1..], compiles);
      n := m + 1;
      assert files[..n] == [files[0]] + files[1..][..m];
      assert forall i :: 0 < i <= m ==> files[i] == files[1..][i - 1];
    }
  }

  // ---- When keys are unambiguous ----

  /** "_v" does not occur. */
  predicate NoMark(s: string) {
    forall i :: 0 <= i < |s| - 1 ==> !(s[i] == '_' && s[i + 1] == 'v')
  }

  /** Lower-casing one character: done when done once, and the usual thing on ASCII. */
  type Lowering = f: char -> char |
    (forall c :: f(f(c)) == f(c)) && (forall c :: c as int < 128 ==> f(c) == AsciiLower(c))
    witness AsciiLower

  predicate Lower(s: string, lower: Lowering) {
    forall c :: c in s ==> lower(c) == c
  }

  predicate NameLike(s: string) {
    s !in {"", ".", ".."} && '/' !in s && CleanEdges(s, IsSpace)
  }

  /** A file three levels down with the naming the schema directory documents. */
  predicate Conforms(path: Path, lower: Lowering) {
    && |path| == 3
    && NameLike(path[0]) && Lower(path[0], lower) && ':' !in path[0] && NoMark(path[0])
    && NameLike(path[1]) && path[1][0] == 'v' && '_' !in path[1]
    && NameLike(path[2]) && HasSuffix(path[2], JSON) && |path[2]| > |JSON|
  }

  function Stem(path: Path, lower: Lowering): string
    requires Conforms(path, lower)
  {
    path[2][..|path[2]| - |JSON|]
  }

  lemma ConformingKey(path: Path, lower: Lowering)
    requires Conforms(path, lower)
    ensures KeyOf(path) == Key(path[0], path[1], Stem(path, lower)) && !HasEmpty(path)
  {
  }

  /** Where "_v" first occurs. */
  function FirstMark(s: string): (i: nat)
    ensures i <= |s|
  {
    if |s| < 2 then |s| else if s[0] == '_' && s[1] == 'v' then 0 else 1 + FirstMark(s[1..])
  }

  function FirstUnderscore(s: string): (i: nat)
    ensures i <= |s| && '_' !in s[..i] && (i < |s| ==> s[i] == '_')
  {
    if s == "" || s[0] == '_' then 0
    else
      assert forall i :: 0 < i <= |s| ==> s[..i] == [s[0]] + s[1..][..i - 1];
      1 + FirstUnderscore(s[1..])
  }

  /** The one conforming file a key can belong to. */
  function FileOf(key: string): Path {
    var i := FirstMark(key);
    var rest := if i < |key| then key[i + 1..] else "";
    var j := FirstUnderscore(rest);
    [key[..i], rest[..j], (if j < |rest| then rest[j + 1..] else "") + JSON]
  }

  lemma {:induction false} MarkAfter(d: string, rest: string)
    requires rest != "" && rest[0] == 'v'
    ensures FirstMark(d + "_" + rest) == FirstMark(d)
  {
    var s := d + "_" + rest;
    if d == "" {
      assert s == "_" + rest;
    } else {
      assert s[1..] == d[1..] + "_" + rest;
      assert s[1] == if |d| > 1 then d[1] else '_';
      MarkAfter(d[1..], rest);
    }
  }

  lemma {:induction false} BeforeMark(s: string)
    ensures NoMark(s[..FirstMark(s)])
    ensures NoMark(s) <==> FirstMark(s) == |s|
    ensures !NoMark(s) ==> FirstMark(s) < |s| - 1 && s[FirstMark(s)] == '_' && s[FirstMark(s) + 1] == 'v'
  {
    if |s| >= 2 && !(s[0] == '_' && s[1] == 'v') {
      BeforeMark(s[1..]);
      var i := FirstMark(s[1..]);
      var before, after := s[..i + 1], s[1..][..i];
      assert before == [s[0]] + after;
      assert forall k :: 0 < k < |s| ==> s[k] == s[1..][k - 1];
      forall k | 0 <= k < |before| - 1 ensures !(before[k] == '_' && before[k + 1] == 'v') {
        if k > 0 {
          assert before[k] == after[k - 1] && before[k + 1] == after[k];
        }
      }
    }
  }

  lemma {:induction false} UnderscoreAfter(v: string, rest: string)
    requires '_' !in v
    ensures FirstUnderscore(v + "_" + rest) == |v|
  {
    if v == "" {
      assert v + "_" + rest == "_" + rest;
    } else {
      assert (v + "_" + rest)[1..] == v[1..] + "_" + rest;
      UnderscoreAfter(v[1..], rest);
    }
  }

  lemma KeyNests(d: string, v: string, n: string)
    ensures Key(d, v, n) == d + "_" + (v + "_" + n)
  {
  }

  lemma Around(a: string, b: string)
    ensures (a + "_" + b)[..|a|] == a && (a + "_" + b)[|a| + 1..] == b
  {
  }

  lemma KeyReads(d: string, v: string, n: string)
    requires NoMark(d) && v != "" && v[0] == 'v' && '_' !in v
    ensures FileOf(Key(d, v, n)) == [d, v, n + JSON]
  {
    var rest := v + "_" + n;
    KeyNests(d, v, n);
    assert FirstMark(Key(d, v, n)) == |d| by {
      MarkAfter(d, rest);
      BeforeMark(d);
    }
    UnderscoreAfter(v, n);
    Around(d, rest);
    Around(v, n);
  }

  lemma Reassembled(path: Path, lower: Lowering)
    requires Conforms(path, lower)
    ensures path == [path[0], path[1], Stem(path, lower) + JSON]
  {
    assert path[2] == Stem(path, lower) + JSON;
  }

  /** A conforming file's key leads back to the file, so distinct files have distinct keys. */
  lemma KeyRoundTrip(path: Path, lower: Lowering)
    requires Conforms(path, lower)
    ensures FileOf(KeyOf(path)) == path
  {
    ConformingKey(path, lower);
    KeyReads(path[0], path[1], Stem(path, lower));
    Reassembled(path, lower);
  }

  lemma DistinctFilesDistinctKeys(p: Path, q: Path, lower: Lowering)
    requires Conforms(p, lower) && Conforms(q, lower) && p != q
    ensures KeyOf(p) != KeyOf(q)
  {
    KeyRoundTrip(p, lower);
    KeyRoundTrip(q, lower);
  }

  /** The cache holds exactly these files, each under its own key. */
  predicate Holds(cache: Cache, files: seq<Path>)
    requires Deep(files)
  {
    && (forall p :: p in files ==> KeyOf(p) in cache && cache[KeyOf(p)] == p)
    && (forall k :: k in cache ==> cache[k] in files && KeyOf(cache[k]) == k)
  }

  lemma HoldsOneMore(cache: Cache, done: seq<Path>, p: Path)
    requires Deep(done + [p]) && Deep(done) && Holds(cache, done)
    requires forall q :: q in done && KeyOf(q) == KeyOf(p) ==> q == p
    ensures Holds(cache[KeyOf(p) := p], done + [p])
  {
    var key := KeyOf(p);
    var next := cache[key := p];
    forall q | q in done + [p] ensures KeyOf(q) in next && next[KeyOf(q)] == q {
      if q != p { assert q in done; }
    }
    forall k | k in next ensures next[k] in done + [p] && KeyOf(next[k]) == k {
      if k != key { assert k in cache && cache[k] in done; }
    }
  }

  lemma {:induction false} FilledHolds(cache: Cache, done: seq<Path>, files: seq<Path>)
    requires Deep(done) && Deep(files) && Deep(done + files) && Holds(cache, done)
    requires forall p, q :: p in done + files && q in done + files && KeyOf(p) == KeyOf(q) ==> p == q
    ensures Holds(Filled(cache, files), done + files)
    decreases files
  {
    if files == [] {
      assert done + files == done;
    } else {
      var p := files[0];
      assert p in done + files;
      assert done + files == (done + [p]) + files[1..];
      HoldsOneMore(cache, done, p);
      FilledHolds(cache[KeyOf(p) := p], done + [p], files[1..]);
    }
  }

  /** A file filed later under the same key takes the place of an earlier one. */
  lemma {:induction false} LaterFileWins(cache: Cache, files: seq<Path>, p: Path)
    requires Deep(files) && Deep(files + [p]) && |p| >= 3
    ensures Filled(cache, files + [p]) == Filled(cache, files)[KeyOf(p) := p]
    decreases files
  {
    if files == [] {
      assert files + [p] == [p];
    } else {
      assert (files + [p])[1..] == files[1..] + [p];
      LaterFileWins(cache[KeyOf(files[0]) := files[0]], files[1..], p);
    }
  }

  predicate AllConform(files: seq<Path>, lower: Lowering)
    ensures AllConform(files, lower) ==> Deep(files)
  {
    forall p :: p in files ==> Conforms(p, lower)
  }

  /** The cache a tree loads, all of its schemas compiling. */
  function CacheOf(entries: seq<Entry>): Cache {
    AddFiles(map[], Files(entries, []), (path: Path) => true).0
  }

  lemma ConformingRefusal(path: Path, lower: Lowering, compiles: Path -> bool)
    requires Conforms(path, lower)
    ensures Refusal(path, compiles).None? <==> compiles(path)
  {
    ConformingKey(path, lower);
  }

  /** Loading a conforming tree succeeds exactly when every schema compiles, and then files every
      schema exactly once. */
  lemma ConformingTreeLoads(entries: seq<Entry>, lower: Lowering, compiles: Path -> bool)
    requires AllConform(Files(entries, []), lower)
    ensures var (cache, error) := AddFiles(map[], Files(entries, []), compiles);
      && (error.None? <==> forall p :: p in Files(entries, []) ==> compiles(p))
      && (error.None? ==> Holds(cache, Files(entries, [])))
  {
    var files := Files(entries, []);
    var n := AddFilesExactly(map[], files, compiles);
    forall p | p in files ensures Refusal(p, compiles).None? <==> compiles(p) { ConformingRefusal(p, lower, compiles); }
    if n == |files| {
      assert files[..n] == files;
      forall p, q | p in files && q in files && KeyOf(p) == KeyOf(q) ensures p == q {
        if p != q { DistinctFilesDistinctKeys(p, q, lower); }
      }
      assert [] + files == files;
      FilledHolds(map[], [], files);
    } else {
      assert files[n] in files;
    }
  }

  /** The cache holds exactly the files that stand in the tree, each under its own key. */
  ghost predicate HoldsTree(cache: Cache, entries: seq<Entry>) {
    && (forall p :: Stands(entries, p) ==> |p| >= 3 && KeyOf(p) in cache && cache[KeyOf(p)] == p)
    && (forall k :: k in cache ==> Stands(entries, cache[k]) && |cache[k]| >= 3 && KeyOf(cache[k]) == k)
  }

  /** The same for a tree as it stands: it loads exactly when every schema in it compiles, and then
      every one of them, and nothing else, is filed under its own key. */
  lemma ConformingTreeExactly(entries: seq<Entry>, lower: Lowering, compiles: Path -> bool)
    requires forall p :: Stands(entries, p) ==> Conforms(p, lower)
    ensures var (cache, error) := AddFiles(map[], Files(entries, []), compiles);
      && (error.None? <==> forall p :: Stands(entries, p) ==> compiles(p))
      && (error.None? ==> HoldsTree(cache, entries))
  {
    var files := Files(entries, []);
    StandingFiles(entries);
    ConformingTreeLoads(entries, lower, compiles);
    var (cache, error) := AddFiles(map[], files, compiles);
    if error.None? { HoldsStanding(entries, cache, files); }
  }

  lemma HoldsStanding(entries: seq<Entry>, cache: Cache, files: seq<Path>)
    requires Deep(files) && Holds(cache, files) && forall p :: p in files <==> Stands(entries, p)
    ensures HoldsTree(cache, entries)
  {
  }

  lemma StandingFiles(entries: seq<Entry>)
    ensures forall p :: p in Files(entries, []) <==> Stands(entries, p)
  {
    forall p ensures p in Files(entries, []) <==> Stands(entries, p) {
      FilesStand(entries, [], p);
      assert [] + p == p;
    }
  }

  // ---- What a request asks for ----

  function KeyChar(c: char, lower: Lowering): char {
    if lower(c) == ':' then '_' else lower(c)
  }

  /** Lower case, with colons made underscores. */
  function Normalise(domain: string, lower: Lowering): (s: string)
    ensures |s| == |domain| && Lower(s, lower) && ':' !in s
    ensures forall i :: 0 <= i < |s| ==> s[i] == KeyChar(domain[i], lower)
  {
    seq(|domain|, i requires 0 <= i < |domain| => KeyChar(domain[i], lower))
  }

  datatype Request = Request(domain: string, version: string, coreVersion: string, path: string)

  datatype LookupError = NoDomain | NoVersion | NoSchema

  function VersionOf(r: Request): string {
    if r.version == "" then r.coreVersion else r.version
  }

  function RequestKey(r: Request, lower: Lowering): string {
    Key(Normalise(r.domain, lower), "v" + VersionOf(r), Base(r.path))
  }

  function Lookup(cache: Cache, r: Request, lower: Lowering): Result<Path, LookupError> {
    if r.domain == "" then Err(NoDomain)
    else if VersionOf(r) == "" then Err(NoVersion)
    else if RequestKey(r, lower) !in cache then Err(NoSchema)
    else Ok(cache[RequestKey(r, lower)])
  }

  /** The file the directory layout promises for a request. */
  function Promised(r: Request, lower: Lowering): Path {
    [Normalise(r.domain, lower), "v" + VersionOf(r), Base(r.path) + JSON]
  }

  /** The request's domain and version leave no doubt where the key's parts end. */
  predicate Unambiguous(r: Request, lower: Lowering) {
    NoMark(Normalise(r.domain, lower)) && '_' !in VersionOf(r)
  }

  lemma PromisedKey(r: Request, lower: Lowering)
    requires Conforms(Promised(r, lower), lower)
    ensures KeyOf(Promised(r, lower)) == RequestKey(r, lower)
  {
    var p := Promised(r, lower);
    ConformingKey(p, lower);
    assert Stem(p, lower) == Base(r.path);
  }

  /** For an unambiguous request the lookup finds the promised file when the tree has it, and
      nothing otherwise. */
  lemma LookupFindsPromised(cache: Cache, files: seq<Path>, r: Request, lower: Lowering)
    requires AllConform(files, lower) && Holds(cache, files)
    requires r.domain != "" && VersionOf(r) != "" && Unambiguous(r, lower)
    ensures Lookup(cache, r, lower) == if Promised(r, lower) in files then Ok(Promised(r, lower)) else Err(NoSchema)
  {
    KeyReads(Normalise(r.domain, lower), "v" + VersionOf(r), Base(r.path));
    if RequestKey(r, lower) in cache { KeyRoundTrip(cache[RequestKey(r, lower)], lower); }
    if Promised(r, lower) in files { PromisedKey(r, lower); }
  }

  /** A conforming tree answers an unambiguous request with the file of its lower-cased domain, its
      version, or core version, and its endpoint, if that file stands in the tree. */
  lemma TreeAnswers(entries: seq<Entry>, r: Request, lower: Lowering, v: string, p: Path)
    requires forall q :: Stands(entries, q) ==> Conforms(q, lower)
    requires v == (if r.version != "" then r.version else r.coreVersion) && r.domain != "" && v != ""
    requires p == [Normalise(r.domain, lower), "v" + v, Base(r.path) + ".json"]
    requires NoMark(p[0]) && '_' !in v
    ensures Lookup(CacheOf(entries), r, lower) == if Stands(entries, p) then Ok(p) else Err(NoSchema)
  {
    StandingFiles(entries);
    ConformingTreeLoads(entries, lower, (path: Path) => true);
    LookupFindsPromised(CacheOf(entries), Files(entries, []), r, lower);
  }

  /** A request without a domain, or without any version, is refused before the lookup. */
  lemma LookupRefuses(cache: Cache, r: Request, lower: Lowering)
    ensures Lookup(cache, r, lower) == Err(NoDomain) <==> r.domain == ""
    ensures Lookup(cache, r, lower) == Err(NoVersion) <==> r.domain != "" && r.version == "" && r.coreVersion == ""
  {
  }

  // ---- Exactly which requests can be answered with the wrong file ----

  /** Some conforming tree answers the request with a file that is not the promised one. */
  ghost predicate Misleads(r: Request, lower: Lowering) {
    exists entries ::
      AllConform(Files(entries, []), lower) && Lookup(CacheOf(entries), r, lower).Ok?
      && Lookup(CacheOf(entries), r, lower).value != Promised(r, lower)
  }

  /** Cut at its first mark and the next underscore, the request's key reads as three names. */
  predicate ReadsAsNames(r: Request, lower: Lowering) {
    forall component :: component in FileOf(RequestKey(r, lower)) ==> NameLike(component)
  }

  lemma MarkShows(d: string, rest: string, s: string)
    requires s == d + "_" + rest && rest != "" && rest[0] == 'v'
    ensures FirstMark(d) <= |d| && s[FirstMark(d)] == '_' && s[FirstMark(d) + 1] == 'v'
    ensures s[..FirstMark(d)] == d[..FirstMark(d)]
  {
    BeforeMark(d);
  }

  lemma MarkInside(d: string, w: string, e: string, key: string)
    requires key == Key(d, "v" + w, e)
    ensures FirstMark(key) == FirstMark(d) <= |d|
    ensures key[FirstMark(d)] == '_' && key[FirstMark(d) + 1] == 'v' && key[..FirstMark(d)] == d[..FirstMark(d)]
  {
    KeyNests(d, "v" + w, e);
    MarkAfter(d, "v" + w + "_" + e);
    MarkShows(d, "v" + w + "_" + e, key);
  }

  lemma UnderscoreBy(s: string, k: nat)
    requires k < |s| && s[k] == '_'
    ensures FirstUnderscore(s) <= k && s[FirstUnderscore(s)] == '_'
  {
  }

  lemma Halves(s: string, i: nat)
    requires i < |s| && s[i] == '_'
    ensures s == s[..i] + "_" + s[i + 1..]
  {
  }

  lemma Cut(key: string, i: nat, rest: string, k: nat)
    requires i < |key| && key[i] == '_' && rest == key[i + 1..]
    requires k < |rest| - 1 && rest[0] == 'v' && rest[k] == '_'
    ensures 0 < FirstUnderscore(rest) <= k
    ensures key == Key(key[..i], rest[..FirstUnderscore(rest)], rest[FirstUnderscore(rest) + 1..])
  {
    UnderscoreBy(rest, k);
    var j := FirstUnderscore(rest);
    Halves(key, i);
    Halves(rest, j);
    KeyNests(key[..i], rest[..j], rest[j + 1..]);
  }

  /** Some underscore follows the first mark, and something follows it. */
  lemma SeparatorAfter(d: string, w: string, e: string, key: string, i: nat, rest: string) returns (k: nat)
    requires e != "" && key == Key(d, "v" + w, e) && i <= |d| && rest == key[i + 1..]
    ensures k < |rest| - 1 && rest[k] == '_'
  {
    if i == |d| {
      assert rest == "v" + w + "_" + e;
      k := 1 + |w|;
    } else {
      k := |d| - i - 1;
      assert rest[k] == key[|d|] == '_';
    }
  }

  /** A key cut at its first mark and the next underscore: three parts that make it up again. */
  lemma KeyCut(d: string, w: string, e: string, key: string, i: nat, rest: string, j: nat)
    requires e != "" && key == Key(d, "v" + w, e) && i <= |d| && rest == key[i + 1..] && j == FirstUnderscore(rest)
    requires key[i] == '_' && rest != "" && rest[0] == 'v'
    ensures 0 < j < |rest| - 1 && key == Key(key[..i], rest[..j], rest[j + 1..])
  {
    var k := SeparatorAfter(d, w, e, key, i, rest);
    Cut(key, i, rest, k);
  }

  lemma DomainPart(d: string, i: nat, lower: Lowering)
    requires Lower(d, lower) && ':' !in d && i <= |d|
    ensures Lower(d[..i], lower) && ':' !in d[..i]
  {
    forall c | c in d[..i] ensures c != ':' && lower(c) == c { assert c in d; }
  }

  lemma PartsConform(d: string, v: string, n: string, lower: Lowering)
    requires NameLike(d) && NameLike(v) && NameLike(n + JSON) && n != ""
    requires Lower(d, lower) && ':' !in d && NoMark(d) && v[0] == 'v' && '_' !in v
    ensures Conforms([d, v, n + JSON], lower) && KeyOf([d, v, n + JSON]) == Key(d, v, n)
  {
    var p := [d, v, n + JSON];
    assert (n + JSON)[|n|..] == JSON && (n + JSON)[..|n|] == n;
    ConformingKey(p, lower);
    assert Stem(p, lower) == n;
  }

  /** Read as a file name, any key whose parts can be names gives a conforming file with that very key. */
  lemma KeyHasFile(d: string, w: string, e: string, key: string, lower: Lowering)
    requires Lower(d, lower) && ':' !in d && e != "" && key == Key(d, "v" + w, e)
    requires forall component :: component in FileOf(key) ==> NameLike(component)
    ensures Conforms(FileOf(key), lower) && KeyOf(FileOf(key)) == key
  {
    var i := FirstMark(d);
    MarkInside(d, w, e, key);
    BeforeMark(d);
    DomainPart(d, i, lower);
    var rest := key[i + 1..];
    var j := FirstUnderscore(rest);
    KeyCut(d, w, e, key, i, rest, j);
    var p := [key[..i], rest[..j], rest[j + 1..] + JSON];
    assert FileOf(key) == p;
    assert p[0] in p && p[1] in p && p[2] in p;
    PartsConform(key[..i], rest[..j], rest[j + 1..], lower);
  }

  /** The file a key is read as is the promised one exactly when the request is unambiguous. */
  lemma ReadsAsPromised(d: string, w: string, e: string)
    ensures FileOf(Key(d, "v" + w, e)) == [d, "v" + w, e + JSON] <==> NoMark(d) && '_' !in w
  {
    MarkInside(d, w, e, Key(d, "v" + w, e));
    BeforeMark(d);
    if NoMark(d) && '_' !in w {
      KeyReads(d, "v" + w, e);
    }
  }

  /** The one-file tree of a path. */
  function TreeOf(p: Path): seq<Entry>
    requires |p| == 3
  {
    [Dir(p[0], [Dir(p[1], [File(p[2])])])]
  }

  lemma FilesOne(entry: Entry, at: Path)
    ensures Files([entry], at) ==
            if entry.Dir? then Files(entry.entries, at + [entry.name])
            else if HasSuffix(entry.name, JSON) then [at + [entry.name]]
            else []
  {
  }

  lemma HoldsOne(cache: Cache, p: Path)
    requires Deep([p]) && Holds(cache, [p]) && |p| >= 3
    ensures cache == map[KeyOf(p) := p]
  {
  }

  lemma OneFileTree(p: Path, lower: Lowering)
    requires Conforms(p, lower)
    ensures Files(TreeOf(p), []) == [p] && AllConform(Files(TreeOf(p), []), lower)
    ensures CacheOf(TreeOf(p)) == map[KeyOf(p) := p]
  {
    FilesOne(File(p[2]), [] + [p[0]] + [p[1]]);
    FilesOne(Dir(p[1], [File(p[2])]), [] + [p[0]]);
    FilesOne(Dir(p[0], [Dir(p[1], [File(p[2])])]), []);
    assert [] + [p[0]] + [p[1]] + [p[2]] == p;
    ConformingTreeLoads(TreeOf(p), lower, (path: Path) => true);
    HoldsOne(CacheOf(TreeOf(p)), p);
  }

  lemma ConformingNames(p: Path, lower: Lowering)
    requires Conforms(p, lower)
    ensures forall component :: component in p ==> NameLike(component)
  {
    assert p == [p[0], p[1], p[2]];
  }

  /** A request can be answered with the wrong file exactly when it has a domain and a version, one
      of them hides a separator, and its key still reads as three names. */
  lemma MisleadsExactly(r: Request, lower: Lowering)
    ensures Misleads(r, lower) <==>
      r.domain != "" && VersionOf(r) != "" && !Unambiguous(r, lower) && ReadsAsNames(r, lower)
  {
    var d, w, e := Normalise(r.domain, lower), VersionOf(r), Base(r.path);
    if Misleads(r, lower) {
      var entries :| AllConform(Files(entries, []), lower) && Lookup(CacheOf(entries), r, lower).Ok?
                     && Lookup(CacheOf(entries), r, lower).value != Promised(r, lower);
      var files := Files(entries, []);
      ConformingTreeLoads(entries, lower, (path: Path) => true);
      var p := CacheOf(entries)[RequestKey(r, lower)];
      assert p in files && KeyOf(p) == RequestKey(r, lower);
      KeyRoundTrip(p, lower);
      ConformingNames(p, lower);
      if Unambiguous(r, lower) { LookupFindsPromised(CacheOf(entries), files, r, lower); }
    }
    if r.domain != "" && VersionOf(r) != "" && !Unambiguous(r, lower) && ReadsAsNames(r, lower) {
      LastNotEmpty(r.path);
      KeyHasFile(d, w, e, RequestKey(r, lower), lower);
      ReadsAsPromised(d, w, e);
      OneFileTree(FileOf(RequestKey(r, lower)), lower);
      assert Lookup(CacheOf(TreeOf(FileOf(RequestKey(r, lower)))), r, lower) == Ok(FileOf(RequestKey(r, lower)));
    }
  }

  lemma LastNotEmpty(path: string)
    ensures Base(path) != ""
  {
  }

  lemma AmbiguousText(domain: string, lower: Lowering)
    requires domain == "a:v1"
    ensures Normalise(domain, lower) == "a_v1" && !NoMark(Normalise(domain, lower))
  {
    var d := Normalise(domain, lower);
    assert d == "a_v1";
    assert d[1] == '_' && d[2] == 'v';
  }

  lemma KeysMeet()
    ensures Key("a_v1", "v" + "2", "x") == Key("a", "v1", "v2_x")
  {
  }

  lemma AmbiguousDomain(r: Request, lower: Lowering)
    requires r == Request("a:v1", "2", "", "/x")
    ensures RequestKey(r, lower) == Key("a", "v1", "v2_x") && !Unambiguous(r, lower)
  {
    LetterBase('x');
    assert "/x" == ['/', 'x'];
    AmbiguousText(r.domain, lower);
    KeysMeet();
  }

  lemma AmbiguousNames(key: string)
    requires key == Key("a", "v1", "v2_x")
    ensures FileOf(key) == ["a", "v1", "v2_x" + JSON]
    ensures forall component :: component in FileOf(key) ==> NameLike(component)
  {
    KeyReads("a", "v1", "v2_x");
    assert NameLike("a") && NameLike("v1") && NameLike("v2_x" + JSON);
  }

  /** Domain "a:v1" with version "2" can be given a/v1/v2_x.json for a_v1/v2/x.json. */
  lemma MisleadingRequest(r: Request, lower: Lowering)
    requires r == Request("a:v1", "2", "", "/x")
    ensures Misleads(r, lower)
  {
    AmbiguousDomain(r, lower);
    AmbiguousNames(RequestKey(r, lower));
    MisleadsExactly(r, lower);
  }
}
