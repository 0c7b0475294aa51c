/** L1 validation rules as data, and what evaluating a rule tree means.

    Every generated validation file is built from two templates: a leaf, which checks each
    element of a scope, and a group, which runs nested rules for each element of a scope.
    This module gives the rule tree, the meaning of one evaluation (`Eval`) and a second,
    independent reading in terms of leaf positions (`FailingPaths`). */
module RuleTree {
  import opened Wrappers

  datatype Json =
    | Null
    | Bool(b: bool)
    | Number(n: real)
    | Str(s: string)
    | Array(items: seq<Json>)
    | Object(fields: Fields)

  type Fields = map<string, Json>

  /** An element a JSONPath query selects: an object with these fields, or anything else. */
  datatype Element = ObjectElement(fields: Fields) | OtherElement

  /** What the query for each path selects from one payload. */
  type Document = string -> seq<Element>

  type Predicate = Fields -> bool

  datatype Rule =
    | Leaf(name: string, scope: string, skip: Predicate, check: Predicate,
           description: string, config: string)
    | Group(name: string, scope: string, skip: Predicate, children: seq<Rule>)

  datatype Output = Output(name: string, valid: bool, code: int, description: string, debug: Option<string>)

  /** An evaluation error carries the name of the rule whose scope held a non-object. */
  type Evaluation = Result<seq<Output>, string>

  const EXTERNAL := "_EXTERNAL"
  const NESTED := "NESTED_TEST_OBJECT"
  const CODE_VALID := 200
  const CODE_INVALID := 30000

  /** The object a rule looks at: the element's fields with the external data under its own key. */
  function Visible(fields: Fields, external: Fields): Fields {
    fields[EXTERNAL := Object(external)]
  }

  predicate Applies(rule: Rule, e: Element, external: Fields) {
    e.ObjectElement? && !rule.skip(Visible(e.fields, external))
  }

  predicate Passes(rule: Rule, e: Element, external: Fields)
    requires rule.Leaf?
  {
    e.ObjectElement? && (Applies(rule, e, external) ==> rule.check(Visible(e.fields, external)))
  }

  /** The leaf's scan reaches element i: everything before it passed. */
  predicate Scans(rule: Rule, scope: seq<Element>, external: Fields, i: nat)
    requires rule.Leaf? && i <= |scope|
  {
    forall j :: 0 <= j < i ==> Passes(rule, scope[j], external)
  }

  predicate LeafFails(rule: Rule, doc: Document, external: Fields)
    requires rule.Leaf?
  {
    var scope := doc(rule.scope);
    exists i :: 0 <= i < |scope| && scope[i].ObjectElement?
             && !Passes(rule, scope[i], external) && Scans(rule, scope, external, i)
  }

  predicate LeafErrs(rule: Rule, doc: Document, external: Fields)
    requires rule.Leaf?
  {
    var scope := doc(rule.scope);
    exists i :: 0 <= i < |scope| && scope[i].OtherElement? && Scans(rule, scope, external, i)
  }

  /** Some scope element is an object the rule does not skip. */
  predicate Entered(rule: Rule, doc: Document, external: Fields) {
    exists e :: e in doc(rule.scope) && Applies(rule, e, external)
  }

  /** A non-object comes before every element the group would run its children for. */
  predicate BlockedEarly(rule: Rule, doc: Document, external: Fields) {
    var scope := doc(rule.scope);
    exists i :: 0 <= i < |scope| && scope[i].OtherElement?
             && forall j :: 0 <= j < i ==> !Applies(rule, scope[j], external)
  }

  predicate AllValid(outputs: seq<Output>) {
    forall i :: 0 <= i < |outputs| ==> outputs[i].valid
  }

  function Entry(name: string, valid: bool, config: string): Output {
    Output(name, valid, if valid then CODE_VALID else CODE_INVALID, "", Some(config))
  }

  function Failure(rule: Rule): Output
    requires rule.Leaf?
  {
    Output(rule.name, false, CODE_INVALID, rule.description, Some(rule.config))
  }

  /** What evaluating a rule yields: its own entry first, then the entries below it. */
  function Eval(rule: Rule, doc: Document, external: Fields): Evaluation
    decreases rule, 1
  {
    match rule
    case Leaf(_, _, _, _, _, _) =>
      if LeafErrs(rule, doc, external) then Err(rule.name)
      else if LeafFails(rule, doc, external) then Ok([Failure(rule)])
      else Ok([Entry(rule.name, true, if Entered(rule, doc, external) then rule.config else "")])
    case Group(_, _, _, children) =>
      var nested := EvalAll(children, doc, external);
      if BlockedEarly(rule, doc, external) then Err(rule.name)
      else if Entered(rule, doc, external) && nested.Err? then nested
      else if OtherElement in doc(rule.scope) then Err(rule.name)
      else if Entered(rule, doc, external) then
        Ok([Entry(rule.name, AllValid(nested.value), NESTED)] + nested.value)
      else Ok([Entry(rule.name, true, "")])
  }

  /** Children run in order; the first error stops them. */
  function EvalAll(rules: seq<Rule>, doc: Document, external: Fields): Evaluation
    decreases rules, 0
  {
    if rules == [] then Ok([])
    else
      var first := Eval(rules[0], doc, external);
      if first.Err? then first
      else
        var rest := EvalAll(rules[1..], doc, external);
        if rest.Err? then rest else Ok(first.value + rest.value)
  }

  // ---- The shape of a result list ----

  predicate CodesMatch(outputs: seq<Output>) {
    forall i :: 0 <= i < |outputs| ==>
      outputs[i].code == if outputs[i].valid then CODE_VALID else CODE_INVALID
  }

  /** The rule names below and including a rule, parents before children, entered groups only. */
  function Preorder(rule: Rule, doc: Document, external: Fields): seq<string>
    decreases rule, 1
  {
    [rule.name] +
    if rule.Group? && Entered(rule, doc, external) then PreorderAll(rule.children, doc, external) else []
  }

  function PreorderAll(rules: seq<Rule>, doc: Document, external: Fields): seq<string>
    decreases rules, 0
  {
    if rules == [] then [] else Preorder(rules[0], doc, external) + PreorderAll(rules[1..], doc, external)
  }

  function Names(outputs: seq<Output>): (names: seq<string>)
    ensures |names| == |outputs|
    ensures forall i :: 0 <= i < |names| ==> names[i] == outputs[i].name
  {
    if outputs == [] then [] else [outputs[0].name] + Names(outputs[1..])
  }

  lemma NamesOfConcat(a: seq<Output>, b: seq<Output>)
    ensures Names(a + b) == Names(a) + Names(b)
  {
  }

  /** A result list is never empty and starts with the rule's own entry, code 200 goes with
      valid and 30000 with invalid, and the first entry is valid exactly when all are. */
  lemma {:induction false} EvalStructure(rule: Rule, doc: Document, external: Fields)
    requires Eval(rule, doc, external).Ok?
    ensures var out := Eval(rule, doc, external).value;
      && |out| > 0
      && out[0].name == rule.name
      && (out[0].valid <==> AllValid(out))
      && CodesMatch(out)
    decreases rule, 1
  {
    if rule.Group? && Entered(rule, doc, external) {
      EvalAllCodes(rule.children, doc, external);
      HeadDecides(Eval(rule, doc, external).value, EvalAll(rule.children, doc, external).value);
    }
  }

  lemma HeadDecides(out: seq<Output>, nested: seq<Output>)
    requires |out| > 0 && out[1..] == nested && CodesMatch(nested)
    requires out[0].valid == AllValid(nested) && CodesMatch([out[0]])
    ensures (out[0].valid <==> AllValid(out)) && CodesMatch(out)
  {
    assert out == [out[0]] + nested;
    assert [out[0]][0] == out[0];
    assert forall i :: 0 <= i < |nested| ==> out[i + 1] == nested[i];
  }

  lemma {:induction false} EvalAllCodes(rules: seq<Rule>, doc: Document, external: Fields)
    requires EvalAll(rules, doc, external).Ok?
    ensures CodesMatch(EvalAll(rules, doc, external).value)
    decreases rules, 0
  {
    if rules != [] {
      EvalStructure(rules[0], doc, external);
      EvalAllCodes(rules[1..], doc, external);
    }
  }

  /** Entries come in preorder of the entered part of the tree. */
  lemma {:induction false} EvalPreorder(rule: Rule, doc: Document, external: Fields)
    requires Eval(rule, doc, external).Ok?
    ensures Names(Eval(rule, doc, external).value) == Preorder(rule, doc, external)
    decreases rule, 1
  {
    if rule.Group? && Entered(rule, doc, external) {
      var nested := EvalAll(rule.children, doc, external).value;
      EvalAllPreorder(rule.children, doc, external);
      NamesOfConcat([Entry(rule.name, AllValid(nested), NESTED)], nested);
    }
  }

  lemma {:induction false} EvalAllPreorder(rules: seq<Rule>, doc: Document, external: Fields)
    requires EvalAll(rules, doc, external).Ok?
    ensures Names(EvalAll(rules, doc, external).value) == PreorderAll(rules, doc, external)
    decreases rules, 0
  {
    if rules != [] {
      EvalPreorder(rules[0], doc, external);
      EvalAllPreorder(rules[1..], doc, external);
      NamesOfConcat(Eval(rules[0], doc, external).value, EvalAll(rules[1..], doc, external).value);
    }
  }

  /** Evaluation errs only over a scope that holds something other than an object. */
  lemma {:induction false} ObjectScopesEvaluate(rule: Rule, doc: Document, external: Fields)
    requires forall path: string :: OtherElement !in doc(path)
    ensures Eval(rule, doc, external).Ok?
    decreases rule, 1
  {
    var scope := doc(rule.scope);
    assert forall i :: 0 <= i < |scope| ==> scope[i] in scope;
    if rule.Group? { ObjectScopesEvaluateAll(rule.children, doc, external); }
  }

  lemma {:induction false} ObjectScopesEvaluateAll(rules: seq<Rule>, doc: Document, external: Fields)
    requires forall path: string :: OtherElement !in doc(path)
    ensures EvalAll(rules, doc, external).Ok?
    decreases rules, 0
  {
    if rules != [] {
      ObjectScopesEvaluate(rules[0], doc, external);
      ObjectScopesEvaluateAll(rules[1..], doc, external);
    }
  }

  /** Two documents agree on every leaf scope that is reached, and on which groups are entered. */
  predicate Alike(rule: Rule, doc: Document, doc': Document, external: Fields) {
    if rule.Leaf? then doc(rule.scope) == doc'(rule.scope)
    else
      && OtherElement !in doc(rule.scope) && OtherElement !in doc'(rule.scope)
      && (Entered(rule, doc, external) <==> Entered(rule, doc', external))
      && (Entered(rule, doc, external) ==>
            forall i :: 0 <= i < |rule.children| ==> Alike(rule.children[i], doc, doc', external))
  }

  /** How many elements the groups' scopes hold, and what they contain, does not matter anywhere in
      the tree beyond whether one of them lets a group in. */
  lemma {:induction false} GroupDependsOnEntryOnly(rule: Rule, doc: Document, doc': Document, external: Fields)
    requires Alike(rule, doc, doc', external)
    ensures Eval(rule, doc, external) == Eval(rule, doc', external)
    decreases rule, 1
  {
    if rule.Group? {
      if Entered(rule, doc, external) { ChildrenAlike(rule.children, doc, doc', external); }
      assert !BlockedEarly(rule, doc, external) && !BlockedEarly(rule, doc', external);
    } else {
      SameScope(rule, doc, doc', external);
    }
  }

  lemma SameScope(leaf: Rule, doc: Document, doc': Document, external: Fields)
    requires leaf.Leaf? && doc(leaf.scope) == doc'(leaf.scope)
    ensures Eval(leaf, doc, external) == Eval(leaf, doc', external)
  {
  }

  lemma {:induction false} ChildrenAlike(rules: seq<Rule>, doc: Document, doc': Document, external: Fields)
    requires forall i :: 0 <= i < |rules| ==> Alike(rules[i], doc, doc', external)
    ensures EvalAll(rules, doc, external) == EvalAll(rules, doc', external)
    decreases rules, 0
  {
    if rules != [] {
      GroupDependsOnEntryOnly(rules[0], doc, doc', external);
      ChildrenAlike(rules[1..], doc, doc', external);
    }
  }

  /** A group without a skip condition is entered exactly when its scope is not empty. */
  lemma UnskippedGroupEntry(rule: Rule, doc: Document, external: Fields)
    requires forall fields :: !rule.skip(fields)
    requires OtherElement !in doc(rule.scope)
    ensures Entered(rule, doc, external) <==> doc(rule.scope) != []
  {
    if doc(rule.scope) != [] {
      assert Applies(rule, doc(rule.scope)[0], external);
    }
  }

  // ---- Leaf positions ----

  /** A position in the tree: the child to take at each group on the way down. */
  type Path = seq<nat>

  /** The path ends at a leaf and every group on the way is entered. */
  predicate Reached(rule: Rule, path: Path, doc: Document, external: Fields)
    decreases path
  {
    if rule.Leaf? then path == []
    else path != [] && path[0] < |rule.children| && Entered(rule, doc, external)
         && Reached(rule.children[path[0]], path[1..], doc, external)
  }

  function LeafAt(rule: Rule, path: Path, doc: Document, external: Fields): (leaf: Rule)
    requires Reached(rule, path, doc, external)
    ensures leaf.Leaf?
    decreases path
  {
    if rule.Leaf? then rule else LeafAt(rule.children[path[0]], path[1..], doc, external)
  }

  predicate FailsAt(rule: Rule, path: Path, doc: Document, external: Fields) {
    Reached(rule, path, doc, external) && LeafFails(LeafAt(rule, path, doc, external), doc, external)
  }

  /** Declaration order of positions: lexicographic. */
  predicate Before(p: Path, q: Path)
    decreases p
  {
    p != [] && q != [] && (p[0] < q[0] || (p[0] == q[0] && Before(p[1..], q[1..])))
  }

  predicate InOrder(paths: seq<Path>) {
    forall i, j :: 0 <= i < j < |paths| ==> Before(paths[i], paths[j])
  }

  function Under(i: nat, paths: seq<Path>): (r: seq<Path>)
    ensures |r| == |paths| && forall k :: 0 <= k < |r| ==> r[k] == [i] + paths[k]
  {
    seq(|paths|, k requires 0 <= k < |paths| => [i] + paths[k])
  }

  function FailingPaths(rule: Rule, doc: Document, external: Fields): seq<Path>
    decreases rule, 1
  {
    if rule.Leaf? then if LeafFails(rule, doc, external) then [[]] else []
    else if Entered(rule, doc, external) then FailingFrom(rule.children, 0, doc, external)
    else []
  }

  /** Failing positions below the listed siblings, the first of which has number i. */
  function FailingFrom(rules: seq<Rule>, i: nat, doc: Document, external: Fields): seq<Path>
    decreases rules, 0
  {
    if rules == [] then []
    else Under(i, FailingPaths(rules[0], doc, external)) + FailingFrom(rules[1..], i + 1, doc, external)
  }

  /** FailingPaths lists every position where a reached leaf fails, each once, in declaration order. */
  lemma {:induction false} FailingPathsExact(rule: Rule, doc: Document, external: Fields)
    ensures InOrder(FailingPaths(rule, doc, external))
    ensures forall p: Path :: p in FailingPaths(rule, doc, external) <==> FailsAt(rule, p, doc, external)
    decreases rule, 1
  {
    if rule.Leaf? {
    } else if Entered(rule, doc, external) {
      FailingFromExact(rule.children, 0, doc, external);
      forall p: Path
        ensures p in FailingPaths(rule, doc, external) <==> FailsAt(rule, p, doc, external)
      {
        assert FailsBelow(rule.children, 0, p, doc, external) <==> FailsAt(rule, p, doc, external);
      }
    }
  }

  predicate FailsBelow(rules: seq<Rule>, i: nat, p: Path, doc: Document, external: Fields) {
    p != [] && i <= p[0] < i + |rules| && FailsAt(rules[p[0] - i], p[1..], doc, external)
  }

  lemma {:induction false} FailingFromExact(rules: seq<Rule>, i: nat, doc: Document, external: Fields)
    ensures InOrder(FailingFrom(rules, i, doc, external))
    ensures forall p: Path :: p in FailingFrom(rules, i, doc, external) <==> FailsBelow(rules, i, p, doc, external)
    decreases rules, 0
  {
    if rules != [] {
      var here, below := FailingPaths(rules[0], doc, external), FailingFrom(rules[1..], i + 1, doc, external);
      FailingPathsExact(rules[0], doc, external);
      FailingFromExact(rules[1..], i + 1, doc, external);
      UnderExact(i, here);
      OrderedConcat(i, Under(i, here), below);
      forall p: Path
        ensures p in FailingFrom(rules, i, doc, external) <==> FailsBelow(rules, i, p, doc, external)
      {
        BelowSplits(rules, i, p, Under(i, here), below, doc, external);
      }
    }
  }

  lemma BelowSplits(rules: seq<Rule>, i: nat, p: Path, here: seq<Path>, below: seq<Path>,
                    doc: Document, external: Fields)
    requires rules != []
    requires p in here <==> p != [] && p[0] == i && FailsAt(rules[0], p[1..], doc, external)
    requires p in below <==> FailsBelow(rules[1..], i + 1, p, doc, external)
    ensures p in here + below <==> FailsBelow(rules, i, p, doc, external)
  {
    if p != [] && i < p[0] < i + |rules| {
      assert rules[1..][p[0] - (i + 1)] == rules[p[0] - i];
    }
  }

  lemma UnderExact(i: nat, paths: seq<Path>)
    requires InOrder(paths)
    ensures InOrder(Under(i, paths))
    ensures forall p: Path :: p in Under(i, paths) <==> p != [] && p[0] == i && p[1..] in paths
  {
    var r := Under(i, paths);
    forall a, b | 0 <= a < b < |r| ensures Before(r[a], r[b]) {
      assert r[a][1..] == paths[a] && r[b][1..] == paths[b];
    }
    forall p: Path ensures p in r <==> p != [] && p[0] == i && p[1..] in paths {
      if p in r {
        var k :| 0 <= k < |r| && r[k] == p;
        assert p[1..] == paths[k];
      }
      if p != [] && p[0] == i && p[1..] in paths {
        var k :| 0 <= k < |paths| && paths[k] == p[1..];
        assert p == [i] + p[1..];
        assert r[k] == p;
      }
    }
  }

  lemma OrderedConcat(i: nat, a: seq<Path>, b: seq<Path>)
    requires InOrder(a) && InOrder(b)
    requires forall p: Path :: p in a ==> p != [] && p[0] == i
    requires forall p: Path :: p in b ==> p != [] && p[0] > i
    ensures InOrder(a + b)
  {
  }

  /** Every object in the leaf's scope that it does not skip, with the external data added under its
      key, satisfies the leaf's check. */
  ghost predicate Holds(leaf: Rule, doc: Document, external: Fields)
    requires leaf.Leaf?
  {
    forall f: Fields :: ObjectElement(f) in doc(leaf.scope) && !leaf.skip(f["_EXTERNAL" := Object(external)]) ==>
      leaf.check(f["_EXTERNAL" := Object(external)])
  }

  lemma {:induction false} FirstStop(leaf: Rule, scope: seq<Element>, external: Fields, n: nat)
    requires leaf.Leaf? && n <= |scope| && !Scans(leaf, scope, external, n)
    ensures exists i :: 0 <= i < n && !Passes(leaf, scope[i], external) && Scans(leaf, scope, external, i)
  {
    if !Scans(leaf, scope, external, n - 1) {
      FirstStop(leaf, scope, external, n - 1);
    }
  }

  /** The early return at the first failure decides the same as looking at every element. */
  lemma LeafVerdict(leaf: Rule, doc: Document, external: Fields)
    requires leaf.Leaf? && !LeafErrs(leaf, doc, external)
    ensures LeafFails(leaf, doc, external) <==> !Holds(leaf, doc, external)
  {
    var scope := doc(leaf.scope);
    if Scans(leaf, scope, external, |scope|) {
      forall f: Fields | ObjectElement(f) in scope && !leaf.skip(f["_EXTERNAL" := Object(external)])
        ensures leaf.check(f["_EXTERNAL" := Object(external)])
      {
        var j :| 0 <= j < |scope| && scope[j] == ObjectElement(f);
        assert Passes(leaf, scope[j], external);
      }
    } else {
      FirstStop(leaf, scope, external, |scope|);
      assert LeafFails(leaf, doc, external);
      var i :| 0 <= i < |scope| && scope[i].ObjectElement? && !Passes(leaf, scope[i], external);
      assert ObjectElement(scope[i].fields) in scope;
    }
  }

  /** An object that the leaf skips, or that satisfies its check. */
  predicate Fine(leaf: Rule, e: Element, external: Fields)
    requires leaf.Leaf?
  {
    e.ObjectElement?
    && (leaf.skip(e.fields["_EXTERNAL" := Object(external)]) || leaf.check(e.fields["_EXTERNAL" := Object(external)]))
  }

  /** A leaf errs exactly when a scan that passes objects it skips or that satisfy its check meets
      something else. */
  lemma LeafErrsExactly(leaf: Rule, doc: Document, external: Fields)
    requires leaf.Leaf?
    ensures var scope := doc(leaf.scope);
      LeafErrs(leaf, doc, external) <==>
        exists i :: 0 <= i < |scope| && scope[i] == OtherElement
                 && forall e :: e in scope[..i] ==> Fine(leaf, e, external)
  {
    var scope := doc(leaf.scope);
    if LeafErrs(leaf, doc, external) {
      var i :| 0 <= i < |scope| && scope[i].OtherElement? && Scans(leaf, scope, external, i);
      assert forall j :: 0 <= j < i ==> Passes(leaf, scope[j], external);
    }
    if i :| 0 <= i < |scope| && scope[i] == OtherElement && forall e :: e in scope[..i] ==> Fine(leaf, e, external) {
      forall j | 0 <= j < i ensures Passes(leaf, scope[j], external) {
        assert scope[..i][j] == scope[j] && scope[j] in scope[..i];
        assert Fine(leaf, scope[j], external);
      }
    }
  }

  /** A group's children run exactly when its scope holds an object that it does not skip. */
  lemma EnteredExactly(rule: Rule, doc: Document, external: Fields)
    ensures Entered(rule, doc, external) <==>
      exists f: Fields :: ObjectElement(f) in doc(rule.scope) && !rule.skip(f["_EXTERNAL" := Object(external)])
  {
    if Entered(rule, doc, external) {
      var e :| e in doc(rule.scope) && Applies(rule, e, external);
      assert ObjectElement(e.fields) in doc(rule.scope);
    }
    if f: Fields :| ObjectElement(f) in doc(rule.scope) && !rule.skip(f["_EXTERNAL" := Object(external)]) {
      assert Applies(rule, ObjectElement(f), external);
    }
  }

  /** The debug text of a rule's own entry: its configuration, or that of a nested test, once some
      object in its scope is not skipped, and nothing before. */
  lemma HeadDebug(rule: Rule, doc: Document, external: Fields)
    requires Eval(rule, doc, external).Ok?
    ensures Eval(rule, doc, external).value != []
    ensures Eval(rule, doc, external).value[0].debug == Some(
      if exists f: Fields :: ObjectElement(f) in doc(rule.scope) && !rule.skip(f["_EXTERNAL" := Object(external)])
      then if rule.Leaf? then rule.config else "NESTED_TEST_OBJECT"
      else "")
  {
    EnteredExactly(rule, doc, external);
    if rule.Leaf? && LeafFails(rule, doc, external) {
      var scope := doc(rule.scope);
      var i :| 0 <= i < |scope| && scope[i].ObjectElement? && !Passes(rule, scope[i], external);
      assert Applies(rule, scope[i], external);
    }
  }

  // ---- Which evaluations err ----

  /** The path leads to a rule, and every group above it is entered. */
  predicate Visited(rule: Rule, path: Path, doc: Document, external: Fields)
    decreases path
  {
    path == [] ||
    (rule.Group? && path[0] < |rule.children| && Entered(rule, doc, external)
     && Visited(rule.children[path[0]], path[1..], doc, external))
  }

  function RuleAt(rule: Rule, path: Path, doc: Document, external: Fields): Rule
    requires Visited(rule, path, doc, external)
    decreases path
  {
    if path == [] then rule else RuleAt(rule.children[path[0]], path[1..], doc, external)
  }

  /** A leaf whose scan meets something that is not an object, or a group with such a thing in its scope. */
  predicate Trips(rule: Rule, doc: Document, external: Fields) {
    if rule.Leaf? then LeafErrs(rule, doc, external) else OtherElement in doc(rule.scope)
  }

  predicate TripsAt(rule: Rule, path: Path, doc: Document, external: Fields) {
    Visited(rule, path, doc, external) && Trips(RuleAt(rule, path, doc, external), doc, external)
  }

  lemma {:induction false} ErrorAt(rule: Rule, doc: Document, external: Fields) returns (path: Path)
    requires Eval(rule, doc, external).Err?
    ensures TripsAt(rule, path, doc, external)
    ensures Eval(rule, doc, external).error == RuleAt(rule, path, doc, external).name
    decreases rule, 1
  {
    if rule.Leaf? || BlockedEarly(rule, doc, external) || !Entered(rule, doc, external)
       || EvalAll(rule.children, doc, external).Ok? {
      path := [];
    } else {
      var k, below := ErrorBelow(rule.children, doc, external);
      path := [k] + below;
      assert path[1..] == below;
    }
  }

  lemma {:induction false} ErrorBelow(rules: seq<Rule>, doc: Document, external: Fields) returns (k: nat, path: Path)
    requires EvalAll(rules, doc, external).Err?
    ensures k < |rules| && TripsAt(rules[k], path, doc, external)
    ensures EvalAll(rules, doc, external).error == RuleAt(rules[k], path, doc, external).name
    decreases rules, 0
  {
    if Eval(rules[0], doc, external).Err? {
      k := 0;
      path := ErrorAt(rules[0], doc, external);
    } else {
      var j, below := ErrorBelow(rules[1..], doc, external);
      k, path := j + 1, below;
    }
  }

  lemma {:induction false} TripErrs(rule: Rule, path: Path, doc: Document, external: Fields)
    requires TripsAt(rule, path, doc, external)
    ensures Eval(rule, doc, external).Err?
    decreases path
  {
    if path != [] {
      TripErrs(rule.children[path[0]], path[1..], doc, external);
      if EvalAll(rule.children, doc, external).Ok? {
        ChildEvaluates(rule.children, path[0], doc, external);
      }
    }
  }

  /** Evaluation errs exactly when some visited rule meets something that is not an object, and the
      error names such a rule. */
  lemma EvalErrsExactly(rule: Rule, doc: Document, external: Fields)
    ensures Eval(rule, doc, external).Err? <==> exists p: Path :: TripsAt(rule, p, doc, external)
    ensures Eval(rule, doc, external).Err? ==>
      exists p: Path :: TripsAt(rule, p, doc, external)
        && RuleAt(rule, p, doc, external).name == Eval(rule, doc, external).error
  {
    if Eval(rule, doc, external).Err? {
      var p := ErrorAt(rule, doc, external);
    }
    if p: Path :| TripsAt(rule, p, doc, external) { TripErrs(rule, p, doc, external); }
  }

  lemma {:induction false} ChildEvaluates(rules: seq<Rule>, k: nat, doc: Document, external: Fields)
    requires k < |rules| && EvalAll(rules, doc, external).Ok?
    ensures Eval(rules[k], doc, external).Ok?
  {
    if k > 0 {
      ChildEvaluates(rules[1..], k - 1, doc, external);
    }
  }

  lemma {:induction false} ReachedLeafEvaluates(rule: Rule, path: Path, doc: Document, external: Fields)
    requires Eval(rule, doc, external).Ok? && Reached(rule, path, doc, external)
    ensures !LeafErrs(LeafAt(rule, path, doc, external), doc, external)
    decreases path
  {
    if rule.Group? {
      ChildEvaluates(rule.children, path[0], doc, external);
      ReachedLeafEvaluates(rule.children[path[0]], path[1..], doc, external);
    }
  }

  /** Nothing fails exactly when every reached leaf holds on all of its scope. */
  lemma NothingFails(rule: Rule, doc: Document, external: Fields)
    requires Eval(rule, doc, external).Ok?
    ensures FailingPaths(rule, doc, external) == [] <==>
      forall p: Path :: Reached(rule, p, doc, external) ==> Holds(LeafAt(rule, p, doc, external), doc, external)
  {
    FailingPathsExact(rule, doc, external);
    forall p: Path | Reached(rule, p, doc, external)
      ensures FailsAt(rule, p, doc, external) <==> !Holds(LeafAt(rule, p, doc, external), doc, external)
    {
      ReachedLeafEvaluates(rule, p, doc, external);
      LeafVerdict(LeafAt(rule, p, doc, external), doc, external);
    }
    var paths := FailingPaths(rule, doc, external);
    if paths != [] {
      assert paths[0] in paths;
      assert FailsAt(rule, paths[0], doc, external);
      assert !Holds(LeafAt(rule, paths[0], doc, external), doc, external);
    } else {
      assert forall p: Path :: !FailsAt(rule, p, doc, external);
    }
  }

  /** A list in declaration order is determined by its members, so FailingPathsExact fixes FailingPaths. */
  lemma {:induction false} SortedUnique(a: seq<Path>, b: seq<Path>)
    requires InOrder(a) && InOrder(b) && forall p: Path :: p in a <==> p in b
    ensures a == b
  {
    if a != [] { HasMember(a); }
    if b != [] { HasMember(b); }
    if a != [] && b != [] {
      HeadsAgree(a, b);
      TailMembers(a);
      TailMembers(b);
      SortedUnique(a[1..], b[1..]);
    }
  }

  lemma HasMember(a: seq<Path>)
    requires a != []
    ensures exists p :: p in a
  {
    assert a[0] in a;
  }

  lemma {:induction false} Irreflexive(p: Path)
    ensures !Before(p, p)
  {
    if p != [] { Irreflexive(p[1..]); }
  }

  lemma {:induction false} Asymmetric(p: Path, q: Path)
    requires Before(p, q)
    ensures !Before(q, p)
  {
    if p[0] == q[0] { Asymmetric(p[1..], q[1..]); }
  }

  lemma HeadsAgree(a: seq<Path>, b: seq<Path>)
    requires a != [] && b != [] && InOrder(a) && InOrder(b) && forall p: Path :: p in a <==> p in b
    ensures a[0] == b[0]
  {
    assert a[0] in b && b[0] in a;
    var i :| 0 <= i < |b| && b[i] == a[0];
    var j :| 0 <= j < |a| && a[j] == b[0];
    if i > 0 && j > 0 { Asymmetric(a[0], b[0]); }
  }

  lemma TailMembers(a: seq<Path>)
    requires a != [] && InOrder(a)
    ensures InOrder(a[1..]) && forall p: Path :: p in a[1..] <==> p in a && p != a[0]
  {
    Irreflexive(a[0]);
    forall p: Path | p in a[1..] ensures p != a[0] {
      var k :| 0 <= k < |a[1..]| && a[1..][k] == p;
      assert a[k + 1] == p;
    }
  }
}
