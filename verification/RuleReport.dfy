/** From an evaluation to its report: filtering the result list, and the search for the overall
    entry, which panics when it finds none. */
module RuleReport {
  import opened RuleEvaluator
  import opened RuleTree
  import opened Wrappers

  datatype Flags = Flags(debug: bool, hideParentErrors: bool, onlyInvalid: bool)

  datatype Fault = MissingStore | MissingKey | LoadFailed | UnknownAction | BadScope(test: string)

  datatype Outcome = Report(outputs: seq<Output>) | Failed(fault: Fault) | Panicked

  // ---- The filter stage ----

  function Filter(outputs: seq<Output>, keep: Output -> bool): seq<Output> {
    if outputs == [] then []
    else
      var last := outputs[|outputs| - 1];
      Filter(outputs[..|outputs| - 1], keep) + if keep(last) then [last] else []
  }

  function Stripped(outputs: seq<Output>): (r: seq<Output>)
    ensures |r| == |outputs| && forall i :: 0 <= i < |r| ==> r[i] == outputs[i].(debug := None)
  {
    seq(|outputs|, i requires 0 <= i < |outputs| => outputs[i].(debug := None))
  }

  predicate Described(o: Output) {
    o.valid || o.description != ""
  }

  predicate Invalid(o: Output) {
    !o.valid
  }

  /** Invalid and still there once parent entries are hidden. */
  predicate Reported(o: Output) {
    !o.valid && o.description != ""
  }

  function Shown(outputs: seq<Output>, debug: bool): seq<Output> {
    if debug then outputs else Stripped(outputs)
  }

  /** The first entry with the given name. */
  function Find(outputs: seq<Output>, name: string): Option<Output> {
    if outputs == [] then None
    else if outputs[0].name == name then Some(outputs[0])
    else Find(outputs[1..], name)
  }

  function Overall(root: string, outputs: seq<Output>): Outcome {
    match Find(outputs, root)
    case Some(entry) => Report([entry])
    case None => Panicked
  }

  function Kept(outputs: seq<Output>, flags: Flags): seq<Output> {
    if flags.hideParentErrors then Filter(Shown(outputs, flags.debug), Described) else Shown(outputs, flags.debug)
  }

  function Answer(root: string, flags: Flags, evaluation: Evaluation): Outcome {
    match evaluation
    case Err(test) => Failed(BadScope(test))
    case Ok(all) =>
      var kept := Kept(all, flags);
      var bad := Filter(kept, Invalid);
      if !flags.onlyInvalid then Report(kept)
      else if bad != [] then Report(bad)
      else Overall(root, kept)
  }

  /** The generated X_Tests function: evaluate, drop debug data, hide parents, keep failures. */
  method Tests(rule: Rule, payload: Payload, external: JsonObject, flags: Flags, ghost doc: Document)
    returns (outcome: Outcome)
    requires payload.Shows(doc)
    ensures outcome == Answer(rule.name, flags, Eval(rule, doc, external.fields))
  {
    var evaluation := Evaluate(rule, payload, external, doc);
    if evaluation.Err? {
      return Failed(BadScope(evaluation.error));
    }
    var totalResults := evaluation.value;
    if !flags.debug {
      totalResults := DropDebug(totalResults);
    }
    if flags.hideParentErrors {
      totalResults := HideParents(totalResults);
    }
    if flags.onlyInvalid {
      var res := KeepInvalid(totalResults);
      if |res| == 0 {
        outcome := FindOverall(rule.name, totalResults);
        return;
      }
      return Report(res);
    }
    return Report(totalResults);
  }

  method DropDebug(outputs: seq<Output>) returns (r: seq<Output>)
    ensures r == Stripped(outputs)
  {
    r := outputs;
    for i := 0 to |r|
      invariant |r| == |outputs|
      invariant forall j :: 0 <= j < |r| ==> r[j] == if j < i then outputs[j].(debug := None) else outputs[j]
    {
      r := r[i := r[i].(debug := None)];
    }
  }

  method HideParents(outputs: seq<Output>) returns (filtered: seq<Output>)
    ensures filtered == Filter(outputs, Described)
  {
    filtered := [];
    for i := 0 to |outputs|
      invariant filtered == Filter(outputs[..i], Described)
    {
      assert outputs[..i + 1][..i] == outputs[..i];
      if !outputs[i].valid && outputs[i].description == "" {
        continue;
      }
      filtered := filtered + [outputs[i]];
    }
    assert outputs[..|outputs|] == outputs;
  }

  method KeepInvalid(outputs: seq<Output>) returns (res: seq<Output>)
    ensures res == Filter(outputs, Invalid)
  {
    res := [];
    for i := 0 to |outputs|
      invariant res == Filter(outputs[..i], Invalid)
    {
      assert outputs[..i + 1][..i] == outputs[..i];
      if !outputs[i].valid {
        res := res + [outputs[i]];
      }
    }
    assert outputs[..|outputs|] == outputs;
  }

  /** Looks for the entry that carries the root rule's name, and panics without one. */
  method FindOverall(root: string, outputs: seq<Output>) returns (outcome: Outcome)
    ensures outcome == Overall(root, outputs)
  {
    for i := 0 to |outputs|
      invariant Find(outputs, root) == Find(outputs[i..], root)
    {
      if outputs[i].name == root {
        return Report([outputs[i]]);
      }
    }
    return Panicked;
  }

  lemma {:induction false} FilterMember(outputs: seq<Output>, keep: Output -> bool)
    ensures forall o :: o in Filter(outputs, keep) <==> o in outputs && keep(o)
  {
    if outputs != [] {
      var front, last := outputs[..|outputs| - 1], outputs[|outputs| - 1];
      FilterMember(front, keep);
      assert outputs == front + [last];
    }
  }

  lemma {:induction false} FilterConcat(a: seq<Output>, b: seq<Output>, keep: Output -> bool)
    ensures Filter(a + b, keep) == Filter(a, keep) + Filter(b, keep)
  {
    if b == [] {
      assert a + b == a;
    } else {
      FilterConcat(a, b[..|b| - 1], keep);
      assert (a + b)[..|a + b| - 1] == a + b[..|b| - 1];
    }
  }

  lemma {:induction false} FilterTwice(outputs: seq<Output>)
    ensures Filter(Filter(outputs, Described), Invalid) == Filter(outputs, Reported)
  {
    if outputs != [] {
      var front, last := outputs[..|outputs| - 1], outputs[|outputs| - 1];
      FilterTwice(front);
      FilterConcat(Filter(front, Described), if Described(last) then [last] else [], Invalid);
      assert Filter([last], Invalid) == if Invalid(last) then [last] else [] by { assert [last][..0] == []; }
    }
  }

  lemma {:induction false} FilterStripped(outputs: seq<Output>)
    ensures Filter(Stripped(outputs), Reported) == Stripped(Filter(outputs, Reported))
  {
    if outputs != [] {
      var front, last := outputs[..|outputs| - 1], outputs[|outputs| - 1];
      FilterStripped(front);
      assert Stripped(outputs)[..|outputs| - 1] == Stripped(front);
    }
  }

  // ---- The failing leaves, by position ----

  function FailureAt(rule: Rule, path: Path, doc: Document, external: Fields): Output
    requires Reached(rule, path, doc, external)
  {
    Failure(LeafAt(rule, path, doc, external))
  }

  /** One failure entry for each listed position. */
  function FailuresAt(rule: Rule, paths: seq<Path>, doc: Document, external: Fields): (r: seq<Output>)
    requires forall p :: p in paths ==> Reached(rule, p, doc, external)
    ensures |r| == |paths|
    ensures forall i :: 0 <= i < |r| ==> r[i] == FailureAt(rule, paths[i], doc, external)
  {
    seq(|paths|, i requires 0 <= i < |paths| => FailureAt(rule, paths[i], doc, external))
  }

  function Failures(rule: Rule, doc: Document, external: Fields): seq<Output> {
    FailingPathsExact(rule, doc, external);
    FailuresAt(rule, FailingPaths(rule, doc, external), doc, external)
  }

  /** The same list for the siblings rules, without positions. */
  function FailuresOf(rules: seq<Rule>, doc: Document, external: Fields): seq<Output> {
    if rules == [] then [] else Failures(rules[0], doc, external) + FailuresOf(rules[1..], doc, external)
  }

  /** A position below child i names the leaf that the child itself names by the rest of it. */
  lemma FailuresUnder(rule: Rule, i: nat, paths: seq<Path>, doc: Document, external: Fields)
    requires rule.Group? && Entered(rule, doc, external) && i < |rule.children|
    requires forall p :: p in paths ==> Reached(rule.children[i], p, doc, external)
    requires forall p :: p in Under(i, paths) ==> Reached(rule, p, doc, external)
    ensures FailuresAt(rule, Under(i, paths), doc, external) == FailuresAt(rule.children[i], paths, doc, external)
  {
    forall k | 0 <= k < |paths|
      ensures FailuresAt(rule, Under(i, paths), doc, external)[k]
           == FailuresAt(rule.children[i], paths, doc, external)[k]
    {
      assert Under(i, paths)[k][1..] == paths[k];
    }
  }

  lemma {:induction false} FailuresOfGroup(rule: Rule, i: nat, doc: Document, external: Fields)
    requires rule.Group? && Entered(rule, doc, external) && i <= |rule.children|
    requires forall p :: p in FailingFrom(rule.children[i..], i, doc, external) ==> Reached(rule, p, doc, external)
    ensures FailuresAt(rule, FailingFrom(rule.children[i..], i, doc, external), doc, external)
         == FailuresOf(rule.children[i..], doc, external)
    decreases |rule.children| - i
  {
    var rules := rule.children[i..];
    if rules != [] {
      assert rules[1..] == rule.children[i + 1..];
      FailuresOfGroup(rule, i + 1, doc, external);
      var here, below := FailingPaths(rules[0], doc, external), FailingFrom(rules[1..], i + 1, doc, external);
      FailingPathsExact(rules[0], doc, external);
      assert FailingFrom(rules, i, doc, external) == Under(i, here) + below;
      FailuresUnder(rule, i, here, doc, external);
    }
  }

  lemma GroupFailures(rule: Rule, doc: Document, external: Fields)
    requires rule.Group? && Entered(rule, doc, external)
    ensures Failures(rule, doc, external) == FailuresOf(rule.children, doc, external)
  {
    FailingPathsExact(rule, doc, external);
    assert rule.children[0..] == rule.children;
    FailuresOfGroup(rule, 0, doc, external);
  }

  /** The described failures in a result list are those of the failing leaves, in declaration
      order, and the list is all valid exactly when no reached leaf fails. */
  lemma {:induction false} EvalReports(rule: Rule, doc: Document, external: Fields)
    requires Eval(rule, doc, external).Ok?
    ensures var out := Eval(rule, doc, external).value;
      && Filter(out, Reported) == Filter(Failures(rule, doc, external), Reported)
      && (AllValid(out) <==> FailingPaths(rule, doc, external) == [])
    decreases rule, 1
  {
    var out := Eval(rule, doc, external).value;
    if rule.Leaf? {
      assert out[..0] == [];
      if LeafFails(rule, doc, external) {
        assert Failures(rule, doc, external) == [Failure(rule)] == out;
      }
    } else if Entered(rule, doc, external) {
      var nested := EvalAll(rule.children, doc, external).value;
      EvalAllReports(rule.children, doc, external);
      GroupFailures(rule, doc, external);
      var own := Entry(rule.name, AllValid(nested), NESTED);
      FilterConcat([own], nested, Reported);
      assert [own][..0] == [];
      EvalStructure(rule, doc, external);
      assert out[0] == own;
      assert |Failures(rule, doc, external)| == |FailingPaths(rule, doc, external)|;
    } else {
      assert out[..0] == [];
    }
  }

  lemma AllValidConcat(a: seq<Output>, b: seq<Output>)
    ensures AllValid(a + b) <==> AllValid(a) && AllValid(b)
  {
    assert forall i :: 0 <= i < |a| ==> (a + b)[i] == a[i];
    assert forall i :: 0 <= i < |b| ==> (a + b)[|a| + i] == b[i];
  }

  lemma {:induction false} EvalAllReports(rules: seq<Rule>, doc: Document, external: Fields)
    requires EvalAll(rules, doc, external).Ok?
    ensures var out := EvalAll(rules, doc, external).value;
      && Filter(out, Reported) == Filter(FailuresOf(rules, doc, external), Reported)
      && (AllValid(out) <==> FailuresOf(rules, doc, external) == [])
    decreases rules, 0
  {
    if rules != [] {
      var first, rest := Eval(rules[0], doc, external).value, EvalAll(rules[1..], doc, external).value;
      EvalReports(rules[0], doc, external);
      EvalAllReports(rules[1..], doc, external);
      FilterConcat(first, rest, Reported);
      FilterConcat(Failures(rules[0], doc, external), FailuresOf(rules[1..], doc, external), Reported);
      AllValidConcat(first, rest);
    }
  }

  // ---- What the filtered report can be ----

  predicate Named(outputs: seq<Output>, name: string) {
    exists i :: 0 <= i < |outputs| && outputs[i].name == name
  }

  lemma {:induction false} FindExact(outputs: seq<Output>, name: string)
    ensures Find(outputs, name).Some? <==> Named(outputs, name)
  {
    if outputs != [] && outputs[0].name != name {
      FindExact(outputs[1..], name);
      if Named(outputs, name) {
        var i :| 0 <= i < |outputs| && outputs[i].name == name;
        assert outputs[1..][i - 1].name == name;
      }
    }
  }

  /** With both filters on, what is left is the described failures, in order. */
  lemma KeptFailures(rule: Rule, doc: Document, external: Fields, debug: bool)
    requires Eval(rule, doc, external).Ok?
    ensures Filter(Filter(Shown(Eval(rule, doc, external).value, debug), Described), Invalid)
         == Shown(Filter(Failures(rule, doc, external), Reported), debug)
  {
    var out := Eval(rule, doc, external).value;
    EvalReports(rule, doc, external);
    FilterTwice(Shown(out, debug));
    FilterStripped(out);
  }

  /** The search for the overall entry panics exactly when both filters are on, some reached leaf
      fails, every failing leaf has an empty description, and no valid entry shares the root's name. */
  lemma PanicExactly(rule: Rule, doc: Document, external: Fields, flags: Flags)
    ensures Answer(rule.name, flags, Eval(rule, doc, external)) == Panicked <==>
      && flags.onlyInvalid && flags.hideParentErrors
      && Eval(rule, doc, external).Ok?
      && FailingPaths(rule, doc, external) != []
      && (forall o :: o in Failures(rule, doc, external) ==> o.description == "")
      && (forall o :: o in Eval(rule, doc, external).value && o.valid ==> o.name != rule.name)
  {
    if Eval(rule, doc, external).Ok? {
      EvalStructure(rule, doc, external);
      EvalReports(rule, doc, external);
      KeptFailures(rule, doc, external, flags.debug);
      FailingPathsExact(rule, doc, external);
      ListPanics(rule.name, Eval(rule, doc, external).value, Failures(rule, doc, external), flags);
    }
  }

  /** PanicExactly over the lists alone. */
  lemma ListPanics(root: string, all: seq<Output>, failures: seq<Output>, flags: Flags)
    requires |all| > 0 && all[0].name == root && (all[0].valid <==> failures == [])
    requires all[0].valid <==> AllValid(all)
    requires Filter(Filter(Shown(all, flags.debug), Described), Invalid)
          == Shown(Filter(failures, Reported), flags.debug)
    requires forall o :: o in failures ==> !o.valid
    ensures Answer(root, flags, Ok(all)) == Panicked <==>
      && flags.onlyInvalid && flags.hideParentErrors && failures != []
      && (forall o :: o in failures ==> o.description == "")
      && (forall o :: o in all && o.valid ==> o.name != root)
  {
    var kept := Kept(all, flags);
    FindExact(kept, root);
    if all[0].valid {
      ValidRootKept(all, flags);
      MemberNamed(kept, Shown(all, flags.debug)[0]);
    } else if !flags.hideParentErrors {
      FilterMember(kept, Invalid);
      assert kept[0] in Filter(kept, Invalid);
    } else {
      HiddenRoot(root, all, kept, flags.debug, failures);
    }
  }

  lemma ValidRootKept(all: seq<Output>, flags: Flags)
    requires |all| > 0 && all[0].valid
    ensures Shown(all, flags.debug)[0] in Kept(all, flags)
  {
    var shown := Shown(all, flags.debug);
    assert shown[0] in shown;
    FilterMember(shown, Described);
  }

  lemma MemberNamed(outputs: seq<Output>, o: Output)
    requires o in outputs
    ensures Named(outputs, o.name)
  {
  }

  /** The invalid-root case of PanicExactly. */
  lemma HiddenRoot(root: string, all: seq<Output>, kept: seq<Output>, debug: bool, failures: seq<Output>)
    requires kept == Filter(Shown(all, debug), Described)
    requires Filter(kept, Invalid) == Shown(Filter(failures, Reported), debug)
    requires forall o :: o in failures ==> !o.valid
    ensures Filter(kept, Invalid) == [] <==> forall o :: o in failures ==> o.description == ""
    ensures Filter(kept, Invalid) == [] ==>
      (Named(kept, root) <==> exists o :: o in all && o.valid && o.name == root)
  {
    FilterMember(failures, Reported);
    var bad := Filter(failures, Reported);
    assert |Filter(kept, Invalid)| == |bad|;
    if bad != [] {
      assert bad[0] in bad;
    } else {
      HiddenNames(root, all, kept, debug);
    }
  }

  lemma HiddenNames(root: string, all: seq<Output>, kept: seq<Output>, debug: bool)
    requires kept == Filter(Shown(all, debug), Described) && Filter(kept, Invalid) == []
    ensures Named(kept, root) <==> exists o :: o in all && o.valid && o.name == root
  {
    var shown := Shown(all, debug);
    FilterMember(shown, Described);
    FilterMember(kept, Invalid);
    if Named(kept, root) {
      var i :| 0 <= i < |kept| && kept[i].name == root;
      assert kept[i] in kept;
      var k :| 0 <= k < |shown| && shown[k] == kept[i];
      assert all[k] in all && all[k].valid && all[k].name == root;
    }
    forall o | o in all && o.valid && o.name == root ensures Named(kept, root) {
      var k :| 0 <= k < |all| && all[k] == o;
      assert shown[k] in shown && Described(shown[k]);
      MemberNamed(kept, shown[k]);
    }
  }

  /** Every leaf carries a description, as every generated leaf does. */
  predicate WellDescribed(rule: Rule) {
    if rule.Leaf? then rule.description != ""
    else forall i :: 0 <= i < |rule.children| ==> WellDescribed(rule.children[i])
  }

  lemma {:induction false} DescribedLeaf(rule: Rule, path: Path, doc: Document, external: Fields)
    requires WellDescribed(rule) && Reached(rule, path, doc, external)
    ensures LeafAt(rule, path, doc, external).description != ""
    decreases path
  {
    if rule.Group? { DescribedLeaf(rule.children[path[0]], path[1..], doc, external); }
  }

  lemma DescribedFailures(rule: Rule, doc: Document, external: Fields)
    requires WellDescribed(rule)
    ensures forall o :: o in Failures(rule, doc, external) ==> Reported(o)
  {
    FailingPathsExact(rule, doc, external);
    var paths := FailingPaths(rule, doc, external);
    assert forall i :: 0 <= i < |paths| ==> paths[i] in paths;
    forall i | 0 <= i < |paths| ensures Reported(FailureAt(rule, paths[i], doc, external)) {
      DescribedLeaf(rule, paths[i], doc, external);
    }
  }

  /** No generated rule file reaches the panic, whatever the flags. */
  lemma NeverPanics(rule: Rule, doc: Document, external: Fields, flags: Flags)
    requires WellDescribed(rule)
    ensures Answer(rule.name, flags, Eval(rule, doc, external)) != Panicked
  {
    PanicExactly(rule, doc, external, flags);
    DescribedFailures(rule, doc, external);
    var failures := Failures(rule, doc, external);
    FailingPathsExact(rule, doc, external);
    assert failures != [] ==> failures[0] in failures;
  }

  lemma {:induction false} FilterAll(outputs: seq<Output>, keep: Output -> bool)
    requires forall o :: o in outputs ==> keep(o)
    ensures Filter(outputs, keep) == outputs
  {
    if outputs != [] {
      var front, last := outputs[..|outputs| - 1], outputs[|outputs| - 1];
      assert last in outputs && forall o :: o in front ==> o in outputs;
      FilterAll(front, keep);
      assert outputs == front + [last];
    }
  }

  /** With the flags ValidatePayload fixes, the report is the root's own valid entry when nothing
      fails, and otherwise exactly the failing leaves in declaration order. */
  lemma ReportExactly(rule: Rule, doc: Document, external: Fields, debug: bool)
    requires WellDescribed(rule) && Eval(rule, doc, external).Ok?
    ensures var outcome := Answer(rule.name, Flags(debug, true, true), Eval(rule, doc, external));
      && outcome.Report?
      && (FailingPaths(rule, doc, external) == [] ==>
            outcome.outputs == [Shown(Eval(rule, doc, external).value, debug)[0]] && outcome.outputs[0].valid)
      && (FailingPaths(rule, doc, external) != [] ==>
            outcome.outputs == Shown(Failures(rule, doc, external), debug))
  {
    KeptFailures(rule, doc, external, debug);
    DescribedFailures(rule, doc, external);
    FailingPathsExact(rule, doc, external);
    EvalReports(rule, doc, external);
    EvalStructure(rule, doc, external);
    ListReport(rule.name, Eval(rule, doc, external).value, Failures(rule, doc, external), debug);
  }

  /** ReportExactly over the lists alone. */
  lemma ListReport(root: string, all: seq<Output>, failures: seq<Output>, debug: bool)
    requires |all| > 0 && all[0].name == root && (failures == [] <==> AllValid(all))
    requires Filter(Filter(Shown(all, debug), Described), Invalid) == Shown(Filter(failures, Reported), debug)
    requires forall o :: o in failures ==> Reported(o)
    ensures Answer(root, Flags(debug, true, true), Ok(all))
         == Report(if failures == [] then [Shown(all, debug)[0]] else Shown(failures, debug))
  {
    FilterAll(failures, Reported);
    if failures == [] {
      FilterAll(Shown(all, debug), Described);
    }
  }

  // ---- Which entries a report holds, for every combination of flags ----

  predicate Increasing(at: seq<nat>, n: nat) {
    (forall i :: 0 <= i < |at| ==> at[i] < n) && forall i, j :: 0 <= i < j < |at| ==> at[i] < at[j]
  }

  lemma IncreasingMore(at: seq<nat>, n: nat)
    requires Increasing(at, n)
    ensures Increasing(at, n + 1) && Increasing(at + [n], n + 1)
    ensures forall k :: k in at + [n] <==> k in at || k == n
    ensures n !in at
  {
  }

  /** Filtering keeps exactly the entries it should, each once and in order: their positions. */
  lemma {:induction false} FilterExactly(outputs: seq<Output>, keep: Output -> bool) returns (at: seq<nat>)
    ensures Increasing(at, |outputs|) && |at| == |Filter(outputs, keep)|
    ensures forall i :: 0 <= i < |at| ==> Filter(outputs, keep)[i] == outputs[at[i]]
    ensures forall k :: 0 <= k < |outputs| ==> (k in at <==> keep(outputs[k]))
  {
    if outputs == [] {
      at := [];
    } else {
      var n := |outputs| - 1;
      var front := outputs[..n];
      var before := FilterExactly(front, keep);
      IncreasingMore(before, n);
      at := if keep(outputs[n]) then before + [n] else before;
      forall i | 0 <= i < |before| ensures Filter(outputs, keep)[i] == outputs[before[i]] {
        assert Filter(outputs, keep)[i] == Filter(front, keep)[i];
      }
      forall k | 0 <= k < n ensures k in at <==> keep(outputs[k]) {
        assert front[k] == outputs[k];
      }
    }
  }

  /** What a combination of flags lets into the report. */
  predicate Lets(o: Output, flags: Flags) {
    && (flags.hideParentErrors ==> o.valid || o.description != "")
    && (flags.onlyInvalid ==> !o.valid)
  }

  /** An entry as reported: with its debug data, or without. */
  function AsReported(o: Output, debug: bool): Output {
    if debug then o else o.(debug := None)
  }

  lemma Compose(outer: seq<nat>, inner: seq<nat>, n: nat) returns (at: seq<nat>)
    requires Increasing(outer, n) && Increasing(inner, |outer|)
    ensures Increasing(at, n) && |at| == |inner| && forall i :: 0 <= i < |at| ==> at[i] == outer[inner[i]]
  {
    at := seq(|inner|, i requires 0 <= i < |inner| => outer[inner[i]]);
  }

  lemma KeptExactly(outputs: seq<Output>, flags: Flags) returns (at: seq<nat>)
    ensures Increasing(at, |outputs|) && |at| == |Kept(outputs, flags)|
    ensures forall i :: 0 <= i < |at| ==> Kept(outputs, flags)[i] == AsReported(outputs[at[i]], flags.debug)
    ensures forall k :: 0 <= k < |outputs| ==>
      (k in at <==> (flags.hideParentErrors ==> outputs[k].valid || outputs[k].description != ""))
  {
    var shown := Shown(outputs, flags.debug);
    if flags.hideParentErrors {
      at := FilterExactly(shown, Described);
    } else {
      at := seq(|outputs|, i requires 0 <= i < |outputs| => i);
      forall k | 0 <= k < |outputs| ensures k in at {
        assert at[k] == k;
      }
    }
  }

  lemma InvalidExactly(outputs: seq<Output>, kept: seq<Output>, outer: seq<nat>, debug: bool) returns (at: seq<nat>)
    requires Increasing(outer, |outputs|) && |outer| == |kept|
    requires forall i :: 0 <= i < |outer| ==> kept[i] == AsReported(outputs[outer[i]], debug)
    ensures Increasing(at, |outputs|) && |at| == |Filter(kept, Invalid)|
    ensures forall i :: 0 <= i < |at| ==> Filter(kept, Invalid)[i] == AsReported(outputs[at[i]], debug)
    ensures forall k :: 0 <= k < |outputs| ==> (k in at <==> k in outer && !outputs[k].valid)
  {
    var inner := FilterExactly(kept, Invalid);
    at := Compose(outer, inner, |outputs|);
    forall k | 0 <= k < |outputs| ensures k in at <==> k in outer && !outputs[k].valid {
      if k in at {
        var i :| 0 <= i < |at| && at[i] == k;
        assert inner[i] in inner;
      }
      if k in outer && !outputs[k].valid {
        var j :| 0 <= j < |outer| && outer[j] == k;
        assert j in inner;
        var i :| 0 <= i < |inner| && inner[i] == j;
        assert at[i] == k;
      }
    }
  }

  lemma FirstKept(all: seq<Output>, kept: seq<Output>, outer: seq<nat>, debug: bool)
    requires all != [] && Increasing(outer, |all|) && |outer| == |kept| && 0 in outer
    requires forall i :: 0 <= i < |outer| ==> kept[i] == AsReported(all[outer[i]], debug)
    ensures kept != [] && kept[0] == AsReported(all[0], debug) && Overall(all[0].name, kept) == Report([kept[0]])
  {
    var i :| 0 <= i < |outer| && outer[i] == 0;
    assert outer[0] <= outer[i];
  }

  /** The report of any evaluation under any flags: the entries that the flags let in, each once and
      in order, as long as there are any or valid ones are wanted; otherwise a valid root's own entry. */
  lemma ReportSelects(rule: Rule, doc: Document, external: Fields, flags: Flags) returns (at: seq<nat>)
    requires Eval(rule, doc, external).Ok?
    ensures var all, outcome := Eval(rule, doc, external).value, Answer(rule.name, flags, Eval(rule, doc, external));
      && Increasing(at, |all|)
      && (forall k :: 0 <= k < |all| ==> (k in at <==> Lets(all[k], flags)))
      && (at != [] || !flags.onlyInvalid ==>
            outcome.Report? && |outcome.outputs| == |at|
            && forall i :: 0 <= i < |at| ==> outcome.outputs[i] == AsReported(all[at[i]], flags.debug))
      && (at == [] && flags.onlyInvalid && all != [] && all[0].valid ==>
            outcome == Report([AsReported(all[0], flags.debug)]))
  {
    var all := Eval(rule, doc, external).value;
    var outer := KeptExactly(all, flags);
    at := outer;
    if flags.onlyInvalid {
      at := InvalidExactly(all, Kept(all, flags), outer, flags.debug);
      if at == [] && all != [] && all[0].valid {
        EvalStructure(rule, doc, external);
        FirstKept(all, Kept(all, flags), outer, flags.debug);
      }
    }
  }
}
