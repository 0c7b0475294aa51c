/** The evaluator as the generated code runs it: loops that append, overwrite and return early,
    working on freshly cloned objects that it writes to and deletes from. */
module RuleEvaluator {
  import opened Wrappers
  import opened RuleTree

  /** A mutable JSON object. Nested values are immutable here: the evaluator writes one top-level key. */
  class JsonObject {
    var fields: Fields

    constructor (fields: Fields)
      ensures this.fields == fields
    {
      this.fields := fields;
    }

    method Put(key: string, value: Json)
      modifies this
      ensures fields == old(fields)[key := value]
    {
      fields := fields[key := value];
    }

    method Delete(key: string)
      modifies this
      ensures fields == old(fields) - {key}
    {
      fields := fields - {key};
    }
  }

  /** A reference a JSONPath query hands out: into the payload itself, not a copy. */
  datatype Node = ObjectNode(obj: JsonObject) | OtherNode

  /** The caller's payload: its objects, and which of its nodes each path selects. */
  class Payload {
    const objects: set<JsonObject>
    const select: string -> seq<Node>

    constructor (objects: set<JsonObject>, select: string -> seq<Node>)
      ensures this.objects == objects && this.select == select
    {
      this.objects := objects;
      this.select := select;
    }

    /** The payload currently reads as the document. */
    ghost predicate Shows(doc: Document)
      reads objects
    {
      forall path: string :: Agree(select(path), doc(path))
    }

    ghost predicate Agree(nodes: seq<Node>, elements: seq<Element>)
      reads objects
    {
      |nodes| == |elements| && forall i :: 0 <= i < |nodes| ==>
        match nodes[i]
        case ObjectNode(obj) => obj in objects && elements[i] == ObjectElement(obj.fields)
        case OtherNode => elements[i] == OtherElement
    }
  }

  /** Clones a selected node; None stands for a clone that is not an object. */
  method Clone(node: Node) returns (clone: Option<JsonObject>)
    ensures clone.Some? <==> node.ObjectNode?
    ensures clone.Some? ==> fresh(clone.value) && clone.value.fields == node.obj.fields
  {
    match node
    case ObjectNode(obj) =>
      var copy := new JsonObject(obj.fields);
      clone := Some(copy);
    case OtherNode =>
      clone := None;
  }

  method Conclude(name: string, valid: bool, config: string) returns (result: Output)
    ensures result == Entry(name, valid, config)
  {
    var code := 0;
    if valid {
      code := CODE_VALID;
    } else {
      code := CODE_INVALID;
    }
    result := Output(name, valid, code, "", Some(config));
  }

  /** Runs one rule. It has no modifies clause: the caller's payload and external data, and every
      other object that existed before, are left as they were. */
  method Evaluate(rule: Rule, payload: Payload, external: JsonObject, ghost doc: Document)
    returns (result: Evaluation)
    requires payload.Shows(doc)
    ensures result == Eval(rule, doc, external.fields)
    ensures payload.Shows(doc)
    decreases rule, 1
  {
    if rule.Leaf? {
      result := EvaluateLeaf(rule, payload, external, doc);
    } else {
      result := EvaluateGroup(rule, payload, external, doc);
    }
  }

  method EvaluateLeaf(rule: Rule, payload: Payload, external: JsonObject, ghost doc: Document)
    returns (result: Evaluation)
    requires rule.Leaf? && payload.Shows(doc)
    ensures result == Eval(rule, doc, external.fields)
    decreases rule, 0
  {
    var nodes := payload.select(rule.scope);
    ghost var scope := doc(rule.scope);
    assert payload.Agree(nodes, scope);
    var config := "";
    var i := 0;
    while i < |nodes|
      invariant 0 <= i <= |nodes|
      invariant payload.Agree(nodes, scope)
      invariant Scans(rule, scope, external.fields, i)
      invariant config == if exists j :: 0 <= j < i && Applies(rule, scope[j], external.fields) then rule.config else ""
    {
      var clone := Clone(nodes[i]);
      if clone.None? {
        assert scope[i].OtherElement?;
        return Err(rule.name);
      }
      var obj := clone.value;
      obj.Put(EXTERNAL, Object(external.fields));
      assert obj.fields == Visible(scope[i].fields, external.fields);
      if rule.skip(obj.fields) {
        i := i + 1;
        continue;
      }
      assert Applies(rule, scope[i], external.fields);
      var valid := rule.check(obj.fields);
      config := rule.config;
      if !valid {
        assert LeafFails(rule, doc, external.fields);
        assert !LeafErrs(rule, doc, external.fields);
        obj.Delete(EXTERNAL);
        return Ok([Failure(rule)]);
      }
      obj.Delete(EXTERNAL);
      i := i + 1;
    }
    var entry := Conclude(rule.name, true, config);
    return Ok([entry]);
  }

  method EvaluateGroup(rule: Rule, payload: Payload, external: JsonObject, ghost doc: Document)
    returns (result: Evaluation)
    requires rule.Group? && payload.Shows(doc)
    ensures result == Eval(rule, doc, external.fields)
    decreases rule, 0
  {
    var nodes := payload.select(rule.scope);
    ghost var scope := doc(rule.scope);
    ghost var nested := EvalAll(rule.children, doc, external.fields);
    assert payload.Agree(nodes, scope);
    var subResults := [];
    var valid := true;
    var config := "";
    ghost var entered := false;
    var i := 0;
    while i < |nodes|
      invariant 0 <= i <= |nodes|
      invariant payload.Shows(doc) && payload.Agree(nodes, scope)
      invariant forall j :: 0 <= j < i ==> scope[j].ObjectElement?
      invariant entered <==> exists j :: 0 <= j < i && Applies(rule, scope[j], external.fields)
      invariant entered ==>
        nested.Ok? && subResults == nested.value && valid == AllValid(nested.value) && config == NESTED
      invariant !entered ==> subResults == [] && valid && config == ""
    {
      var clone := Clone(nodes[i]);
      if clone.None? {
        assert scope[i].OtherElement?;
        assert !entered ==> BlockedEarly(rule, doc, external.fields);
        return Err(rule.name);
      }
      var obj := clone.value;
      obj.Put(EXTERNAL, Object(external.fields));
      assert obj.fields == Visible(scope[i].fields, external.fields);
      if rule.skip(obj.fields) {
        i := i + 1;
        continue;
      }
      assert Applies(rule, scope[i], external.fields);
      var all := RunChildren(rule, payload, external, doc);
      if all.Err? {
        assert !BlockedEarly(rule, doc, external.fields);
        return all;
      }
      subResults := all.value;
      valid := CheckAll(subResults);
      config := NESTED;
      obj.Delete(EXTERNAL);
      entered := true;
      i := i + 1;
    }
    assert OtherElement !in scope && !BlockedEarly(rule, doc, external.fields);
    assert entered <==> Entered(rule, doc, external.fields);
    var entry := Conclude(rule.name, valid, config);
    assert !entered ==> [entry] + subResults == [entry];
    return Ok([entry] + subResults);
  }

  /** Runs the children in order on the group's own input and appends their result lists. */
  method RunChildren(rule: Rule, payload: Payload, external: JsonObject, ghost doc: Document)
    returns (result: Evaluation)
    requires rule.Group? && payload.Shows(doc)
    ensures result == EvalAll(rule.children, doc, external.fields)
    decreases rule, 0, 0
  {
    var allResults := [];
    ghost var all := EvalAll(rule.children, doc, external.fields);
    assert rule.children[0..] == rule.children;
    assert all.Ok? ==> [] + all.value == all.value;
    var k := 0;
    while k < |rule.children|
      invariant 0 <= k <= |rule.children|
      invariant payload.Shows(doc)
      invariant all == Prefixed(allResults, EvalAll(rule.children[k..], doc, external.fields))
    {
      ghost var rest := EvalAll(rule.children[k + 1..], doc, external.fields);
      assert rule.children[k..][1..] == rule.children[k + 1..];
      var results := Evaluate(rule.children[k], payload, external, doc);
      if results.Err? {
        return results;
      }
      assert rest.Ok? ==> allResults + (results.value + rest.value) == (allResults + results.value) + rest.value;
      allResults := allResults + results.value;
      k := k + 1;
    }
    assert rule.children[k..] == [] && allResults + [] == allResults;
    return Ok(allResults);
  }

  function Prefixed(prefix: seq<Output>, rest: Evaluation): Evaluation {
    if rest.Err? then rest else Ok(prefix + rest.value)
  }

  method CheckAll(outputs: seq<Output>) returns (valid: bool)
    ensures valid == AllValid(outputs)
  {
    valid := true;
    for i := 0 to |outputs|
      invariant valid && forall j :: 0 <= j < i ==> outputs[j].valid
    {
      if !outputs[i].valid {
        valid := false;
        break;
      }
    }
  }
}
