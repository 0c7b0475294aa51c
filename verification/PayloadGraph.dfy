/** A payload as the object graph that rules walk: one mutable object for every object in the JSON
    value, reached by where it stands. */
module PayloadGraph {
  import opened RuleEvaluator
  import opened RuleTree
  import opened Wrappers

  datatype Step = Key(k: string) | Index(i: nat)

  /** Where a node stands in a value: the steps down to it. */
  type Location = seq<Step>

  /** GetJsonPath: the nodes a path selects from a value, in order; a location that holds no node
      stands for a result that is not one, such as the text put in place of null. */
  type Query = (Json, string) -> seq<Location>

  function At(value: Json, loc: Location): Option<Json>
    decreases loc
  {
    if loc == [] then Some(value)
    else match (value, loc[0])
      case (Object(fields), Key(k)) => if k in fields then At(fields[k], loc[1..]) else None
      case (Array(items), Index(i)) => if i < |items| then At(items[i], loc[1..]) else None
      case _ => None
  }

  predicate ObjectAt(value: Json, loc: Location) {
    At(value, loc).Some? && At(value, loc).value.Object?
  }

  /** What a query result is to a rule. */
  function Selected(value: Json, loc: Location): Element {
    if ObjectAt(value, loc) then ObjectElement(At(value, loc).value.fields) else OtherElement
  }

  function Elements(value: Json, locs: seq<Location>): (r: seq<Element>)
    ensures |r| == |locs| && forall i :: 0 <= i < |r| ==> r[i] == Selected(value, locs[i])
  {
    seq(|locs|, i requires 0 <= i < |locs| => Selected(value, locs[i]))
  }

  /** The document the rules see: what each path selects. */
  function Queried(query: Query, value: Json): Document {
    path => Elements(value, query(value, path))
  }

  function ObjectLocations(value: Json): set<Location> {
    match value
    case Array(items) => set i, loc | 0 <= i < |items| && loc in ObjectLocations(items[i]) :: [Index(i)] + loc
    case Object(fields) => {[]} + set k, loc | k in fields && loc in ObjectLocations(fields[k]) :: [Key(k)] + loc
    case _ => {}
  }

  lemma {:induction false} LocationsExact(value: Json, loc: Location)
    ensures loc in ObjectLocations(value) <==> ObjectAt(value, loc)
    decreases loc
  {
    if loc != [] {
      assert loc == [loc[0]] + loc[1..];
      match (value, loc[0])
      case (Object(fields), Key(k)) => if k in fields { LocationsExact(fields[k], loc[1..]); }
      case (Array(items), Index(i)) => if i < |items| { LocationsExact(items[i], loc[1..]); }
      case _ =>
    }
  }

  function NodeAt(nodes: map<Location, JsonObject>, loc: Location): Node {
    if loc in nodes then ObjectNode(nodes[loc]) else OtherNode
  }

  function FieldsAt(value: Json, loc: Location): Fields {
    if ObjectAt(value, loc) then At(value, loc).value.fields else map[]
  }

  /** A fresh object for each location, with these fields. */
  method Allocate(contents: map<Location, Fields>) returns (nodes: map<Location, JsonObject>)
    ensures nodes.Keys == contents.Keys
    ensures forall loc :: loc in nodes ==> fresh(nodes[loc]) && nodes[loc].fields == contents[loc]
  {
    nodes := map[];
    var todo := contents.Keys;
    while todo != {}
      invariant todo <= contents.Keys
      invariant forall loc :: loc in nodes <==> loc in contents && loc !in todo
      invariant forall loc :: loc in nodes ==> fresh(nodes[loc]) && nodes[loc].fields == contents[loc]
      decreases |todo|
    {
      var loc :| loc in todo;
      var node := new JsonObject(contents[loc]);
      nodes := nodes[loc := node];
      todo := todo - {loc};
    }
  }

  function Nodes(nodes: map<Location, JsonObject>, locs: seq<Location>): (r: seq<Node>)
    ensures |r| == |locs| && forall i :: 0 <= i < |r| ==> r[i] == NodeAt(nodes, locs[i])
  {
    seq(|locs|, i requires 0 <= i < |locs| => NodeAt(nodes, locs[i]))
  }

  /** The graph of a value, as queries see it. */
  method Build(value: Json, query: Query) returns (payload: Payload)
    ensures fresh(payload) && fresh(payload.objects) && payload.Shows(Queried(query, value))
  {
    forall loc ensures loc in ObjectLocations(value) <==> ObjectAt(value, loc) { LocationsExact(value, loc); }
    var nodes := Allocate(map loc | loc in ObjectLocations(value) :: FieldsAt(value, loc));
    payload := new Payload(set loc | loc in nodes :: nodes[loc], path => Nodes(nodes, query(value, path)));
    forall path: string ensures payload.Agree(payload.select(path), Queried(query, value)(path)) {
      var locs := query(value, path);
      assert payload.select(path) == Nodes(nodes, locs);
      forall i | 0 <= i < |locs| ensures locs[i] in nodes <==> ObjectAt(value, locs[i]) {
      }
    }
  }

  /** A location is followed step by step, through the properties of objects and the items of arrays. */
  lemma AtSteps(value: Json, step: Step, loc: Location)
    ensures At(value, []) == Some(value)
    ensures At(value, [step] + loc) ==
      if value.Object? && step.Key? && step.k in value.fields then At(value.fields[step.k], loc)
      else if value.Array? && step.Index? && step.i < |value.items| then At(value.items[step.i], loc)
      else None
  {
    assert ([step] + loc)[1..] == loc;
  }

  /** What rules see of a query's results: the fields of those that are objects, in order. */
  lemma QueriedExactly(query: Query, value: Json, path: string, i: nat)
    requires i < |query(value, path)|
    ensures |Queried(query, value)(path)| == |query(value, path)|
    ensures forall f: Fields ::
      Queried(query, value)(path)[i] == ObjectElement(f) <==> At(value, query(value, path)[i]) == Some(Object(f))
  {
  }
}
