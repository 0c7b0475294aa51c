/** Key normalisation of a payload: objects under one property name, and objects in one array, come
    out with the same keys, the missing ones null. */
module KeyNormalizer {
  import opened RuleTree

  /** For a property name, the keys to fill objects under it with. */
  type Template = string -> set<string>

  function ObjectKeys(v: Json): set<string> {
    if v.Object? then v.fields.Keys else {}
  }

  /** The keys of every object that stands anywhere in the node as the value of the property. */
  function KeysUnder(node: Json, prop: string): set<string>
    decreases node, 0
  {
    match node
    case Array(items) => set i, k | 0 <= i < |items| && k in KeysUnder(items[i], prop) :: k
    case Object(fields) => set p, k | p in fields && k in KeysAt(p, fields[p], prop) :: k
    case _ => {}
  }

  /** The same for a node that is itself the value of property p. */
  function KeysAt(p: string, v: Json, prop: string): set<string>
    decreases v, 1
  {
    KeysUnder(v, prop) + if p == prop then ObjectKeys(v) else {}
  }

  function ArrayUnion(items: seq<Json>): set<string> {
    set i, k | 0 <= i < |items| && k in ObjectKeys(items[i]) :: k
  }

  /** An object with the given keys besides its own, each new one null, and its own values normalised. */
  function Shaped(obj: Json, extra: set<string>, t: Template): Json
    requires obj.Object?
    decreases obj, 0
  {
    Object(map k | k in obj.fields.Keys + extra :: if k in obj.fields then Value(k, obj.fields[k], t) else Null)
  }

  function Applied(node: Json, t: Template): Json
    decreases node, 1
  {
    match node
    case Array(items) => Array(seq(|items|, i requires 0 <= i < |items| => Element(items[i], ArrayUnion(items), t)))
    case Object(_) => Shaped(node, {}, t)
    case _ => node
  }

  function Element(item: Json, union: set<string>, t: Template): Json
    decreases item, 2
  {
    if item.Object? then Shaped(item, union, t) else Applied(item, t)
  }

  /** A property's value: an object is filled from the property's template. */
  function Value(prop: string, v: Json, t: Template): Json
    decreases v, 2
  {
    if v.Object? then Shaped(v, t(prop), t) else Applied(v, t)
  }

  /** The keys seen under each property of a node. */
  function Seen(node: Json): Template {
    prop => KeysUnder(node, prop)
  }

  function Normalised(node: Json): Json {
    Applied(node, Seen(node))
  }

  // ---- The two passes, as they run ----

  function Get(sets: map<string, set<string>>, prop: string): set<string> {
    if prop in sets then sets[prop] else {}
  }

  function TemplateFrom(sets: map<string, set<string>>): Template {
    prop => Get(sets, prop)
  }

  lemma Recorded(start: map<string, set<string>>, before: map<string, set<string>>, after: map<string, set<string>>,
                 fields: Fields, done: set<string>, prop: string)
    requires done <= fields.Keys && prop in fields
    requires forall p :: Get(before, p) == Get(start, p) + KeysAmong(fields, done, p)
    requires forall p :: Get(after, p) == Get(before, p) + KeysAt(prop, fields[prop], p)
    ensures forall p :: Get(after, p) == Get(start, p) + KeysAmong(fields, done + {prop}, p)
  {
    forall p ensures Get(after, p) == Get(start, p) + KeysAmong(fields, done + {prop}, p) {
      AmongMore(fields, done, prop, p);
      assert Get(before, p) == Get(start, p) + KeysAmong(fields, done, p);
      assert Get(after, p) == Get(before, p) + KeysAt(prop, fields[prop], p);
    }
  }

  lemma AllAmong(fields: Fields, prop: string)
    ensures KeysAmong(fields, fields.Keys, prop) == KeysUnder(Object(fields), prop)
  {
  }

  lemma Moves(all: set<string>, done: set<string>, todo: set<string>, k: string)
    requires done + todo == all && k in todo
    ensures (done + {k}) + (todo - {k}) == all
  {
  }

  /** The templates that the first pass fills as it goes. */
  class Templates {
    var sets: map<string, set<string>>

    constructor ()
      ensures sets == map[]
    {
      sets := map[];
    }

    /** Records an object's keys under its property, key by key. */
    method Record(prop: string, fields: Fields)
      modifies this
      ensures forall p :: Get(sets, p) == Get(old(sets), p) + if p == prop then fields.Keys else {}
    {
      if prop !in sets {
        sets := sets[prop := {}];
      }
      var todo := fields.Keys;
      ghost var start, done := sets, {};
      while todo != {}
        invariant done + todo == fields.Keys && prop in sets && sets[prop] == start[prop] + done
        invariant sets.Keys == start.Keys && forall p :: p in sets && p != prop ==> sets[p] == start[p]
        decreases |todo|
      {
        var key :| key in todo;
        Moves(fields.Keys, done, todo, key);
        sets := sets[prop := sets[prop] + {key}];
        todo, done := todo - {key}, done + {key};
      }
      assert done == fields.Keys;
    }

    /** Adds the keys of every object in the node, in whatever order Go visits properties. */
    method Collect(node: Json)
      modifies this
      ensures forall p :: Get(sets, p) == Get(old(sets), p) + KeysUnder(node, p)
      decreases node, 0
    {
      match node
      case Array(items) =>
        for i := 0 to |items|
          invariant forall p :: Get(sets, p) == Get(old(sets), p) + KeysBefore(items, i, p)
        {
          ghost var before := sets;
          Collect(items[i]);
          forall p ensures Get(sets, p) == Get(old(sets), p) + KeysBefore(items, i + 1, p) {
            BeforeMore(items, i, p);
            assert Get(sets, p) == Get(before, p) + KeysUnder(items[i], p);
          }
        }
      case Object(fields) => CollectProperties(node);
      case _ =>
    }

    method CollectProperties(node: Json)
      requires node.Object?
      modifies this
      ensures forall p :: Get(sets, p) == Get(old(sets), p) + KeysUnder(node, p)
      decreases node, 0, 0
    {
      var fields := node.fields;
      var todo := fields.Keys;
      ghost var done := {};
      while todo != {}
        invariant done + todo == fields.Keys
        invariant forall p :: Get(sets, p) == Get(old(sets), p) + KeysAmong(fields, done, p)
        decreases |todo|
      {
        var prop :| prop in todo;
        Moves(fields.Keys, done, todo, prop);
        ghost var before := sets;
        CollectProperty(prop, fields[prop]);
        Recorded(old(sets), before, sets, fields, done, prop);
        todo, done := todo - {prop}, done + {prop};
      }
      assert done == fields.Keys;
      forall p ensures KeysAmong(fields, done, p) == KeysUnder(node, p) { AllAmong(fields, p); }
    }

    method CollectProperty(prop: string, value: Json)
      modifies this
      ensures forall p :: Get(sets, p) == Get(old(sets), p) + KeysAt(prop, value, p)
      decreases value, 1
    {
      if value.Object? {
        Record(prop, value.fields);
      }
      Collect(value);
    }
  }

  function KeysBefore(items: seq<Json>, n: nat, prop: string): set<string>
    requires n <= |items|
  {
    set i, k | 0 <= i < n && k in KeysUnder(items[i], prop) :: k
  }

  lemma BeforeMore(items: seq<Json>, n: nat, prop: string)
    requires n < |items|
    ensures KeysBefore(items, n + 1, prop) == KeysBefore(items, n, prop) + KeysUnder(items[n], prop)
  {
  }

  function KeysAmong(fields: Fields, props: set<string>, prop: string): set<string>
    requires props <= fields.Keys
  {
    set p, k | p in props && k in KeysAt(p, fields[p], prop) :: k
  }

  lemma AmongMore(fields: Fields, props: set<string>, next: string, prop: string)
    requires props <= fields.Keys && next in fields
    ensures KeysAmong(fields, props + {next}, prop) == KeysAmong(fields, props, prop) + KeysAt(next, fields[next], prop)
  {
  }

  function WithNulls(fields: Fields, keys: set<string>): Fields {
    map k | k in fields.Keys + keys :: if k in fields then fields[k] else Null
  }

  lemma NullMore(fields: Fields, done: set<string>, key: string)
    ensures var now := WithNulls(fields, done);
      WithNulls(fields, done + {key}) == if key in now then now else now[key := Null]
  {
    var now := WithNulls(fields, done);
    assert WithNulls(fields, done + {key}).Keys == (if key in now then now else now[key := Null]).Keys;
  }

  lemma NoNulls(fields: Fields)
    ensures WithNulls(fields, {}) == fields
  {
  }

  /** Adds the keys that are missing, as null. */
  method FillMissing(fields: Fields, keys: set<string>) returns (filled: Fields)
    ensures filled == WithNulls(fields, keys)
  {
    filled := fields;
    NoNulls(fields);
    var todo := keys;
    ghost var done := {};
    while todo != {}
      invariant done + todo == keys && filled == WithNulls(fields, done)
      decreases |todo|
    {
      var key :| key in todo;
      Moves(keys, done, todo, key);
      NullMore(fields, done, key);
      if key !in filled {
        filled := filled[key := Null];
      }
      todo, done := todo - {key}, done + {key};
    }
    assert done == keys;
  }

  lemma UnionMore(items: seq<Json>, n: nat)
    requires n < |items|
    ensures ArrayUnion(items[..n + 1]) == ArrayUnion(items[..n]) + ObjectKeys(items[n])
  {
    var more, less := items[..n + 1], items[..n];
    assert more[n] == items[n] && forall i :: 0 <= i < n ==> more[i] == less[i];
    ItemKeys(more, n);
    forall k | k in ArrayUnion(less) ensures k in ArrayUnion(more) {
      var i :| 0 <= i < n && k in ObjectKeys(less[i]);
      ItemKeys(more, i);
    }
  }

  method UnionOf(items: seq<Json>) returns (union: set<string>)
    ensures union == ArrayUnion(items)
  {
    union := {};
    for i := 0 to |items|
      invariant union == ArrayUnion(items[..i])
    {
      UnionMore(items, i);
      if items[i].Object? {
        union := union + items[i].fields.Keys;
      }
    }
    assert items[..|items|] == items;
  }

  /** The values of an object filled with nulls, those of the listed properties normalised. */
  function Partly(obj: Json, keys: set<string>, done: set<string>, t: Template): Fields
    requires obj.Object?
  {
    map k | k in obj.fields.Keys + keys ::
      if k !in obj.fields then Null else if k in done then Value(k, obj.fields[k], t) else obj.fields[k]
  }

  lemma PartlyMore(obj: Json, keys: set<string>, done: set<string>, prop: string, t: Template)
    requires obj.Object? && prop in obj.fields.Keys + keys
    ensures Partly(obj, keys, done + {prop}, t) ==
      if prop in obj.fields then Partly(obj, keys, done, t)[prop := Value(prop, obj.fields[prop], t)]
      else Partly(obj, keys, done, t)
  {
  }

  lemma PartlyEnds(obj: Json, keys: set<string>, t: Template)
    requires obj.Object?
    ensures Partly(obj, keys, {}, t) == WithNulls(obj.fields, keys)
    ensures Object(Partly(obj, keys, obj.fields.Keys + keys, t)) == Shaped(obj, keys, t)
  {
    assert Partly(obj, keys, obj.fields.Keys + keys, t) == Shaped(obj, keys, t).fields;
  }

  /** Normalises the value of each property of an object that has been filled with nulls, in place;
      a null stays as it is. */
  method ApplyToValues(obj: Json, keys: set<string>, filled: Fields, sets: map<string, set<string>>)
    returns (out: Fields)
    requires obj.Object? && filled == WithNulls(obj.fields, keys)
    ensures Object(out) == Shaped(obj, keys, TemplateFrom(sets))
    decreases obj, 0
  {
    out := filled;
    var todo := filled.Keys;
    ghost var t, done := TemplateFrom(sets), {};
    PartlyEnds(obj, keys, t);
    while todo != {}
      invariant done + todo == obj.fields.Keys + keys && out == Partly(obj, keys, done, t)
      decreases |todo|
    {
      var prop :| prop in todo;
      Moves(obj.fields.Keys + keys, done, todo, prop);
      PartlyMore(obj, keys, done, prop, t);
      if prop in obj.fields {
        var value := ApplyToValue(prop, obj.fields[prop], sets);
        out := out[prop := value];
      }
      todo, done := todo - {prop}, done + {prop};
    }
    assert done == obj.fields.Keys + keys;
  }

  method ApplyToValue(prop: string, value: Json, sets: map<string, set<string>>) returns (out: Json)
    ensures out == Value(prop, value, TemplateFrom(sets))
    decreases value, 3
  {
    if value.Object? {
      out := FillFromTemplate(prop, value, sets);
    } else {
      out := Apply(value, sets);
    }
  }

  method Apply(node: Json, sets: map<string, set<string>>) returns (out: Json)
    ensures out == Applied(node, TemplateFrom(sets))
    decreases node, 1
  {
    match node
    case Array(items) =>
      var union := UnionOf(items);
      var result := [];
      for i := 0 to |items|
        invariant |result| == i
        invariant forall j :: 0 <= j < i ==> result[j] == Element(items[j], union, TemplateFrom(sets))
      {
        var item;
        if items[i].Object? {
          var next := FillMissing(items[i].fields, union);
          next := ApplyToValues(items[i], union, next, sets);
          item := Object(next);
        } else {
          item := Apply(items[i], sets);
        }
        result := result + [item];
      }
      return Array(result);
    case Object(fields) =>
      assert fields == WithNulls(fields, {});
      var values := ApplyToValues(node, {}, fields, sets);
      return Object(values);
    case _ => return node;
  }

  method FillFromTemplate(prop: string, obj: Json, sets: map<string, set<string>>) returns (out: Json)
    requires obj.Object?
    ensures out == Shaped(obj, Get(sets, prop), TemplateFrom(sets))
    decreases obj, 2
  {
    var base := Apply(obj, sets);
    if prop !in sets {
      return base;
    }
    var filled := FillMissing(base.fields, sets[prop]);
    return Object(filled);
  }

  /** Both passes. */
  method NormalizeKeys(input: Json) returns (out: Json)
    ensures out == Normalised(input)
  {
    var templates := new Templates();
    templates.Collect(input);
    out := Apply(input, templates.sets);
    AppliedSame(input, TemplateFrom(templates.sets), Seen(input));
  }

  /** Two templates that agree give the same result. */
  lemma {:induction false} AppliedSame(node: Json, t: Template, t': Template)
    requires forall prop :: t(prop) == t'(prop)
    ensures Applied(node, t) == Applied(node, t')
    decreases node, 1
  {
    match node
    case Array(items) =>
      var union := ArrayUnion(items);
      forall i | 0 <= i < |items| ensures Element(items[i], union, t) == Element(items[i], union, t') {
        if items[i].Object? { ShapedSame(items[i], union, t, t'); } else { AppliedSame(items[i], t, t'); }
      }
    case Object(_) => ShapedSame(node, {}, t, t');
    case _ =>
  }

  lemma {:induction false} ShapedSame(obj: Json, extra: set<string>, t: Template, t': Template)
    requires obj.Object? && forall prop :: t(prop) == t'(prop)
    ensures Shaped(obj, extra, t) == Shaped(obj, extra, t')
    decreases obj, 0
  {
    forall k | k in obj.fields ensures Value(k, obj.fields[k], t) == Value(k, obj.fields[k], t') {
      if obj.fields[k].Object? { ShapedSame(obj.fields[k], t(k), t, t'); } else { AppliedSame(obj.fields[k], t, t'); }
    }
    assert Shaped(obj, extra, t).fields == Shaped(obj, extra, t').fields;
  }

  // ---- What normalising promises ----

  /** The keys are right inside a node: every object under a property has exactly the template's keys,
      and the objects of every array have the same ones. */
  predicate Aligned(node: Json, t: Template)
    decreases node, 0
  {
    match node
    case Array(items) =>
      forall i :: 0 <= i < |items| ==>
        Aligned(items[i], t) && (items[i].Object? ==> items[i].fields.Keys == ArrayUnion(items))
    case Object(fields) => forall k :: k in fields ==> AlignedAt(k, fields[k], t)
    case _ => true
  }

  predicate AlignedAt(prop: string, v: Json, t: Template)
    decreases v, 1
  {
    Aligned(v, t) && (v.Object? ==> v.fields.Keys == t(prop))
  }

  /** Nothing is lost: values, array lengths and keys stay, at every depth, and new keys are null. */
  predicate Extends(v: Json, w: Json)
    decreases v
  {
    match v
    case Array(items) =>
      w.Array? && |w.items| == |items| && forall i :: 0 <= i < |items| ==> Extends(items[i], w.items[i])
    case Object(fields) =>
      && w.Object? && fields.Keys <= w.fields.Keys
      && (forall k :: k in fields ==> Extends(fields[k], w.fields[k]))
      && (forall k :: k in w.fields && k !in fields ==> w.fields[k] == Null)
    case _ => w == v
  }

  lemma {:induction false} ShapedExtends(obj: Json, extra: set<string>, t: Template)
    requires obj.Object?
    ensures Extends(obj, Shaped(obj, extra, t))
    decreases obj, 0
  {
    forall k | k in obj.fields ensures Extends(obj.fields[k], Value(k, obj.fields[k], t)) {
      ValueExtends(k, obj.fields[k], t);
    }
  }

  lemma {:induction false} AppliedExtends(node: Json, t: Template)
    ensures Extends(node, Applied(node, t))
    decreases node, 1
  {
    match node
    case Array(items) =>
      forall i | 0 <= i < |items| ensures Extends(items[i], Element(items[i], ArrayUnion(items), t)) {
        if items[i].Object? { ShapedExtends(items[i], ArrayUnion(items), t); } else { AppliedExtends(items[i], t); }
      }
    case Object(_) => ShapedExtends(node, {}, t);
    case _ =>
  }

  lemma {:induction false} ValueExtends(prop: string, v: Json, t: Template)
    ensures Extends(v, Value(prop, v, t))
    decreases v, 2
  {
    if v.Object? { ShapedExtends(v, t(prop), t); } else { AppliedExtends(v, t); }
  }

  /** The template has every key seen under each property of the node. */
  ghost predicate Covers(t: Template, node: Json) {
    forall prop :: KeysUnder(node, prop) <= t(prop)
  }

  lemma CoversItem(t: Template, items: seq<Json>, i: nat)
    requires i < |items| && Covers(t, Array(items))
    ensures Covers(t, items[i])
  {
    forall prop ensures KeysUnder(items[i], prop) <= t(prop) {
      assert KeysUnder(items[i], prop) <= KeysUnder(Array(items), prop);
    }
  }

  lemma CoversProperty(t: Template, fields: Fields, k: string)
    requires k in fields && Covers(t, Object(fields))
    ensures Covers(t, fields[k]) && ObjectKeys(fields[k]) <= t(k)
  {
    forall prop ensures KeysAt(k, fields[k], prop) <= t(prop) {
      assert KeysAt(k, fields[k], prop) <= KeysUnder(Object(fields), prop);
    }
    assert KeysAt(k, fields[k], k) <= t(k);
    forall prop ensures KeysUnder(fields[k], prop) <= t(prop) {
      assert KeysUnder(fields[k], prop) <= KeysAt(k, fields[k], prop);
    }
  }

  lemma {:induction false} ShapedAligned(obj: Json, extra: set<string>, t: Template)
    requires obj.Object? && Covers(t, obj)
    ensures Aligned(Shaped(obj, extra, t), t)
    decreases obj, 0
  {
    forall k | k in obj.fields ensures AlignedAt(k, Value(k, obj.fields[k], t), t) {
      CoversProperty(t, obj.fields, k);
      ValueAligned(k, obj.fields[k], t);
    }
  }

  lemma {:induction false} ValueAligned(prop: string, v: Json, t: Template)
    requires Covers(t, v) && ObjectKeys(v) <= t(prop)
    ensures AlignedAt(prop, Value(prop, v, t), t)
    decreases v, 2
  {
    if v.Object? { ShapedAligned(v, t(prop), t); } else { AppliedAligned(v, t); }
  }

  lemma ItemKeys(items: seq<Json>, i: nat)
    requires i < |items|
    ensures ObjectKeys(items[i]) <= ArrayUnion(items)
  {
    forall k | k in ObjectKeys(items[i]) ensures k in ArrayUnion(items) {
    }
  }

  lemma ElementKeys(items: seq<Json>, i: nat, t: Template)
    requires i < |items|
    ensures ObjectKeys(Element(items[i], ArrayUnion(items), t)) == if items[i].Object? then ArrayUnion(items) else {}
  {
    ItemKeys(items, i);
    if items[i].Object? { assert ObjectKeys(items[i]) + ArrayUnion(items) == ArrayUnion(items); }
  }

  lemma ElementKind(item: Json, union: set<string>, t: Template)
    ensures Element(item, union, t).Object? == item.Object?
  {
  }

  lemma SameUnion(items: seq<Json>, out: seq<Json>)
    requires |out| == |items|
    requires forall i :: 0 <= i < |out| ==> ObjectKeys(out[i]) == if items[i].Object? then ArrayUnion(items) else {}
    ensures ArrayUnion(out) == ArrayUnion(items)
  {
    var union := ArrayUnion(items);
    forall k | k in union ensures k in ArrayUnion(out) {
      var i :| 0 <= i < |items| && k in ObjectKeys(items[i]);
      ItemKeys(out, i);
    }
    forall k | k in ArrayUnion(out) ensures k in union {
      var i :| 0 <= i < |out| && k in ObjectKeys(out[i]);
    }
  }

  lemma {:induction false} AppliedAligned(node: Json, t: Template)
    requires Covers(t, node)
    ensures Aligned(Applied(node, t), t)
    decreases node, 1
  {
    match node
    case Array(items) =>
      var out := Applied(node, t).items;
      forall i | 0 <= i < |items|
        ensures Aligned(out[i], t)
        ensures ObjectKeys(out[i]) == if items[i].Object? then ArrayUnion(items) else {}
      {
        CoversItem(t, items, i);
        ElementKeys(items, i, t);
        if items[i].Object? { ShapedAligned(items[i], ArrayUnion(items), t); } else { AppliedAligned(items[i], t); }
      }
      SameUnion(items, out);
      forall i | 0 <= i < |items| && out[i].Object? ensures out[i].fields.Keys == ArrayUnion(out) {
        ElementKind(items[i], ArrayUnion(items), t);
      }
    case Object(_) => ShapedAligned(node, {}, t);
    case _ =>
  }

  /** An aligned node has no keys under a property beyond the template's. */
  lemma {:induction false} AlignedKeys(node: Json, t: Template, prop: string)
    requires Aligned(node, t)
    ensures KeysUnder(node, prop) <= t(prop)
    decreases node
  {
    match node
    case Array(items) =>
      forall i | 0 <= i < |items| ensures KeysUnder(items[i], prop) <= t(prop) { AlignedKeys(items[i], t, prop); }
    case Object(fields) =>
      forall k | k in fields ensures KeysAt(k, fields[k], prop) <= t(prop) {
        assert AlignedAt(k, fields[k], t);
        AlignedKeys(fields[k], t, prop);
      }
    case _ =>
  }

  /** Extending keeps the keys under every property. */
  lemma {:induction false} ExtendsKeys(v: Json, w: Json, prop: string)
    requires Extends(v, w)
    ensures KeysUnder(v, prop) <= KeysUnder(w, prop)
    decreases v
  {
    match v
    case Array(items) =>
      forall i | 0 <= i < |items| ensures KeysUnder(items[i], prop) <= KeysUnder(w.items[i], prop) {
        ExtendsKeys(items[i], w.items[i], prop);
      }
    case Object(fields) =>
      forall k | k in fields ensures KeysAt(k, fields[k], prop) <= KeysAt(k, w.fields[k], prop) {
        ExtendsKeys(fields[k], w.fields[k], prop);
        ExtendsObjectKeys(fields[k], w.fields[k]);
      }
    case _ =>
  }

  lemma ExtendsObjectKeys(v: Json, w: Json)
    requires Extends(v, w)
    ensures ObjectKeys(v) <= ObjectKeys(w)
  {
  }

  /** Applying templates to an aligned node changes nothing. */
  lemma {:induction false} AlignedFixed(node: Json, t: Template)
    requires Aligned(node, t)
    ensures Applied(node, t) == node
    decreases node, 1
  {
    match node
    case Array(items) =>
      forall i | 0 <= i < |items| ensures Element(items[i], ArrayUnion(items), t) == items[i] {
        if items[i].Object? { AlignedShaped(items[i], ArrayUnion(items), t); } else { AlignedFixed(items[i], t); }
      }
    case Object(_) => AlignedShaped(node, {}, t);
    case _ =>
  }

  lemma {:induction false} AlignedShaped(obj: Json, extra: set<string>, t: Template)
    requires obj.Object? && Aligned(obj, t) && extra <= obj.fields.Keys
    ensures Shaped(obj, extra, t) == obj
    decreases obj, 0
  {
    var fields := obj.fields;
    forall k | k in fields ensures Value(k, fields[k], t) == fields[k] {
      assert AlignedAt(k, fields[k], t);
      if fields[k].Object? { AlignedShaped(fields[k], t(k), t); } else { AlignedFixed(fields[k], t); }
    }
    assert Shaped(obj, extra, t).fields == fields;
  }

  /** Two templates that agree align the same nodes. */
  lemma {:induction false} SameTemplate(node: Json, t: Template, t': Template)
    requires Aligned(node, t) && forall prop :: t(prop) == t'(prop)
    ensures Aligned(node, t')
    decreases node
  {
    match node
    case Array(items) =>
      forall i | 0 <= i < |items| ensures Aligned(items[i], t') { SameTemplate(items[i], t, t'); }
    case Object(fields) =>
      forall k | k in fields ensures AlignedAt(k, fields[k], t') {
        assert AlignedAt(k, fields[k], t);
        SameTemplate(fields[k], t, t');
      }
    case _ =>
  }

  /** What the documentation promises of a payload's keys: objects under one property, and objects in
      one array, share them. */
  predicate Normal(node: Json) {
    Aligned(node, Seen(node))
  }

  /** Normalising loses nothing, gives a normal node and brings no key under a property that was not
      seen under it. */
  lemma NormalisedIsNormal(node: Json)
    ensures Extends(node, Normalised(node)) && Normal(Normalised(node))
    ensures forall prop :: KeysUnder(Normalised(node), prop) == KeysUnder(node, prop)
  {
    var out, t := Normalised(node), Seen(node);
    AppliedExtends(node, t);
    AppliedAligned(node, t);
    forall prop ensures KeysUnder(out, prop) == KeysUnder(node, prop) {
      AlignedKeys(out, t, prop);
      ExtendsKeys(node, out, prop);
    }
    SameTemplate(out, t, Seen(out));
  }

  /** The normal nodes are exactly those that normalising leaves as they are; so it is idempotent. */
  lemma NormalExactly(node: Json)
    ensures Normal(node) <==> Normalised(node) == node
    ensures Normalised(Normalised(node)) == Normalised(node)
  {
    NormalisedIsNormal(node);
    AlignedFixed(Normalised(node), Seen(Normalised(node)));
    if Normal(node) { AlignedFixed(node, Seen(node)); }
  }

  lemma {:induction false} LeastShaped(obj: Json, extra: set<string>, t: Template, w: Json, t': Template)
    requires obj.Object? && Extends(obj, w) && Aligned(w, t') && extra <= ObjectKeys(w)
    requires forall prop :: t(prop) <= t'(prop)
    ensures Extends(Shaped(obj, extra, t), w)
    decreases obj, 0
  {
    forall k | k in obj.fields ensures Extends(Value(k, obj.fields[k], t), w.fields[k]) {
      assert AlignedAt(k, w.fields[k], t');
      LeastValue(k, obj.fields[k], t, w.fields[k], t');
    }
  }

  lemma {:induction false} LeastValue(prop: string, v: Json, t: Template, w: Json, t': Template)
    requires Extends(v, w) && AlignedAt(prop, w, t') && forall p :: t(p) <= t'(p)
    ensures Extends(Value(prop, v, t), w)
    decreases v, 2
  {
    if v.Object? { LeastShaped(v, t(prop), t, w, t'); } else { LeastApplied(v, t, w, t'); }
  }

  lemma UnionExtends(items: seq<Json>, out: seq<Json>)
    requires Extends(Array(items), Array(out))
    ensures ArrayUnion(items) <= ArrayUnion(out)
  {
    forall i | 0 <= i < |items| ensures ObjectKeys(items[i]) <= ObjectKeys(out[i]) {
      ExtendsObjectKeys(items[i], out[i]);
    }
  }

  lemma {:induction false} LeastApplied(v: Json, t: Template, w: Json, t': Template)
    requires Extends(v, w) && Aligned(w, t') && forall p :: t(p) <= t'(p)
    ensures Extends(Applied(v, t), w)
    decreases v, 1
  {
    match v
    case Array(items) =>
      UnionExtends(items, w.items);
      forall i | 0 <= i < |items| ensures Extends(Element(items[i], ArrayUnion(items), t), w.items[i]) {
        if items[i].Object? {
          LeastShaped(items[i], ArrayUnion(items), t, w.items[i], t');
        } else {
          LeastApplied(items[i], t, w.items[i], t');
        }
      }
    case Object(_) => LeastShaped(v, {}, t, w, t');
    case _ =>
  }

  /** And it adds no more than it must: every normal extension of a node extends the normalised one. */
  lemma NormalisedIsLeast(node: Json, w: Json)
    requires Extends(node, w) && Normal(w)
    ensures Extends(Normalised(node), w)
  {
    forall prop ensures Seen(node)(prop) <= Seen(w)(prop) { ExtendsKeys(node, w, prop); }
    LeastApplied(node, Seen(node), w, Seen(w));
  }
}
