/** What the key normaliser promises, by where objects stand: no template, no union, no recursion over
    the payload. */
module KeySharing {
  import opened KeyNormalizer
  import opened PayloadGraph
  import opened RuleTree
  import opened Wrappers

  /** Objects that are values of one property, anywhere, have the same keys, and so do objects that are
      items of one array. */
  ghost predicate Shared(v: Json) {
    && (forall a: Location, b: Location, prop: string ::
          ObjectAt(v, a + [Key(prop)]) && ObjectAt(v, b + [Key(prop)]) ==>
            FieldsAt(v, a + [Key(prop)]).Keys == FieldsAt(v, b + [Key(prop)]).Keys)
    && (forall a: Location, i: nat, j: nat ::
          ObjectAt(v, a + [Index(i)]) && ObjectAt(v, a + [Index(j)]) ==>
            FieldsAt(v, a + [Index(i)]).Keys == FieldsAt(v, a + [Index(j)]).Keys)
  }

  /** Going on from a node is going on from where it stands. */
  lemma {:induction false} AtMore(v: Json, a: Location, b: Location)
    ensures At(v, a + b) == if At(v, a).Some? then At(At(v, a).value, b) else None
    decreases a
  {
    if a == [] {
      assert a + b == b;
    } else {
      assert a + b == [a[0]] + (a[1..] + b) && a == [a[0]] + a[1..];
      AtSteps(v, a[0], a[1..] + b);
      AtSteps(v, a[0], a[1..]);
      match (v, a[0])
      case (Object(fields), Key(k)) => if k in fields { AtMore(fields[k], a[1..], b); }
      case (Array(items), Index(i)) => if i < |items| { AtMore(items[i], a[1..], b); }
      case _ =>
    }
  }

  /** The value of a property, and an item, in one step. */
  lemma AtOne(v: Json, step: Step)
    ensures At(v, [step]) ==
      if v.Object? && step.Key? && step.k in v.fields then Some(v.fields[step.k])
      else if v.Array? && step.Index? && step.i < |v.items| then Some(v.items[step.i])
      else None
  {
    AtSteps(v, step, []);
    assert [step] + [] == [step];
  }

  // ---- The keys seen under a property are those of the objects that stand there ----

  lemma {:induction false} UnderStands(v: Json, prop: string, key: string) returns (a: Location)
    requires key in KeysUnder(v, prop)
    ensures ObjectAt(v, a + [Key(prop)]) && key in FieldsAt(v, a + [Key(prop)])
    decreases v
  {
    match v
    case Array(items) =>
      var i :| 0 <= i < |items| && key in KeysUnder(items[i], prop);
      var below := UnderStands(items[i], prop, key);
      a := Deeper(v, Index(i), below, prop);
    case Object(fields) =>
      var p :| p in fields && key in KeysAt(p, fields[p], prop);
      if key in KeysUnder(fields[p], prop) {
        var below := UnderStands(fields[p], prop, key);
        a := Deeper(v, Key(p), below, prop);
      } else {
        AtOne(v, Key(p));
        a := [];
        assert a + [Key(prop)] == [Key(p)];
      }
  }

  lemma Deeper(v: Json, step: Step, below: Location, prop: string) returns (a: Location)
    requires At(v, [step]).Some?
    ensures a == [step] + below && At(v, a + [Key(prop)]) == At(At(v, [step]).value, below + [Key(prop)])
  {
    a := [step] + below;
    assert a + [Key(prop)] == [step] + (below + [Key(prop)]);
    AtMore(v, [step], below + [Key(prop)]);
  }

  lemma {:induction false} StandsUnder(v: Json, a: Location, prop: string)
    requires ObjectAt(v, a + [Key(prop)])
    ensures FieldsAt(v, a + [Key(prop)]).Keys <= KeysUnder(v, prop)
    decreases a
  {
    if a == [] {
      assert a + [Key(prop)] == [Key(prop)];
      AtOne(v, Key(prop));
      assert KeysAt(prop, v.fields[prop], prop) <= KeysUnder(v, prop);
    } else {
      assert a + [Key(prop)] == [a[0]] + (a[1..] + [Key(prop)]);
      AtSteps(v, a[0], a[1..] + [Key(prop)]);
      match (v, a[0])
      case (Object(fields), Key(k)) =>
        StandsUnder(fields[k], a[1..], prop);
        assert KeysAt(k, fields[k], prop) <= KeysUnder(v, prop);
      case (Array(items), Index(i)) =>
        StandsUnder(items[i], a[1..], prop);
        assert KeysUnder(items[i], prop) <= KeysUnder(v, prop);
    }
  }

  // ---- Being aligned is a condition on each node by itself ----

  predicate AlignedHere(node: Json, t: Template) {
    && (node.Object? ==> forall k :: k in node.fields && node.fields[k].Object? ==> node.fields[k].fields.Keys == t(k))
    && (node.Array? ==> forall i :: 0 <= i < |node.items| && node.items[i].Object? ==>
          node.items[i].fields.Keys == ArrayUnion(node.items))
  }

  lemma {:induction false} AlignedEverywhere(v: Json, t: Template, a: Location)
    requires Aligned(v, t) && At(v, a).Some?
    ensures AlignedHere(At(v, a).value, t)
    decreases a
  {
    if a == [] {
      if v.Object? {
        assert forall k :: k in v.fields ==> AlignedAt(k, v.fields[k], t);
      }
    } else {
      match (v, a[0])
      case (Object(fields), Key(k)) =>
        assert AlignedAt(k, fields[k], t);
        AlignedEverywhere(fields[k], t, a[1..]);
      case (Array(items), Index(i)) => AlignedEverywhere(items[i], t, a[1..]);
    }
  }

  lemma {:induction false} EverywhereAligned(v: Json, t: Template)
    requires forall a: Location :: At(v, a).Some? ==> AlignedHere(At(v, a).value, t)
    ensures Aligned(v, t)
    decreases v
  {
    assert At(v, []) == Some(v) && AlignedHere(v, t);
    match v
    case Array(items) =>
      forall i | 0 <= i < |items| ensures Aligned(items[i], t) {
        EverywhereBelow(v, Index(i), t);
        EverywhereAligned(items[i], t);
      }
    case Object(fields) =>
      forall k | k in fields ensures AlignedAt(k, fields[k], t) {
        EverywhereBelow(v, Key(k), t);
        EverywhereAligned(fields[k], t);
      }
    case _ =>
  }

  lemma EverywhereBelow(v: Json, step: Step, t: Template)
    requires forall a: Location :: At(v, a).Some? ==> AlignedHere(At(v, a).value, t)
    ensures At(v, [step]).Some? ==>
      forall a: Location :: At(At(v, [step]).value, a).Some? ==> AlignedHere(At(At(v, [step]).value, a).value, t)
    ensures At(v, [step]) ==
      if v.Object? && step.Key? && step.k in v.fields then Some(v.fields[step.k])
      else if v.Array? && step.Index? && step.i < |v.items| then Some(v.items[step.i])
      else None
  {
    AtOne(v, step);
    if At(v, [step]).Some? {
      forall a: Location | At(At(v, [step]).value, a).Some?
        ensures AlignedHere(At(At(v, [step]).value, a).value, t)
      {
        AtMore(v, [step], a);
      }
    }
  }

  // ---- So the normal payloads are those whose objects share their keys ----

  lemma NormalShares(v: Json)
    requires Normal(v)
    ensures Shared(v)
  {
    forall a: Location, prop: string | ObjectAt(v, a + [Key(prop)])
      ensures FieldsAt(v, a + [Key(prop)]).Keys == Seen(v)(prop)
    {
      StepFrom(v, a, Key(prop));
      AlignedEverywhere(v, Seen(v), a);
    }
    forall a: Location, i: nat, j: nat | ObjectAt(v, a + [Index(i)]) && ObjectAt(v, a + [Index(j)])
      ensures FieldsAt(v, a + [Index(i)]).Keys == FieldsAt(v, a + [Index(j)]).Keys
    {
      StepFrom(v, a, Index(i));
      StepFrom(v, a, Index(j));
      AlignedEverywhere(v, Seen(v), a);
    }
  }

  /** A step leads from an object to the value of its property, from an array to its item. */
  lemma StepFrom(v: Json, a: Location, step: Step)
    ensures At(v, a + [step]).Some? <==>
      && At(v, a).Some?
      && var node := At(v, a).value;
         (node.Object? && step.Key? && step.k in node.fields) || (node.Array? && step.Index? && step.i < |node.items|)
    ensures At(v, a + [step]).Some? ==>
      At(v, a + [step]).value ==
        if step.Key? then At(v, a).value.fields[step.k] else At(v, a).value.items[step.i]
  {
    AtMore(v, a, [step]);
    if At(v, a).Some? { AtOne(At(v, a).value, step); }
  }

  lemma SharedHere(v: Json, a: Location)
    requires Shared(v) && At(v, a).Some?
    ensures AlignedHere(At(v, a).value, Seen(v))
  {
    var node := At(v, a).value;
    match node
    case Object(fields) =>
      forall k | k in fields && fields[k].Object? ensures fields[k].fields.Keys == Seen(v)(k) {
        StepFrom(v, a, Key(k));
        StandsUnder(v, a, k);
        forall key | key in KeysUnder(v, k) ensures key in fields[k].fields {
          var b := UnderStands(v, k, key);
          assert FieldsAt(v, a + [Key(k)]).Keys == FieldsAt(v, b + [Key(k)]).Keys;
        }
      }
    case Array(items) =>
      forall i | 0 <= i < |items| && items[i].Object? ensures items[i].fields.Keys == ArrayUnion(items) {
        StepFrom(v, a, Index(i));
        ItemKeys(items, i);
        forall key | key in ArrayUnion(items) ensures key in items[i].fields {
          var j :| 0 <= j < |items| && key in ObjectKeys(items[j]);
          StepFrom(v, a, Index(j));
          assert FieldsAt(v, a + [Index(i)]).Keys == FieldsAt(v, a + [Index(j)]).Keys;
        }
      }
    case _ =>
  }

  lemma SharedExactly(v: Json)
    ensures Normal(v) <==> Shared(v)
  {
    if Normal(v) { NormalShares(v); }
    if Shared(v) {
      forall a: Location | At(v, a).Some? ensures AlignedHere(At(v, a).value, Seen(v)) { SharedHere(v, a); }
      EverywhereAligned(v, Seen(v));
    }
  }

  /** The normaliser gives the least extension of a payload in which objects share their keys. */
  lemma LeastSharing(node: Json, w: Json)
    ensures Extends(node, Normalised(node)) && Shared(Normalised(node))
    ensures Extends(node, w) && Shared(w) ==> Extends(Normalised(node), w)
    ensures Normalised(node) == node <==> Shared(node)
  {
    NormalisedIsNormal(node);
    NormalExactly(node);
    SharedExactly(node);
    SharedExactly(w);
    SharedExactly(Normalised(node));
    if Extends(node, w) && Shared(w) { NormalisedIsLeast(node, w); }
  }
}
