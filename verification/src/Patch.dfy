/**
 Building the payload that sets one value at a path (json_helpers.py, create_data) and reading
 a value back from a path (api_resource.py, get_value_from_path).
 */
module Patch {
  import opened Json
  import opened Options

  datatype Step = Key(k: string) | Index(i: int)
  datatype Outcome = Found(value: Json) | KeyError | TypeError

  /** Python's subscript: position i of n elements, counting back from the end when negative. */
  function Position(i: int, n: nat): (p: Option<nat>)
    ensures p.Some? <==> 0 <= i + n && i < n
    ensures p.Some? ==> p.value < n && (p.value == i || p.value == n + i)
  {
    if 0 <= i < n then Some(i) else if 0 <= i + n && i < 0 then Some(n + i) else None
  }

  /** One turn of the loop of get_value_from_path; an IndexError is re-raised as KeyError. */
  function Subscript(value: Json, step: Step): Outcome {
    match (value, step)
    case (Null, _) => KeyError
    case (Obj(fields), Key(k)) => if k in fields then Found(fields[k]) else KeyError
    case (Obj(fields), Index(_)) => KeyError
    case (List(items), Index(i)) =>
      var p := Position(i, |items|);
      if p.Some? then Found(items[p.value]) else KeyError
    case (Str(s), Index(i)) =>
      var p := Position(i, |s|);
      if p.Some? then Found(Str([s[p.value]])) else KeyError
    case (_, _) => TypeError
  }

  /** Which subscripts succeed, and how the others fail. */
  lemma SubscriptOutcomes(value: Json, step: Step)
    ensures var r := Subscript(value, step);
            && (r.Found? <==>
                  || (value.Obj? && step.Key? && step.k in value.fields)
                  || (value.List? && step.Index? && -|value.items| <= step.i < |value.items|)
                  || (value.Str? && step.Index? && -|value.s| <= step.i < |value.s|))
            && (r.TypeError? <==>
                  value.Bool? || value.Int? || value.Float? || ((value.List? || value.Str?) && step.Key?))
            && (r.Found? && value.Obj? ==> r.value == value.fields[step.k])
            && (r.Found? && value.List? ==>
                  r.value == value.items[if step.i >= 0 then step.i else |value.items| + step.i])
            && (r.Found? && value.Str? ==>
                  r.value == Str([value.s[if step.i >= 0 then step.i else |value.s| + step.i]]))
  {
  }

  function Lookup(value: Json, path: seq<Step>): Outcome
    decreases |path|
  {
    if path == [] then Found(value)
    else match Subscript(value, path[0])
      case Found(v) => Lookup(v, path[1..])
      case e => e
  }

  method GetValueFromPath(body: Json, path: seq<Step>) returns (r: Outcome)
    ensures r == Lookup(body, path)
  {
    var value := body;
    for n := 0 to |path|
      invariant Lookup(body, path) == Lookup(value, path[n..])
    {
      assert path[n..][0] == path[n] && path[n..][1..] == path[n + 1..];
      match Subscript(value, path[n]) {
        case Found(v) => value := v;
        case e => return e;
      }
    }
    return Found(value);
  }

  /** The container create_data wraps around data for one path element. */
  function Wrap(step: Step, data: Json): Json {
    match step
    case Key(k) => Obj(map[k := data])
    case Index(i) => List(seq(if i < 0 then 0 else i, _ => Obj(map[])) + [data])
  }

  function Build(path: seq<Step>, value: Json): Json {
    if path == [] then value else Wrap(path[0], Build(path[1..], value))
  }

  /** What stands beside the data: nothing in a dict, empty dicts before it in a list. */
  lemma WrapPads(step: Step, data: Json)
    ensures var w := Wrap(step, data);
            && (step.Key? ==> w.Obj? && w.fields.Keys == {step.k} && w.fields[step.k] == data)
            && (step.Index? ==>
                  && w.List? && w.items != [] && w.items[|w.items| - 1] == data
                  && |w.items| == (if step.i >= 0 then step.i + 1 else 1)
                  && forall j :: 0 <= j < |w.items| - 1 ==> w.items[j] == Obj(map[]))
  {
  }

  datatype Created = Data(data: Json) | Raised

  /** The payload, given the elements of the collection to keep ([] for none). */
  function Payload(path: seq<Step>, value: Json, collection: seq<Json>): Created {
    if collection == [] then Data(Build(path, value))
    else if path == [] || path[|path| - 1].Key? then Raised
    else
      var p := Position(path[|path| - 1].i, |collection|);
      if p.None? then Raised
      else Data(Build(path[..|path| - 1], List(collection[p.value := value])))
  }

  /** A payload that cannot be made: the collection has no such element. */
  lemma PayloadRaisesIff(path: seq<Step>, value: Json, collection: seq<Json>)
    ensures Payload(path, value, collection).Raised? <==>
              && collection != []
              && !(&& path != [] && path[|path| - 1].Index?
                   && -|collection| <= path[|path| - 1].i < |collection|)
  {
  }

  method CreateData(path: seq<Step>, value: Json, collection: array?<Json>) returns (r: Created)
    modifies collection
    ensures r == Payload(path, value, if collection == null then [] else old(collection[..]))
    ensures collection != null && collection.Length > 0 && r.Data? ==>
              var p := Position(path[|path| - 1].i, collection.Length).value;
              collection[..] == old(collection[..])[p := value]
    ensures collection != null && r.Raised? ==> collection[..] == old(collection[..])
  {
    var data := value;
    var rest := path;
    if collection != null && collection.Length > 0 {
      if path == [] || path[|path| - 1].Key? { return Raised; }
      var p := Position(path[|path| - 1].i, collection.Length);
      if p.None? { return Raised; }
      collection[p.value] := value;
      data := List(collection[..]);
      rest := path[..|path| - 1];
    }
    ghost var inner := data;
    var n := |rest|;
    while n > 0
      invariant 0 <= n <= |rest|
      invariant data == Build(rest[n..], inner)
    {
      n := n - 1;
      data := Wrap(rest[n], data);
      assert rest[n..][0] == rest[n] && rest[n..][1..] == rest[n + 1..];
    }
    assert rest[0..] == rest;
    return Data(data);
  }

  /* ----- reading back ----- */

  /** Indices the padding reaches: the last element is also the one at -1. */
  predicate Reachable(path: seq<Step>) {
    forall n :: 0 <= n < |path| && path[n].Index? ==> path[n].i >= -1
  }

  /** Looking up the path a payload was built for gives the value back, for exactly those
      paths that use no index below -1. */
  lemma {:induction false} BuildThenLookupIff(path: seq<Step>, value: Json)
    ensures Lookup(Build(path, value), path) == Found(value) <==> Reachable(path)
  {
    if path != [] {
      var rest := path[1..];
      BuildThenLookupIff(rest, value);
      assert Reachable(path) <==> (path[0].Index? ==> path[0].i >= -1) && Reachable(rest) by {
        assert forall n :: 0 <= n < |rest| ==> rest[n] == path[n + 1];
        assert forall n :: 1 <= n < |path| ==> path[n] == rest[n - 1];
      }
      var built := Build(path, value);
      if path[0].Index? && path[0].i >= -1 {
        var k := if path[0].i < 0 then 0 else path[0].i;
        assert built.items[k] == Build(rest, value);
      }
    }
  }

  lemma {:induction false} LookupConcat(value: Json, p: seq<Step>, q: seq<Step>)
    ensures Lookup(value, p + q) == match Lookup(value, p)
                                    case Found(v) => Lookup(v, q)
                                    case e => e
    decreases |p|
  {
    if p == [] {
      assert p + q == q;
    } else {
      assert (p + q)[1..] == p[1..] + q;
      match Subscript(value, p[0])
      case Found(v) => LookupConcat(v, p[1..], q);
      case _ =>
    }
  }

  lemma {:induction false} BuildConcat(p: seq<Step>, q: seq<Step>, value: Json)
    ensures Build(p + q, value) == Build(p, Build(q, value))
    decreases |p|
  {
    if p == [] {
      assert p + q == q;
    } else {
      assert (p + q)[1..] == p[1..] + q;
      BuildConcat(p[1..], q, value);
    }
  }

  /** A payload sets its path and nothing beside it: at every point of the path other keys are
      missing, lists end with the path's element, and the elements before it are empty dicts. */
  lemma PayloadSetsNothingElse(p: seq<Step>, step: Step, q: seq<Step>, value: Json, other: Step)
    requires Reachable(p) && other != step
    ensures var r := Lookup(Build(p + [step] + q, value), p + [other]);
            match (step, other)
            case (Index(i), Index(j)) =>
              && (0 <= j < i ==> r == Found(Obj(map[])))
              && (j > i && j > 0 ==> r == KeyError)
            case (Key(_), _) => r == KeyError
            case (Index(_), Key(_)) => r == TypeError
  {
    var inner := Wrap(step, Build(q, value));
    assert p + [step] + q == p + ([step] + q);
    BuildConcat(p, [step] + q, value);
    assert ([step] + q)[1..] == q;
    BuildThenLookupIff(p, inner);
    LookupConcat(Build(p, inner), p, [other]);
    assert [other][1..] == [];
    WrapPads(step, Build(q, value));
    SubscriptOutcomes(inner, other);
  }

  /** Patching one index of a collection sends the whole collection: the payload holds the new
      value at that index and every other element as it was. */
  lemma PatchKeepsOtherElements(path: seq<Step>, i: int, value: Json, collection: seq<Json>, j: nat)
    requires Reachable(path) && Position(i, |collection|).Some? && j < |collection|
    ensures var r := Payload(path + [Index(i)], value, collection);
            && r.Data?
            && Lookup(r.data, path + [Index(j)]) ==
               Found(if j == Position(i, |collection|).value then value else collection[j])
            && Lookup(r.data, path) == Found(List(collection[Position(i, |collection|).value := value]))
  {
    var full := path + [Index(i)];
    assert full[..|full| - 1] == path;
    var inner := List(collection[Position(i, |collection|).value := value]);
    BuildThenLookupIff(path, inner);
    LookupConcat(Build(path, inner), path, [Index(j)]);
    assert [Index(j)][1..] == [];
    assert Lookup(inner, [Index(j)]) == Lookup(inner.items[j], []);
  }
}
