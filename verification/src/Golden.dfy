/**
 json_comparator.py: comparing a JSON value with a golden one. Fields the golden value lacks
 and fields on the ignore list do not count. Floats are real numbers.
 */
module Golden {
  import opened Json

  const EPSILON := 0.00000001

  /** compare_jsons on a golden value that is neither dict nor list: types must agree, and
      floats need only be close. */
  predicate ScalarMatches(golden: Json, json: Json) {
    golden == json ||
    (golden.Float? && json.Float? && -EPSILON < golden.x - json.x < EPSILON)
  }

  function Path(prefix: string, key: string): string {
    prefix + "/" + key
  }

  /** What compare_json_to_golden decides. Inside a list paths start afresh. */
  ghost predicate Matches(ignore: set<string>, prefix: string, golden: Json, json: Json)
    decreases golden, 0
  {
    match golden
    case Obj(gs) =>
      && json.Obj?
      && forall key :: key in gs && Path(prefix, key) !in ignore ==>
           key in json.fields && Matches(ignore, Path(prefix, key), gs[key], json.fields[key])
    case List(gs) =>
      && json.List?
      && forall g :: g in gs ==> HasMatch(ignore, g, json.items)
    case _ => ScalarMatches(golden, json)
  }

  ghost predicate HasMatch(ignore: set<string>, golden: Json, items: seq<Json>)
    decreases golden, 1
  {
    exists i :: 0 <= i < |items| && Matches(ignore, "", golden, items[i])
  }

  method CompareRecursively(ignore: set<string>, prefix: string, golden: Json, json: Json) returns (status: bool)
    ensures status <==> Matches(ignore, prefix, golden, json)
    decreases golden, 1
  {
    match golden
    case Obj(gs) =>
      if !json.Obj? { return false; }
      status := CompareDicts(ignore, prefix, golden, json);
    case List(gs) =>
      if !json.List? { return false; }
      status := CompareLists(ignore, golden, json);
    case _ =>
      status := ScalarMatches(golden, json);
  }

  method CompareDicts(ignore: set<string>, prefix: string, golden: Json, json: Json) returns (status: bool)
    requires golden.Obj? && json.Obj?
    ensures status <==> Matches(ignore, prefix, golden, json)
    decreases golden, 0
  {
    status := true;
    var keys := golden.fields.Keys;
    while keys != {}
      invariant keys <= golden.fields.Keys
      invariant status <==> forall key :: key in golden.fields && key !in keys && Path(prefix, key) !in ignore ==>
                  key in json.fields && Matches(ignore, Path(prefix, key), golden.fields[key], json.fields[key])
      decreases keys
    {
      var key :| key in keys;
      keys := keys - {key};
      if Path(prefix, key) !in ignore {
        if key in json.fields {
          var same := CompareRecursively(ignore, Path(prefix, key), golden.fields[key], json.fields[key]);
          if !same { status := false; }
        } else {
          status := false;
        }
      }
    }
  }

  method CompareLists(ignore: set<string>, golden: Json, json: Json) returns (status: bool)
    requires golden.List? && json.List?
    ensures status <==> forall g :: g in golden.items ==> HasMatch(ignore, g, json.items)
    decreases golden, 0
  {
    status := true;
    for n := 0 to |golden.items|
      invariant status && forall m :: 0 <= m < n ==> HasMatch(ignore, golden.items[m], json.items)
    {
      var g := golden.items[n];
      var found := false;
      for i := 0 to |json.items|
        invariant !found && forall j :: 0 <= j < i ==> !Matches(ignore, "", g, json.items[j])
      {
        found := CompareRecursively(ignore, "", g, json.items[i]);
        if found {
          assert HasMatch(ignore, g, json.items);
          break;
        }
      }
      if !found {
        assert g in golden.items && !HasMatch(ignore, g, json.items);
        status := false;
        break;
      }
    }
  }

  /* ----- what counts and what does not ----- */

  /** y says all that x says, word for word, and possibly more: further fields and further list
      elements, at any depth. */
  ghost predicate Enriches(y: Json, x: Json)
    decreases x
  {
    match x
    case Obj(fields) =>
      y.Obj? && forall key :: key in fields ==> key in y.fields && Enriches(y.fields[key], fields[key])
    case List(items) =>
      y.List? && forall i :: 0 <= i < |items| ==> exists j :: 0 <= j < |y.items| && Enriches(y.items[j], items[i])
    case _ => y == x
  }

  /** What passes still passes when it says more. */
  lemma {:induction false} SayingMoreKeepsPasses(ignore: set<string>, prefix: string, g: Json, x: Json, y: Json)
    requires Matches(ignore, prefix, g, x) && Enriches(y, x)
    ensures Matches(ignore, prefix, g, y)
    decreases g
  {
    match g
    case Obj(gs) =>
      forall key | key in gs && Path(prefix, key) !in ignore
        ensures key in y.fields && Matches(ignore, Path(prefix, key), gs[key], y.fields[key])
      {
        SayingMoreKeepsPasses(ignore, Path(prefix, key), gs[key], x.fields[key], y.fields[key]);
      }
    case List(gs) =>
      forall e | e in gs ensures HasMatch(ignore, e, y.items) {
        var n :| 0 <= n < |gs| && gs[n] == e;
        assert HasMatch(ignore, e, x.items);
        var i :| 0 <= i < |x.items| && Matches(ignore, "", e, x.items[i]);
        var j :| 0 <= j < |y.items| && Enriches(y.items[j], x.items[i]);
        SayingMoreKeepsPasses(ignore, "", gs[n], x.items[i], y.items[j]);
      }
    case _ =>
  }

  /** A field the golden dict lacks, or whose path is on the ignore list, may be there or not
      and may hold anything. */
  lemma OtherFieldsDoNotCount(ignore: set<string>, prefix: string, g: Json, x: Json, key: string, v: Json)
    requires g.Obj? && x.Obj? && (key !in g.fields || Path(prefix, key) in ignore)
    ensures Matches(ignore, prefix, g, x) <==> Matches(ignore, prefix, g, Obj(x.fields[key := v]))
    ensures Matches(ignore, prefix, g, x) <==> Matches(ignore, prefix, g, Obj(x.fields - {key}))
  {
  }

  /** Every other field of the golden dict has to be there and to pass. */
  lemma GoldenFieldsCount(ignore: set<string>, prefix: string, g: Json, x: Json, key: string)
    requires g.Obj? && key in g.fields && Path(prefix, key) !in ignore
    ensures !x.Obj? || key !in x.fields ==> !Matches(ignore, prefix, g, x)
    ensures x.Obj? && key in x.fields && !Matches(ignore, Path(prefix, key), g.fields[key], x.fields[key]) ==>
              !Matches(ignore, prefix, g, x)
  {
  }

  /** The rest of the dict decides: a field that passes can be taken out on both sides. */
  lemma FieldByField(ignore: set<string>, prefix: string, g: Json, x: Json, key: string)
    requires g.Obj? && x.Obj? && key in g.fields && Path(prefix, key) !in ignore
    ensures Matches(ignore, prefix, g, x) <==>
              && key in x.fields && Matches(ignore, Path(prefix, key), g.fields[key], x.fields[key])
              && Matches(ignore, prefix, Obj(g.fields - {key}), x)
  {
    var rest := Obj(g.fields - {key});
    assert forall k :: k in rest.fields <==> k in g.fields && k != key;
  }

  lemma HasMatchAsSet(ignore: set<string>, g: Json, items: seq<Json>)
    ensures HasMatch(ignore, g, items) <==> exists e :: e in items && Matches(ignore, "", g, e)
  {
    if e :| e in items && Matches(ignore, "", g, e) {
      var i :| 0 <= i < |items| && items[i] == e;
    }
  }

  /** Each golden element needs one that passes, whichever and however often; an empty golden
      list needs none. */
  lemma ListsPassIff(ignore: set<string>, prefix: string, g: Json, x: Json)
    requires g.List? && x.List?
    ensures Matches(ignore, prefix, g, x) <==>
              forall n :: 0 <= n < |g.items| ==> exists e :: e in x.items && Matches(ignore, "", g.items[n], e)
  {
    forall n | 0 <= n < |g.items|
      ensures HasMatch(ignore, g.items[n], x.items) <==>
              exists e :: e in x.items && Matches(ignore, "", g.items[n], e)
    {
      HasMatchAsSet(ignore, g.items[n], x.items);
    }
    assert (forall e :: e in g.items ==> HasMatch(ignore, e, x.items)) <==>
           (forall n :: 0 <= n < |g.items| ==> HasMatch(ignore, g.items[n], x.items));
  }

  /** x and y differ only in what golden value g does not ask about: in dicts, fields g lacks and
      fields on the ignore list; in lists, order and repetition. */
  ghost predicate SameFor(ignore: set<string>, prefix: string, g: Json, x: Json, y: Json)
    decreases g, 0
  {
    match g
    case Obj(gs) =>
      && (x.Obj? <==> y.Obj?)
      && (x.Obj? ==>
            forall key :: key in gs && Path(prefix, key) !in ignore ==>
              && (key in x.fields <==> key in y.fields)
              && (key in x.fields ==>
                    SameFor(ignore, Path(prefix, key), gs[key], x.fields[key], y.fields[key])))
    case List(gs) =>
      && (x.List? <==> y.List?)
      && (x.List? ==> forall e :: e in gs ==> Covers(ignore, e, x.items, y.items))
    case _ => x == y
  }

  /** Every element of xs has its like among ys and the other way round. */
  ghost predicate Covers(ignore: set<string>, g: Json, xs: seq<Json>, ys: seq<Json>)
    decreases g, 2
  {
    (forall x :: x in xs ==> HasLike(ignore, g, x, ys)) && (forall y :: y in ys ==> IsLike(ignore, g, xs, y))
  }

  ghost predicate HasLike(ignore: set<string>, g: Json, x: Json, ys: seq<Json>)
    decreases g, 1
  {
    exists y :: y in ys && SameFor(ignore, "", g, x, y)
  }

  ghost predicate IsLike(ignore: set<string>, g: Json, xs: seq<Json>, y: Json)
    decreases g, 1
  {
    exists x :: x in xs && SameFor(ignore, "", g, x, y)
  }

  /** Such values pass or fail together, however deep the differences lie. */
  lemma {:induction false} OnlyGoldenFieldsCount(ignore: set<string>, prefix: string, g: Json, x: Json, y: Json)
    requires SameFor(ignore, prefix, g, x, y)
    ensures Matches(ignore, prefix, g, x) <==> Matches(ignore, prefix, g, y)
    decreases g
  {
    match g
    case Obj(gs) =>
      if x.Obj? {
        forall key | key in gs && Path(prefix, key) !in ignore && key in x.fields
          ensures Matches(ignore, Path(prefix, key), gs[key], x.fields[key]) <==>
                  Matches(ignore, Path(prefix, key), gs[key], y.fields[key])
        {
          OnlyGoldenFieldsCount(ignore, Path(prefix, key), gs[key], x.fields[key], y.fields[key]);
        }
      }
    case List(gs) =>
      if x.List? {
        forall e | e in gs ensures HasMatch(ignore, e, x.items) <==> HasMatch(ignore, e, y.items) {
          var n :| 0 <= n < |gs| && gs[n] == e;
          forall a, b | a in x.items && b in y.items && SameFor(ignore, "", e, a, b)
            ensures Matches(ignore, "", e, a) <==> Matches(ignore, "", e, b)
          {
            OnlyGoldenFieldsCount(ignore, "", gs[n], a, b);
          }
          CoveredMatch(ignore, e, x.items, y.items);
        }
      }
    case _ =>
  }

  lemma CoveredMatch(ignore: set<string>, g: Json, xs: seq<Json>, ys: seq<Json>)
    requires Covers(ignore, g, xs, ys)
    requires forall x, y :: x in xs && y in ys && SameFor(ignore, "", g, x, y) ==>
               (Matches(ignore, "", g, x) <==> Matches(ignore, "", g, y))
    ensures HasMatch(ignore, g, xs) <==> HasMatch(ignore, g, ys)
  {
    HasMatchAsSet(ignore, g, xs);
    HasMatchAsSet(ignore, g, ys);
    if x :| x in xs && Matches(ignore, "", g, x) {
      assert HasLike(ignore, g, x, ys);
    }
    if y :| y in ys && Matches(ignore, "", g, y) {
      assert IsLike(ignore, g, xs, y);
    }
  }

  /** Values of different kinds never pass; plain values other than floats pass only when equal;
      floats pass exactly within 1e-8 of each other. */
  lemma PlainValues(ignore: set<string>, prefix: string, g: Json, x: Json)
    requires !g.Obj? && !g.List?
    ensures g.Float? && x.Float? ==>
              (Matches(ignore, prefix, g, x) <==> g.x - x.x < 0.00000001 && x.x - g.x < 0.00000001)
    ensures !(g.Float? && x.Float?) ==> (Matches(ignore, prefix, g, x) <==> g == x)
  {
  }

  /* ----- an order on values ----- */

  /** A float below x takes part in comparisons with golden value j. */
  ghost predicate HasFloatBelow(ignore: set<string>, prefix: string, j: Json, x: real)
    decreases j
  {
    match j
    case Float(y) => y < x
    case List(items) => exists i :: 0 <= i < |items| && HasFloatBelow(ignore, "", items[i], x)
    case Obj(fields) =>
      exists k :: k in fields && Path(prefix, k) !in ignore && HasFloatBelow(ignore, Path(prefix, k), fields[k], x)
    case _ => false
  }

  /** Some float takes part in comparisons with golden value j. */
  predicate ComparesFloat(ignore: set<string>, prefix: string, j: Json)
    decreases j
  {
    match j
    case Float(_) => true
    case List(items) => exists i :: 0 <= i < |items| && ComparesFloat(ignore, "", items[i])
    case Obj(fields) =>
      exists k :: k in fields && Path(prefix, k) !in ignore && ComparesFloat(ignore, Path(prefix, k), fields[k])
    case _ => false
  }

  /** Every value passes as its own golden value. */
  lemma {:induction false} Reflexive(ignore: set<string>, prefix: string, j: Json)
    ensures Matches(ignore, prefix, j, j)
    decreases j
  {
    match j
    case Obj(fields) =>
      forall key | key in fields ensures Matches(ignore, Path(prefix, key), fields[key], fields[key]) {
        Reflexive(ignore, Path(prefix, key), fields[key]);
      }
    case List(items) =>
      forall g | g in items ensures HasMatch(ignore, g, items) {
        var i :| 0 <= i < |items| && items[i] == g;
        Reflexive(ignore, "", items[i]);
      }
    case _ =>
  }

  /** Passing is transitive when no float is compared, through any nesting of lists, where each
      step may pick a different element. */
  lemma {:induction false} Transitive(ignore: set<string>, prefix: string, a: Json, b: Json, c: Json)
    requires !ComparesFloat(ignore, prefix, a)
    requires Matches(ignore, prefix, a, b) && Matches(ignore, prefix, b, c)
    ensures Matches(ignore, prefix, a, c)
    decreases a
  {
    match a
    case Obj(fields) =>
      forall key | key in fields && Path(prefix, key) !in ignore
        ensures key in c.fields && Matches(ignore, Path(prefix, key), fields[key], c.fields[key])
      {
        Transitive(ignore, Path(prefix, key), fields[key], b.fields[key], c.fields[key]);
      }
    case List(items) =>
      forall g | g in items ensures HasMatch(ignore, g, c.items) {
        var n :| 0 <= n < |items| && items[n] == g;
        assert HasMatch(ignore, g, b.items);
        var i :| 0 <= i < |b.items| && Matches(ignore, "", g, b.items[i]);
        assert HasMatch(ignore, b.items[i], c.items);
        var j :| 0 <= j < |c.items| && Matches(ignore, "", b.items[i], c.items[j]);
        Transitive(ignore, "", items[n], b.items[i], c.items[j]);
      }
    case _ =>
  }

  /** Ignoring more never turns a pass into a failure. */
  lemma {:induction false} IgnoringMoreKeepsPasses(ignore: set<string>, more: set<string>, prefix: string,
                                                   g: Json, j: Json)
    requires ignore <= more && Matches(ignore, prefix, g, j)
    ensures Matches(more, prefix, g, j)
    decreases g
  {
    match g
    case Obj(fields) =>
      forall key | key in fields && Path(prefix, key) !in more
        ensures key in j.fields && Matches(more, Path(prefix, key), fields[key], j.fields[key])
      {
        IgnoringMoreKeepsPasses(ignore, more, Path(prefix, key), fields[key], j.fields[key]);
      }
    case List(items) =>
      forall e | e in items ensures HasMatch(more, e, j.items) {
        var n :| 0 <= n < |items| && items[n] == e;
        assert HasMatch(ignore, e, j.items);
        var i :| 0 <= i < |j.items| && Matches(ignore, "", e, j.items[i]);
        IgnoringMoreKeepsPasses(ignore, more, "", items[n], j.items[i]);
      }
    case _ =>
  }

  /* ----- floats ----- */

  /** All floats moved up by d. */
  function Shift(j: Json, d: real): Json {
    match j
    case Float(x) => Float(x + d)
    case List(items) => List(seq(|items|, i requires 0 <= i < |items| => Shift(items[i], d)))
    case Obj(fields) => Obj(map k | k in fields :: Shift(fields[k], d))
    case _ => j
  }

  lemma {:induction false} SmallShiftPasses(ignore: set<string>, prefix: string, j: Json, d: real)
    requires 0.0 < d < EPSILON
    ensures Matches(ignore, prefix, j, Shift(j, d))
    decreases j
  {
    match j
    case Obj(fields) =>
      forall key | key in fields ensures Matches(ignore, Path(prefix, key), fields[key], Shift(fields[key], d)) {
        SmallShiftPasses(ignore, Path(prefix, key), fields[key], d);
      }
    case List(items) =>
      forall g | g in items ensures HasMatch(ignore, g, Shift(j, d).items) {
        var i :| 0 <= i < |items| && items[i] == g;
        SmallShiftPasses(ignore, "", items[i], d);
        assert Shift(j, d).items[i] == Shift(g, d);
      }
    case _ =>
  }

  /** Whatever passes has a compared float not much above the lowest of the golden value. */
  lemma {:induction false} PassesHaveLowFloats(ignore: set<string>, prefix: string, g: Json, j: Json, x: real)
    requires Matches(ignore, prefix, g, j) && HasFloatBelow(ignore, prefix, g, x)
    ensures HasFloatBelow(ignore, prefix, j, x + EPSILON)
    decreases g
  {
    match g
    case Obj(fields) =>
      var k :| k in fields && Path(prefix, k) !in ignore && HasFloatBelow(ignore, Path(prefix, k), fields[k], x);
      PassesHaveLowFloats(ignore, Path(prefix, k), fields[k], j.fields[k], x);
    case List(items) =>
      var n :| 0 <= n < |items| && HasFloatBelow(ignore, "", items[n], x);
      assert HasMatch(ignore, items[n], j.items);
      var i :| 0 <= i < |j.items| && Matches(ignore, "", items[n], j.items[i]);
      PassesHaveLowFloats(ignore, "", items[n], j.items[i], x);
    case _ =>
  }

  lemma {:induction false} ShiftMovesFloats(ignore: set<string>, prefix: string, j: Json, d: real, x: real)
    requires HasFloatBelow(ignore, prefix, Shift(j, d), x)
    ensures HasFloatBelow(ignore, prefix, j, x - d)
    decreases j
  {
    match j
    case Obj(fields) =>
      var k :| && k in fields && Path(prefix, k) !in ignore
               && HasFloatBelow(ignore, Path(prefix, k), Shift(fields[k], d), x);
      ShiftMovesFloats(ignore, Path(prefix, k), fields[k], d, x);
    case List(items) =>
      var n :| 0 <= n < |items| && HasFloatBelow(ignore, "", Shift(j, d).items[n], x);
      ShiftMovesFloats(ignore, "", items[n], d, x);
    case _ =>
  }

  lemma {:induction false} RaiseBound(ignore: set<string>, prefix: string, j: Json, x: real, y: real)
    requires HasFloatBelow(ignore, prefix, j, x) && x <= y
    ensures HasFloatBelow(ignore, prefix, j, y)
    decreases j
  {
    match j
    case Obj(fields) =>
      var k :| k in fields && Path(prefix, k) !in ignore && HasFloatBelow(ignore, Path(prefix, k), fields[k], x);
      RaiseBound(ignore, Path(prefix, k), fields[k], x, y);
    case List(items) =>
      var n :| 0 <= n < |items| && HasFloatBelow(ignore, "", items[n], x);
      RaiseBound(ignore, "", items[n], x, y);
    case _ =>
  }

  lemma {:induction false} SomeFloatBelow(ignore: set<string>, prefix: string, j: Json) returns (x: real)
    requires ComparesFloat(ignore, prefix, j)
    ensures HasFloatBelow(ignore, prefix, j, x)
    decreases j
  {
    match j
    case Float(y) => x := y + 1.0;
    case Obj(fields) =>
      var k :| k in fields && Path(prefix, k) !in ignore && ComparesFloat(ignore, Path(prefix, k), fields[k]);
      x := SomeFloatBelow(ignore, Path(prefix, k), fields[k]);
    case List(items) =>
      var n :| 0 <= n < |items| && ComparesFloat(ignore, "", items[n]);
      x := SomeFloatBelow(ignore, "", items[n]);
  }

  lemma {:induction false} NoFloatBelow(ignore: set<string>, prefix: string, j: Json) returns (low: real)
    ensures !HasFloatBelow(ignore, prefix, j, low)
    decreases j
  {
    low := 0.0;
    match j
    case Float(y) => low := y;
    case List(items) =>
      for n := 0 to |items|
        invariant forall i :: 0 <= i < n ==> !HasFloatBelow(ignore, "", items[i], low)
      {
        var l := NoFloatBelow(ignore, "", items[n]);
        var next := if l < low then l else low;
        forall i | 0 <= i <= n ensures !HasFloatBelow(ignore, "", items[i], next) {
          if HasFloatBelow(ignore, "", items[i], next) {
            RaiseBound(ignore, "", items[i], next, if i < n then low else l);
          }
        }
        low := next;
      }
    case Obj(fields) =>
      var keys := fields.Keys;
      while keys != {}
        invariant keys <= fields.Keys
        invariant forall k :: k in fields && k !in keys ==> !HasFloatBelow(ignore, Path(prefix, k), fields[k], low)
        decreases keys
      {
        var key :| key in keys;
        var l := NoFloatBelow(ignore, Path(prefix, key), fields[key]);
        var next := if l < low then l else low;
        forall k | k in fields && k !in keys - {key} ensures !HasFloatBelow(ignore, Path(prefix, k), fields[k], next) {
          if HasFloatBelow(ignore, Path(prefix, k), fields[k], next) {
            RaiseBound(ignore, Path(prefix, k), fields[k], next, if k == key then l else low);
          }
        }
        low, keys := next, keys - {key};
      }
    case _ =>
  }

  /** If a value passed after all its floats moved by nearly twice the tolerance, it would have
      ever lower floats. */
  lemma {:induction false} Descend(ignore: set<string>, prefix: string, j: Json, x: real, n: nat)
    requires Matches(ignore, prefix, j, Shift(j, 0.000000018)) && HasFloatBelow(ignore, prefix, j, x)
    ensures HasFloatBelow(ignore, prefix, j, x - n as real * 0.000000008)
    decreases n
  {
    if n > 0 {
      PassesHaveLowFloats(ignore, prefix, j, Shift(j, 0.000000018), x);
      ShiftMovesFloats(ignore, prefix, j, 0.000000018, x + EPSILON);
      assert x + EPSILON - 0.000000018 == x - 0.000000008;
      Descend(ignore, prefix, j, x - 0.000000008, n - 1);
      assert x - 0.000000008 - (n - 1) as real * 0.000000008 == x - n as real * 0.000000008;
    }
  }

  lemma LargeShiftFails(ignore: set<string>, prefix: string, j: Json)
    requires ComparesFloat(ignore, prefix, j)
    ensures !Matches(ignore, prefix, j, Shift(j, 0.000000018))
  {
    if Matches(ignore, prefix, j, Shift(j, 0.000000018)) {
      var low := NoFloatBelow(ignore, prefix, j);
      var x := SomeFloatBelow(ignore, prefix, j);
      var steps := ((x - low) / 0.000000008).Floor + 1;
      var n: nat := if steps < 0 then 0 else steps;
      Descend(ignore, prefix, j, x, n);
      assert n as real >= (x - low) / 0.000000008;
      RaiseBound(ignore, prefix, j, x - n as real * 0.000000008, low);
    }
  }

  lemma {:induction false} ShiftTwice(j: Json, d: real, e: real)
    ensures Shift(Shift(j, d), e) == Shift(j, d + e)
    decreases j
  {
    match j
    case Obj(fields) =>
      forall k | k in fields ensures Shift(Shift(fields[k], d), e) == Shift(fields[k], d + e) {
        ShiftTwice(fields[k], d, e);
      }
    case List(items) =>
      forall i | 0 <= i < |items| ensures Shift(Shift(items[i], d), e) == Shift(items[i], d + e) {
        ShiftTwice(items[i], d, e);
      }
      assert Shift(Shift(j, d), e).items == Shift(j, d + e).items;
    case _ =>
  }

  /** Over real numbers, passing is transitive from a golden value exactly when no float of it is
      compared: two steps within the tolerance make one beyond it. Doubles of 2^26 and more lie
      further apart than the tolerance, so among them there are no such steps. */
  lemma TransitiveIff(ignore: set<string>, prefix: string, a: Json)
    ensures !ComparesFloat(ignore, prefix, a) <==>
            forall b, c ::
              Matches(ignore, prefix, a, b) && Matches(ignore, prefix, b, c) ==> Matches(ignore, prefix, a, c)
  {
    if ComparesFloat(ignore, prefix, a) {
      var b := Shift(a, 0.000000009);
      SmallShiftPasses(ignore, prefix, a, 0.000000009);
      SmallShiftPasses(ignore, prefix, b, 0.000000009);
      ShiftTwice(a, 0.000000009, 0.000000009);
      LargeShiftFails(ignore, prefix, a);
      var c := Shift(b, 0.000000009);
      assert 0.000000009 + 0.000000009 == 0.000000018;
      assert c == Shift(a, 0.000000018);
      assert Matches(ignore, prefix, a, b) && Matches(ignore, prefix, b, c) && !Matches(ignore, prefix, a, c);
    } else {
      forall b, c | Matches(ignore, prefix, a, b) && Matches(ignore, prefix, b, c)
        ensures Matches(ignore, prefix, a, c)
      {
        Transitive(ignore, prefix, a, b, c);
      }
    }
  }
}
