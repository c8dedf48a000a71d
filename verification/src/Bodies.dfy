/**
 The bodies a service answers with, and the @odata.id texts api_explorer.py finds in them.
 */
module Bodies {
  import opened Options

  /** A parsed body. Nothing is null; Leaf holds the text str.format gives for any other
      plain value. */
  datatype Body = Dict(items: seq<Pair>) | ListOf(values: seq<Body>) | Leaf(text: string) | Nothing
  datatype Pair = Pair(key: string, value: Body)

  const ODATA_ID := "@odata.id"

  /** The text of a plain value. */
  function TextOf(b: Body): Option<string> {
    match b
    case Leaf(text) => Some(text)
    case Nothing => Some("None")
    case _ => None
  }

  /** __transform_soup_into_flat_list: "key=value" for every plain value at any depth. Values
      of a list are searched only when they are dicts. */
  function Flat(b: Body): seq<string>
    decreases b, 1
  {
    if b.Dict? then FlatPairs(b, 0) else []
  }

  function FlatPairs(b: Body, n: nat): seq<string>
    requires b.Dict? && n <= |b.items|
    decreases b, 0, |b.items| - n
  {
    if n == |b.items| then [] else
      var p := b.items[n];
      (if p.value.Dict? then Flat(p.value)
       else if p.value.ListOf? then FlatList(p.value, 0)
       else [p.key + "=" + TextOf(p.value).value])
      + FlatPairs(b, n + 1)
  }

  function FlatList(b: Body, n: nat): seq<string>
    requires b.ListOf? && n <= |b.values|
    decreases b, 0, |b.values| - n
  {
    if n == |b.values| then [] else Flat(b.values[n]) + FlatList(b, n + 1)
  }

  /** Text up to the first '='. */
  function UpToEquals(s: string): (r: string)
    ensures '=' !in r && r <= s
    ensures |r| < |s| ==> s[|r|] == '='
  {
    if s == "" || s[0] == '=' then "" else [s[0]] + UpToEquals(s[1..])
  }

  /** _find_all_odata_id and the [1][0] after it: for each entry whose key is @odata.id, the
      text between its first and second '='. */
  function IdsIn(flat: seq<string>): (ids: seq<string>)
    ensures forall i :: 0 <= i < |ids| ==> '=' !in ids[i]
  {
    if flat == [] then [] else
      var key := UpToEquals(flat[0]);
      (if key == ODATA_ID && |key| < |flat[0]| then [UpToEquals(flat[0][|key| + 1..])] else [])
      + IdsIn(flat[1..])
  }

  function OdataIds(b: Body): (ids: seq<string>) {
    IdsIn(Flat(b))
  }

  /* ----- what a body says ----- */

  /** A dict reached from b through dicts and lists of dicts has key k with plain text t. */
  ghost predicate Entry(b: Body, k: string, t: string)
    decreases b
  {
    b.Dict? && exists i :: 0 <= i < |b.items| && EntryOf(b.items[i], k, t)
  }

  ghost predicate EntryOf(p: Pair, k: string, t: string)
    decreases p
  {
    || (p.key == k && TextOf(p.value) == Some(t))
    || Entry(p.value, k, t)
    || (p.value.ListOf? && exists j :: 0 <= j < |p.value.values| && Entry(p.value.values[j], k, t))
  }

  /** The body says "@odata.id": v somewhere the search looks. */
  ghost predicate Mentions(b: Body, v: string) {
    Entry(b, ODATA_ID, v)
  }

  /** The body says "@odata.id": v anywhere, lists inside lists included. */
  ghost predicate Says(b: Body, v: string)
    decreases b
  {
    match b
    case Dict(items) =>
      exists i :: 0 <= i < |items| &&
        ((items[i].key == ODATA_ID && TextOf(items[i].value) == Some(v)) || Says(items[i].value, v))
    case ListOf(values) => exists j :: 0 <= j < |values| && Says(values[j], v)
    case _ => false
  }

  /* ----- the flat list holds exactly the entries ----- */

  lemma {:induction false} FlatFinds(b: Body, k: string, t: string)
    requires Entry(b, k, t)
    ensures k + "=" + t in Flat(b)
    decreases b, 1
  {
    var i :| 0 <= i < |b.items| && EntryOf(b.items[i], k, t);
    PairFinds(b, i, 0, k, t);
  }

  lemma {:induction false} PairFinds(b: Body, i: nat, n: nat, k: string, t: string)
    requires b.Dict? && n <= i < |b.items| && EntryOf(b.items[i], k, t)
    ensures k + "=" + t in FlatPairs(b, n)
    decreases b, 0, |b.items| - n
  {
    if n < i {
      PairFinds(b, i, n + 1, k, t);
    } else {
      var p := b.items[i];
      if Entry(p.value, k, t) {
        FlatFinds(p.value, k, t);
      } else if p.value.ListOf? {
        var j :| 0 <= j < |p.value.values| && Entry(p.value.values[j], k, t);
        ListFinds(p.value, j, 0, k, t);
      }
    }
  }

  lemma {:induction false} ListFinds(b: Body, j: nat, n: nat, k: string, t: string)
    requires b.ListOf? && n <= j < |b.values| && Entry(b.values[j], k, t)
    ensures k + "=" + t in FlatList(b, n)
    decreases b, 0, |b.values| - n
  {
    if n < j {
      ListFinds(b, j, n + 1, k, t);
    } else {
      FlatFinds(b.values[j], k, t);
    }
  }

  lemma {:induction false} FlatIsEntry(b: Body, text: string) returns (k: string, t: string)
    requires text in Flat(b)
    ensures Entry(b, k, t) && text == k + "=" + t
    decreases b, 1
  {
    k, t := PairIsEntry(b, 0, text);
  }

  lemma {:induction false} PairIsEntry(b: Body, n: nat, text: string) returns (k: string, t: string)
    requires b.Dict? && n <= |b.items| && text in FlatPairs(b, n)
    ensures Entry(b, k, t) && text == k + "=" + t
    decreases b, 0, |b.items| - n
  {
    if text in FlatPairs(b, n + 1) {
      k, t := PairIsEntry(b, n + 1, text);
    } else {
      var p := b.items[n];
      if p.value.Dict? {
        k, t := FlatIsEntry(p.value, text);
      } else if p.value.ListOf? {
        var j;
        j, k, t := ListIsEntry(p.value, 0, text);
      } else {
        k, t := p.key, TextOf(p.value).value;
      }
      assert EntryOf(b.items[n], k, t);
    }
  }

  lemma {:induction false} ListIsEntry(b: Body, n: nat, text: string) returns (j: nat, k: string, t: string)
    requires b.ListOf? && n <= |b.values| && text in FlatList(b, n)
    ensures j < |b.values| && Entry(b.values[j], k, t) && text == k + "=" + t
    decreases b, 0, |b.values| - n
  {
    if text in FlatList(b, n + 1) {
      j, k, t := ListIsEntry(b, n + 1, text);
    } else {
      j := n;
      k, t := FlatIsEntry(b.values[n], text);
    }
  }

  /* ----- the ids found ----- */

  lemma {:induction false} UpToEqualsKey(k: string, t: string)
    requires '=' !in k
    ensures UpToEquals(k + "=" + t) == k
    decreases |k|
  {
    if k != "" {
      UpToEqualsKey(k[1..], t);
      assert (k + "=" + t)[1..] == k[1..] + "=" + t;
    }
  }

  lemma {:induction false} UpToEqualsWhole(v: string)
    requires '=' !in v
    ensures UpToEquals(v) == v
    decreases |v|
  {
    if v != "" { UpToEqualsWhole(v[1..]); }
  }

  lemma {:induction false} IdsInFinds(flat: seq<string>, v: string)
    requires ODATA_ID + "=" + v in flat
    ensures UpToEquals(v) in IdsIn(flat)
    decreases |flat|
  {
    var text := ODATA_ID + "=" + v;
    if flat[0] == text {
      UpToEqualsKey(ODATA_ID, v);
      assert text[|ODATA_ID| + 1..] == v;
    } else {
      IdsInFinds(flat[1..], v);
    }
  }

  lemma {:induction false} IdsInComesFrom(flat: seq<string>, id: string) returns (text: string)
    requires id in IdsIn(flat)
    ensures text in flat && UpToEquals(text) == ODATA_ID && |ODATA_ID| < |text|
    ensures id == UpToEquals(text[|ODATA_ID| + 1..])
    decreases |flat|
  {
    if id in IdsIn(flat[1..]) {
      text := IdsInComesFrom(flat[1..], id);
    } else {
      text := flat[0];
    }
  }

  /** An @odata.id the search looks at is found whole exactly when it holds no '='; in every
      case the part before its first '=' is found instead. */
  lemma MentionIsFoundIff(b: Body, v: string)
    requires Mentions(b, v)
    ensures v in OdataIds(b) <==> '=' !in v
    ensures UpToEquals(v) in OdataIds(b)
  {
    FlatFinds(b, ODATA_ID, v);
    IdsInFinds(Flat(b), v);
    if '=' !in v { UpToEqualsWhole(v); }
  }

  /** What is found is exactly what the body mentions, each cut off at its first '=', in every
      body whose keys hold no '='. */
  lemma FoundIsMentioned(b: Body, id: string)
    requires forall k, t :: Entry(b, k, t) ==> '=' !in k
    ensures id in OdataIds(b) <==> exists v :: Mentions(b, v) && UpToEquals(v) == id
  {
    if id in OdataIds(b) {
      var text := IdsInComesFrom(Flat(b), id);
      var k, t := FlatIsEntry(b, text);
      UpToEqualsKey(k, t);
      assert text[|k| + 1..] == t;
      assert Mentions(b, t) && UpToEquals(t) == id;
    }
    forall v | Mentions(b, v) && UpToEquals(v) == id ensures id in OdataIds(b) {
      MentionIsFoundIff(b, v);
    }
  }

  /** A paged collection's link is one the search cuts short. */
  lemma PagedLinkIsMissed(b: Body)
    requires Mentions(b, "/redfish/v1/Chassis?$skip=20")
    ensures "/redfish/v1/Chassis?$skip=20" !in OdataIds(b)
  {
    var v := "/redfish/v1/Chassis?$skip=20";
    assert v[25] == '=';
    MentionIsFoundIff(b, v);
  }

  /** Whatever a list directly inside a list says is not searched: it is found exactly when the
      rest of the body mentions it too. */
  lemma ListInListIsNotSearched(items: seq<Pair>, k: string, inner: seq<Body>, v: string)
    requires '=' !in v && Says(ListOf(inner), v)
    requires forall key, t :: Entry(Dict(items), key, t) ==> '=' !in key
    ensures var b := Dict(items + [Pair(k, ListOf([ListOf(inner)]))]);
            && Says(b, v)
            && (v in OdataIds(b) <==> exists t :: Mentions(Dict(items), t) && UpToEquals(t) == v)
  {
    var p := Pair(k, ListOf([ListOf(inner)]));
    var b := Dict(items + [p]);
    assert p.value.values[0] == ListOf(inner);
    assert Says(p.value, v);
    assert b.items[|items|] == p;
    forall key, t ensures Entry(b, key, t) <==> Entry(Dict(items), key, t) {
      if Entry(b, key, t) {
        var i :| 0 <= i < |b.items| && EntryOf(b.items[i], key, t);
        assert i < |items| ==> Dict(items).items[i] == b.items[i];
        assert !EntryOf(p, key, t);
      }
      if Entry(Dict(items), key, t) {
        var i :| 0 <= i < |items| && EntryOf(items[i], key, t);
        assert b.items[i] == items[i];
      }
    }
    FoundIsMentioned(b, v);
  }
}
