/**
 discovery_container.py: the discovered resources by url, and beside them one table of rows per
 resource type.
 */
module Container {
  import opened Links
  import opened Options

  /** odataType is "" where the source has None or an empty string. Body is whatever the
      service sent. */
  datatype ApiResource<B> = ApiResource(url: Url, odataId: Option<string>, odataType: string, body: B)
  datatype Row<B> = Row(url: Url, body: B)
  datatype Store<B> = Store(resources: map<Url, ApiResource<B>>, frames: map<string, seq<Row<B>>>)

  function Rows<B>(c: Store<B>, t: string): seq<Row<B>> {
    if t in c.frames then c.frames[t] else []
  }

  /** The rows of other urls, in order. */
  function Others<B>(rows: seq<Row<B>>, u: Url): seq<Row<B>> {
    if rows == [] then []
    else if rows[0].url == u then Others(rows[1..], u)
    else [rows[0]] + Others(rows[1..], u)
  }

  function Add<B>(c: Store<B>, r: ApiResource<B>): Store<B> {
    if r.odataId.None? then c
    else Store(c.resources[r.url := r],
               if r.odataType == "" then c.frames
               else c.frames[r.odataType := Others(Rows(c, r.odataType), r.url) + [Row(r.url, r.body)]])
  }

  /** delete_resource of a stored url. */
  function Delete<B>(c: Store<B>, u: Url): Store<B>
    requires u in c.resources
  {
    var t := c.resources[u].odataType;
    Store(c.resources - {u}, if t == "" then c.frames else c.frames[t := Others(Rows(c, t), u)])
  }

  /** What an add leaves: the new resource under its url and every other as it was; in the table
      of its type the new row last and every other row of another url, in order; every other
      table untouched. */
  lemma AddFrame<B>(c: Store<B>, r: ApiResource<B>)
    requires r.odataId.Some?
    ensures var d := Add(c, r);
            && d.resources.Keys == c.resources.Keys + {r.url} && d.resources[r.url] == r
            && (forall u :: u in c.resources && u != r.url ==> d.resources[u] == c.resources[u])
            && (forall t :: t != r.odataType ==> Rows(d, t) == Rows(c, t))
            && (r.odataType == "" ==> d.frames == c.frames)
            && (r.odataType != "" ==>
                  var rows := Rows(d, r.odataType);
                  && rows != [] && rows[|rows| - 1] == Row(r.url, r.body)
                  && rows[..|rows| - 1] == Others(Rows(c, r.odataType), r.url))
  {
    if r.odataType != "" {
      var rows := Rows(Add(c, r), r.odataType);
      assert rows[..|rows| - 1] == Others(Rows(c, r.odataType), r.url);
    }
  }

  /** What a delete leaves: every other resource and every row of another url, in order. */
  lemma DeleteFrame<B>(c: Store<B>, u: Url)
    requires u in c.resources
    ensures var d := Delete(c, u);
            && d.resources.Keys == c.resources.Keys - {u}
            && (forall v :: v in d.resources ==> d.resources[v] == c.resources[v])
            && (forall t :: t != c.resources[u].odataType ==> Rows(d, t) == Rows(c, t))
            && (c.resources[u].odataType == "" ==> d.frames == c.frames)
            && (c.resources[u].odataType != "" ==>
                  Rows(d, c.resources[u].odataType) == Others(Rows(c, c.resources[u].odataType), u))
  {
  }

  /** Dropping a url goes row by row, so the order of the others stays. */
  lemma {:induction false} OthersKeepOrder<B>(a: seq<Row<B>>, b: seq<Row<B>>, u: Url)
    ensures Others(a + b, u) == Others(a, u) + Others(b, u)
    decreases |a|
  {
    if a == [] {
      assert a + b == b;
    } else {
      assert (a + b)[1..] == a[1..] + b;
      OthersKeepOrder(a[1..], b, u);
    }
  }

  /* ----- the index is exact ----- */

  ghost predicate Listed<B>(rows: seq<Row<B>>, u: Url) {
    exists i :: 0 <= i < |rows| && rows[i].url == u
  }

  ghost predicate DistinctUrls<B>(rows: seq<Row<B>>) {
    forall i, j :: 0 <= i < j < |rows| ==> rows[i].url != rows[j].url
  }

  predicate Backed<B(==)>(c: Store<B>, t: string, row: Row<B>) {
    row.url in c.resources && c.resources[row.url].odataType == t && c.resources[row.url].body == row.body
  }

  /** The rows of type t are the stored resources of type t, one row each. */
  ghost predicate Exact<B>(c: Store<B>, t: string) {
    && DistinctUrls(Rows(c, t))
    && (forall i :: 0 <= i < |Rows(c, t)| ==> Backed(c, t, Rows(c, t)[i]))
    && (forall u :: u in c.resources && c.resources[u].odataType == t ==> Listed(Rows(c, t), u))
  }

  ghost predicate Keyed<B>(c: Store<B>) {
    && "" !in c.frames
    && forall u :: u in c.resources ==>
         c.resources[u].url == u && (c.resources[u].odataType != "" ==> c.resources[u].odataType in c.frames)
  }

  ghost predicate Indexed<B>(c: Store<B>) {
    Keyed(c) && forall t :: t != "" ==> Exact(c, t)
  }

  /** The url is stored under another type. */
  predicate Retypes<B>(c: Store<B>, r: ApiResource<B>) {
    && r.odataId.Some? && r.url in c.resources
    && c.resources[r.url].odataType != "" && c.resources[r.url].odataType != r.odataType
  }

  /** The rows of other urls: none of u, all others, nothing new. */
  lemma {:induction false} OthersRows<B>(rows: seq<Row<B>>, u: Url)
    ensures var o := Others(rows, u);
            && !Listed(o, u)
            && (forall i :: 0 <= i < |o| ==> o[i] in rows && o[i].url != u)
            && (forall i :: 0 <= i < |rows| && rows[i].url != u ==> rows[i] in o)
            && (DistinctUrls(rows) ==> DistinctUrls(o))
  {
    if rows != [] {
      OthersRows(rows[1..], u);
      var o := Others(rows[1..], u);
      if DistinctUrls(rows) && rows[0].url != u {
        forall j | 0 <= j < |o| ensures o[j].url != rows[0].url {
          var k :| 0 <= k < |rows[1..]| && rows[1..][k] == o[j];
          assert rows[k + 1] == o[j];
        }
      }
    }
  }

  lemma ListedInOthers<B>(rows: seq<Row<B>>, u: Url, v: Url)
    requires Listed(rows, v) && v != u
    ensures Listed(Others(rows, u), v)
  {
    OthersRows(rows, u);
    var i :| 0 <= i < |rows| && rows[i].url == v;
    assert rows[i] in Others(rows, u);
  }

  /** The table a resource is added to. */
  lemma AddKeepsItsTable<B>(c: Store<B>, r: ApiResource<B>)
    requires Exact(c, r.odataType) && r.odataId.Some? && r.odataType != ""
    ensures Exact(Add(c, r), r.odataType)
  {
    var d := Add(c, r);
    var t := r.odataType;
    OthersRows(Rows(c, t), r.url);
    var o := Others(Rows(c, t), r.url);
    assert Rows(d, t) == o + [Row(r.url, r.body)];
    forall u | u in d.resources && d.resources[u].odataType == t ensures Listed(Rows(d, t), u) {
      if u == r.url {
        assert Rows(d, t)[|o|].url == u;
      } else {
        ListedInOthers(Rows(c, t), r.url, u);
        var k :| 0 <= k < |o| && o[k].url == u;
        assert Rows(d, t)[k].url == u;
      }
    }
    forall i | 0 <= i < |Rows(d, t)| ensures Backed(d, t, Rows(d, t)[i]) {
      assert i < |o| ==> o[i] in Rows(c, t);
    }
  }

  lemma AddKeepsExact<B>(c: Store<B>, r: ApiResource<B>, t: string)
    requires Exact(c, t) && !Retypes(c, r) && t != ""
    ensures Exact(Add(c, r), t)
  {
    if r.odataId.Some? {
      if t == r.odataType {
        AddKeepsItsTable(c, r);
      } else {
        assert Rows(Add(c, r), t) == Rows(c, t);
      }
    }
  }

  /** Adding keeps the index exact unless, and only unless, the url is already stored under
      another type: then its old row stays behind. */
  lemma AddKeepsIndexIff<B>(c: Store<B>, r: ApiResource<B>)
    requires Indexed(c)
    ensures Indexed(Add(c, r)) <==> !Retypes(c, r)
  {
    if Retypes(c, r) {
      var t := c.resources[r.url].odataType;
      assert Exact(c, t);
      var i :| 0 <= i < |Rows(c, t)| && Rows(c, t)[i].url == r.url;
      assert Rows(Add(c, r), t)[i] == Rows(c, t)[i];
      assert !Backed(Add(c, r), t, Rows(Add(c, r), t)[i]);
      assert !Exact(Add(c, r), t);
    } else {
      forall t | t != "" ensures Exact(Add(c, r), t) {
        assert Exact(c, t);
        AddKeepsExact(c, r, t);
      }
    }
  }

  lemma DeleteKeepsIndex<B>(c: Store<B>, u: Url)
    requires Indexed(c) && u in c.resources
    ensures Indexed(Delete(c, u))
  {
    var d := Delete(c, u);
    forall t | t != "" ensures Exact(d, t) {
      assert Exact(c, t);
      if t == c.resources[u].odataType {
        DeleteKeepsItsTable(c, u);
      } else {
        assert Rows(d, t) == Rows(c, t);
      }
    }
  }

  lemma DeleteKeepsItsTable<B>(c: Store<B>, u: Url)
    requires u in c.resources && c.resources[u].odataType != "" && Exact(c, c.resources[u].odataType)
    ensures Exact(Delete(c, u), c.resources[u].odataType)
  {
    var t := c.resources[u].odataType;
    var d := Delete(c, u);
    OthersRows(Rows(c, t), u);
    var o := Others(Rows(c, t), u);
    assert Rows(d, t) == o;
    forall v | v in d.resources && d.resources[v].odataType == t ensures Listed(o, v) {
      ListedInOthers(Rows(c, t), u, v);
    }
    forall i | 0 <= i < |o| ensures Backed(d, t, o[i]) {
      assert o[i] in Rows(c, t);
    }
  }

  /* ----- runs ----- */

  datatype Op<B> = AddOp(r: ApiResource<B>) | DeleteOp(u: Url)

  function Apply<B>(c: Store<B>, op: Op<B>): Store<B> {
    match op
    case AddOp(r) => Add(c, r)
    case DeleteOp(u) => if u in c.resources then Delete(c, u) else c
  }

  ghost predicate NeverRetypes<B>(c: Store<B>, ops: seq<Op<B>>)
    decreases |ops|
  {
    ops == [] || (!(ops[0].AddOp? && Retypes(c, ops[0].r)) && NeverRetypes(Apply(c, ops[0]), ops[1..]))
  }

  function ApplyAll<B>(c: Store<B>, ops: seq<Op<B>>): Store<B>
    decreases |ops|
  {
    if ops == [] then c else ApplyAll(Apply(c, ops[0]), ops[1..])
  }

  /** On every run of adds and deletes that never stores a live url under another type, the
      tables list exactly the stored resources. */
  lemma {:induction false} RunKeepsIndex<B>(c: Store<B>, ops: seq<Op<B>>)
    requires Indexed(c) && NeverRetypes(c, ops)
    ensures Indexed(ApplyAll(c, ops))
    decreases |ops|
  {
    if ops != [] {
      match ops[0] {
        case AddOp(r) => AddKeepsIndexIff(c, r);
        case DeleteOp(u) => if u in c.resources { DeleteKeepsIndex(c, u); }
      }
      RunKeepsIndex(Apply(c, ops[0]), ops[1..]);
    }
  }

  /* ----- counting and lookup agree with a scan ----- */

  ghost function OfType<B>(c: Store<B>, t: string): set<Url> {
    set u | u in c.resources && c.resources[u].odataType == t
  }

  ghost function Urls<B>(rows: seq<Row<B>>): set<Url> {
    set i | 0 <= i < |rows| :: rows[i].url
  }

  lemma {:induction false} DistinctCount<B>(rows: seq<Row<B>>)
    requires DistinctUrls(rows)
    ensures |Urls(rows)| == |rows|
  {
    if rows == [] {
      assert Urls(rows) == {};
    } else {
      var n := |rows| - 1;
      DistinctCount(rows[..n]);
      LastUrl(rows);
      assert rows[n].url !in Urls(rows[..n]);
    }
  }

  lemma LastUrl<B>(rows: seq<Row<B>>)
    requires rows != []
    ensures Urls(rows) == Urls(rows[..|rows| - 1]) + {rows[|rows| - 1].url}
  {
    var n := |rows| - 1;
    forall u | u in Urls(rows) ensures u in Urls(rows[..n]) + {rows[n].url} {
      var i :| 0 <= i < |rows| && rows[i].url == u;
      if i < n { assert rows[..n][i].url == u; }
    }
    forall u | u in Urls(rows[..n]) ensures u in Urls(rows) {
      var i :| 0 <= i < n && rows[..n][i].url == u;
      assert rows[i].url == u;
    }
  }

  /** An exact table counts what a scan of the stored resources counts. */
  lemma CountsAgree<B>(c: Store<B>, t: string)
    requires Indexed(c) && t != ""
    ensures Urls(Rows(c, t)) == OfType(c, t) && |Rows(c, t)| == |OfType(c, t)|
  {
    assert Exact(c, t);
    DistinctCount(Rows(c, t));
    forall u | u in OfType(c, t) ensures u in Urls(Rows(c, t)) {
      var i :| 0 <= i < |Rows(c, t)| && Rows(c, t)[i].url == u;
    }
  }

  /* ----- the container object ----- */

  class DiscoveryContainer<B(==)> {
    var resources: map<Url, ApiResource<B>>
    var frames: map<string, seq<Row<B>>>

    constructor ()
      ensures View() == Store(map[], map[])
    {
      resources := map[];
      frames := map[];
    }

    ghost function View(): Store<B>
      reads this
    {
      Store(resources, frames)
    }

    function IsVisited(url: Url): bool
      reads this
    {
      url in resources
    }

    method AddResource(r: ApiResource<B>)
      modifies this
      ensures View() == Add(old(View()), r)
    {
      if r.odataId.None? { return; }
      resources := resources[r.url := r];
      if r.odataType != "" {
        var row := Row(r.url, r.body);
        if r.odataType in frames {
          var kept := DropRows(frames[r.odataType], r.url);
          frames := frames[r.odataType := kept];
          frames := frames[r.odataType := frames[r.odataType] + [row]];
        } else {
          assert [] + [row] == [row];
          frames := frames[r.odataType := [row]];
        }
      }
    }

    /** False is the KeyError: the url is not stored, or its type has no table. */
    method DeleteResource(url: Url) returns (ok: bool)
      modifies this
      ensures ok <==> url in old(resources) &&
                      (old(resources)[url].odataType == "" || old(resources)[url].odataType in old(frames))
      ensures old(Indexed(View())) ==> (ok <==> url in old(resources))
      ensures View() == if ok then Delete(old(View()), url) else old(View())
    {
      if url !in resources { return false; }
      var t := resources[url].odataType;
      if t != "" {
        if t !in frames { return false; }
        var kept := DropRows(frames[t], url);
        frames := frames[t := kept];
      }
      resources := resources - {url};
      return true;
    }

    method CountResources(t: string) returns (n: nat)
      ensures n == |Rows(View(), t)|
      ensures Indexed(View()) ==> n == if t == "" then 0 else |OfType(View(), t)|
    {
      if Indexed(View()) && t != "" { CountsAgree(View(), t); }
      if t !in frames { return 0; }
      return |frames[t]|;
    }

    /** None is the KeyError for a row whose url is not stored; with an exact index there is no
        such row, and every stored resource of the type is returned once. */
    method GetResources(t: string) returns (found: Option<seq<(Url, ApiResource<B>)>>)
      ensures found.Some? <==> forall i :: 0 <= i < |Rows(View(), t)| ==> Rows(View(), t)[i].url in resources
      ensures found.Some? ==>
                && |found.value| == |Rows(View(), t)|
                && forall i :: 0 <= i < |found.value| ==>
                     && found.value[i].0 == Rows(View(), t)[i].url
                     && found.value[i].0 in resources && found.value[i].1 == resources[found.value[i].0]
      ensures Indexed(View()) && t != "" ==>
                && found.Some?
                && (forall i, j :: 0 <= i < j < |found.value| ==> found.value[i].0 != found.value[j].0)
                && (set i | 0 <= i < |found.value| :: found.value[i].0) == OfType(View(), t)
    {
      if Indexed(View()) && t != "" { IndexedRows(View(), t); }
      if t !in frames { return Some([]); }
      var rows := frames[t];
      var list: seq<(Url, ApiResource<B>)> := [];
      for i := 0 to |rows|
        invariant |list| == i
        invariant forall j :: 0 <= j < i ==> list[j].0 == rows[j].url && rows[j].url in resources
                                             && list[j].1 == resources[rows[j].url]
      {
        if rows[i].url !in resources {
          assert Rows(View(), t)[i].url !in resources;
          return None;
        }
        list := list + [(rows[i].url, resources[rows[i].url])];
      }
      assert (set i | 0 <= i < |list| :: list[i].0) == Urls(rows);
      return Some(list);
    }
  }

  lemma IndexedRows<B>(c: Store<B>, t: string)
    requires Indexed(c) && t != ""
    ensures DistinctUrls(Rows(c, t)) && Urls(Rows(c, t)) == OfType(c, t)
    ensures forall i :: 0 <= i < |Rows(c, t)| ==> Rows(c, t)[i].url in c.resources
  {
    CountsAgree(c, t);
    assert Exact(c, t);
    assert forall i :: 0 <= i < |Rows(c, t)| ==> Backed(c, t, Rows(c, t)[i]);
  }

  method DropRows<B>(rows: seq<Row<B>>, u: Url) returns (kept: seq<Row<B>>)
    ensures kept == Others(rows, u)
  {
    kept := [];
    for i := 0 to |rows|
      invariant kept + Others(rows[i..], u) == Others(rows, u)
    {
      assert rows[i..][0] == rows[i] && rows[i..][1..] == rows[i + 1..];
      if rows[i].url != u {
        kept := kept + [rows[i]];
      }
    }
  }
}
