/**
 api_explorer.py: one turn of the worklist that walks a service from a starting url, following
 every @odata.id it finds. GET is a fixed function from links to responses.
 */
module Explorer {
  import opened Options
  import opened Links
  import opened Bodies

  /* ----- the service ----- */

  predicate DistinctKeys(items: seq<Pair>) {
    forall i, j :: 0 <= i < j < |items| ==> items[i].key != items[j].key
  }

  /** The body of a response: a JSON object. An empty list or string behaves as an empty one. */
  type Object = b: Body | b.Dict? && DistinctKeys(b.items) witness Dict([])

  /** NoLink: no response, a server error or no JSON. Otherwise a body, even if the status is
      not the expected one. */
  datatype Response = NoLink | Answer(success: bool, body: Object)

  datatype Item = Item(url: Option<Url>, odataType: string, override: string)

  /** The outside world: link resolution, GET, and what metadata makes of a body. */
  datatype Service = Service(
    links: Factory,
    split: string -> Url,
    get: Url -> Response,
    clearType: Body -> string,             // expected type of a link found in a body
    typeOf: (Body, string) -> string,      // type of a resource, given the expected one
    patternType: Url -> string,            // type registered for urls of this shape; asked once at most
                                           // for each link that gets stored
    entities: (Url, Body, string) -> seq<Item>,
    unprocessable: (Url, Body, string) -> bool)

  /** Some field, wherever it stands, is "@odata.id" and not null. */
  predicate HasId(b: Body) {
    b.Dict? && exists i :: 0 <= i < |b.items| && b.items[i].key == ODATA_ID && !b.items[i].value.Nothing?
  }

  /** A body's own @odata.id. A value that is neither null nor plain counts as an id of no text. */
  function TopLevelId(b: Body): (id: Option<string>)
    ensures b.Dict? && DistinctKeys(b.items) ==> (id.Some? <==> HasId(b))
    ensures b.Dict? && DistinctKeys(b.items) ==>
              forall i :: 0 <= i < |b.items| && b.items[i].key == ODATA_ID && b.items[i].value.Leaf? ==>
                id == Some(b.items[i].value.text)
  {
    if b.Dict? then IdAmong(b.items) else None
  }

  function IdAmong(items: seq<Pair>): (id: Option<string>)
    ensures DistinctKeys(items) ==>
              forall i :: 0 <= i < |items| && items[i].key == ODATA_ID ==>
                && (id.Some? <==> !items[i].value.Nothing?)
                && (items[i].value.Leaf? ==> id == Some(items[i].value.text))
    ensures id.Some? ==> exists i :: 0 <= i < |items| && items[i].key == ODATA_ID && !items[i].value.Nothing?
  {
    if items == [] then None
    else if items[0].key != ODATA_ID then IdAmong(items[1..])
    else match items[0].value
      case Nothing => None
      case Leaf(text) => Some(text)
      case _ => Some("")
  }

  predicate EmptyBody(b: Body) {
    b == Dict([])
  }

  predicate Fetchable(svc: Service, link: Url) {
    var r := svc.get(link);
    r.Answer? && r.success && !EmptyBody(r.body)
  }

  /** A fetchable resource that carries an @odata.id of its own: the container takes no other. */
  predicate Storable(svc: Service, link: Url) {
    Fetchable(svc, link) && HasId(svc.get(link).body)
  }

  function LinkOf(svc: Service, url: Url, override: string): Url {
    GetResourceLink(svc.links, url, override)
  }

  /* ----- one turn of the worklist ----- */

  datatype Worklist = Worklist(queue: seq<Item>, visited: set<Url>, failed: bool)

  /** What _get_all_odata_id enqueues. */
  function NewItems(svc: Service, ids: seq<string>, override: string, visited: set<Url>): seq<Item> {
    if ids == [] then [] else
      var url := svc.split(ids[0]);
      var link := LinkOf(svc, url, override);
      var rest := NewItems(svc, ids[1..], override, visited);
      if link !in visited && Fetchable(svc, link)
      then [Item(Some(url), svc.clearType(svc.get(link).body), override)] + rest
      else rest
  }

  /** What is enqueued for ids: each fetchable link that is not stored, under the type its body
      claims and the given override, and nothing else. */
  lemma {:induction false} NewItemsExactly(svc: Service, ids: seq<string>, override: string, visited: set<Url>,
                                           it: Item)
    ensures it in NewItems(svc, ids, override, visited) <==>
              exists id :: id in ids &&
                var link := LinkOf(svc, svc.split(id), override);
                && link !in visited && Fetchable(svc, link)
                && it == Item(Some(svc.split(id)), svc.clearType(svc.get(link).body), override)
  {
    if ids != [] {
      NewItemsExactly(svc, ids[1..], override, visited, it);
      assert forall id :: id in ids <==> id == ids[0] || id in ids[1..];
    }
  }

  /** One turn of the loop over ids: what the n-th id adds to the queue. */
  lemma NewItemsFrom(svc: Service, queue: seq<Item>, ids: seq<string>, n: nat, override: string, visited: set<Url>)
    requires n < |ids|
    ensures var url := svc.split(ids[n]);
            var link := LinkOf(svc, url, override);
            var next := if link !in visited && Fetchable(svc, link)
                        then queue + [Item(Some(url), svc.clearType(svc.get(link).body), override)]
                        else queue;
            queue + NewItems(svc, ids[n..], override, visited) == next + NewItems(svc, ids[n + 1..], override, visited)
  {
    assert ids[n..][0] == ids[n] && ids[n..][1..] == ids[n + 1..];
  }

  /** The container's links once a link that answered r has been fetched and looked at: a
      container that is still empty is not yet told. */
  function SeenWhileReading(visited: set<Url>, link: Url, r: Response): set<Url>
    requires r.Answer?
  {
    if visited != {} && r.success && !EmptyBody(r.body) && TopLevelId(r.body).Some?
    then visited + {link} else visited
  }

  /** _explore_resource on a link that is not stored yet and has an answer. */
  function Visit(svc: Service, w: Worklist, link: Url, it: Item, r: Response): Worklist
    requires r.Answer?
  {
    var seen := SeenWhileReading(w.visited, link, r);
    var q := w.queue + NewItems(svc, OdataIds(r.body), it.override, seen);
    if EmptyBody(r.body) then Worklist(q, seen, true)
    else
      var t := svc.typeOf(r.body, it.odataType);
      var hasId := TopLevelId(r.body).Some?;
      // a resource without id is not stored, which counts as a failed GET, and no sub-element of
      // it is enqueued: its host is looked up in the container
      var failed := || w.failed || !r.success || (w.visited != {} && !hasId) || svc.unprocessable(link, r.body, t)
                    || (!hasId && svc.entities(link, r.body, t) != []);
      if hasId then Worklist(q + svc.entities(link, r.body, t), seen + {link}, failed)
      else Worklist(q, seen, failed)
  }

  function Explore(svc: Service, w: Worklist): Worklist
    requires w.queue != []
  {
    var it := w.queue[0];
    var rest := w.(queue := w.queue[1..]);
    if it.url.None? then rest
    else
      var link := LinkOf(svc, it.url.value, it.override);
      if link in w.visited then rest
      else match svc.get(link)
        case NoLink => rest.(failed := true)
        case Answer(_, _) => Visit(svc, rest, link, it, svc.get(link))
  }

  /* ----- where a walk can go ----- */

  /** U holds every link, and O every endpoint override, a walk can come across that finds the
      links `before` stored already and so never looks into them. */
  ghost predicate Closed(svc: Service, U: set<Url>, O: set<string>, before: set<Url>) {
    forall u, o, t :: u in U && u !in before && o in O && svc.get(u).Answer? ==>
      && (forall id :: id in OdataIds(svc.get(u).body) ==> LinkOf(svc, svc.split(id), o) in U)
      && Within(svc, svc.entities(u, svc.get(u).body, t), U, O)
  }

  predicate ItemWithin(svc: Service, it: Item, U: set<Url>, O: set<string>) {
    it.override in O && (it.url.Some? ==> LinkOf(svc, it.url.value, it.override) in U)
  }

  ghost predicate Within(svc: Service, q: seq<Item>, U: set<Url>, O: set<string>) {
    forall i :: 0 <= i < |q| ==> ItemWithin(svc, q[i], U, O)
  }

  lemma {:induction false} NewItemsWithin(svc: Service, ids: seq<string>, override: string, visited: set<Url>,
                                          U: set<Url>, O: set<string>)
    requires override in O && forall id :: id in ids ==> LinkOf(svc, svc.split(id), override) in U
    ensures Within(svc, NewItems(svc, ids, override, visited), U, O)
  {
    if ids != [] {
      assert ids[0] in ids;
      assert forall id :: id in ids[1..] ==> id in ids;
      NewItemsWithin(svc, ids[1..], override, visited, U, O);
    }
  }

  lemma VisitWithin(svc: Service, w: Worklist, link: Url, it: Item, U: set<Url>, O: set<string>, before: set<Url>)
    requires Closed(svc, U, O, before) && Within(svc, w.queue, U, O)
    requires link in U && link !in before && it.override in O && svc.get(link).Answer?
    ensures Within(svc, Visit(svc, w, link, it, svc.get(link)).queue, U, O)
  {
    var r := svc.get(link);
    assert Within(svc, svc.entities(link, r.body, svc.typeOf(r.body, it.odataType)), U, O);
    NewItemsWithin(svc, OdataIds(r.body), it.override, SeenWhileReading(w.visited, link, r), U, O);
  }

  lemma ExploreWithin(svc: Service, w: Worklist, U: set<Url>, O: set<string>, before: set<Url>)
    requires Closed(svc, U, O, before) && before <= w.visited && Within(svc, w.queue, U, O) && w.queue != []
    ensures Within(svc, Explore(svc, w).queue, U, O)
  {
    var it := w.queue[0];
    if it.url.Some? {
      var link := LinkOf(svc, it.url.value, it.override);
      if link !in w.visited && svc.get(link).Answer? {
        VisitWithin(svc, w.(queue := w.queue[1..]), link, it, U, O, before);
      }
    }
  }

  lemma ExploreExtends(svc: Service, w: Worklist)
    requires w.queue != []
    ensures w.queue[1..] <= Explore(svc, w).queue && w.visited <= Explore(svc, w).visited
  {
  }
}
