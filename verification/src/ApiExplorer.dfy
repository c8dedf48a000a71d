/** api_explorer.py: the explorer object, its queue and its container, updated in place. */
module ApiExplorer {
  import opened Links
  import opened Options
  import opened Container
  import opened Bodies
  import opened Explorer
  import opened Tables
  import opened Walk

  class ApiExplorer {
    const container: DiscoveryContainer<Body>
    var queue: seq<Item>
    var failed: bool

    constructor (container: DiscoveryContainer<Body>)
      ensures this.container == container && queue == [] && !failed
    {
      this.container := container;
      queue := [];
      failed := false;
    }

    ghost function View(): Worklist
      reads this, container
    {
      Worklist(queue, container.resources.Keys, failed)
    }

    method EnqueueResource(it: Item)
      modifies this`queue
      ensures queue == old(queue) + [it]
    {
      queue := queue + [it];
    }

    method GetAllOdataId(svc: Service, body: Body, override: string)
      modifies this`queue
      ensures queue == old(queue) + NewItems(svc, OdataIds(body), override, container.resources.Keys)
    {
      var ids := OdataIds(body);
      ghost var visited := container.resources.Keys;
      ghost var all := queue + NewItems(svc, ids, override, visited);
      assert ids[0..] == ids;
      for n := 0 to |ids|
        invariant queue + NewItems(svc, ids[n..], override, visited) == all
      {
        NewItemsFrom(svc, queue, ids, n, override, visited);
        var url := svc.split(ids[n]);
        var link := GetResourceLink(svc.links, url, override);
        if !container.IsVisited(link) && Fetchable(svc, link) {
          EnqueueResource(Item(Some(url), svc.clearType(svc.get(link).body), override));
        }
      }
      assert queue + [] == queue;
    }

    /** _get_resource and ApiCaller.get_resource; an empty container counts as none. */
    method GetResource(svc: Service, link: Url) returns (r: Response)
      modifies this`failed, container
      ensures r == svc.get(link)
      ensures failed == (old(failed) || !(r.Answer? && r.success) ||
                         (old(container.resources.Keys) != {} && !EmptyBody(r.body) && TopLevelId(r.body).None?))
      ensures container.View() == Fetched(svc, old(container.View()), link)
    {
      r := svc.get(link);
      var status := r.Answer? && r.success;
      if container.resources != map[] && r.Answer? && r.success && !EmptyBody(r.body) {
        container.AddResource(
          ApiResource(link, TopLevelId(r.body), svc.typeOf(r.body, svc.patternType(link)), r.body));
        status := TopLevelId(r.body).Some?;   // add_resource returns None without an id
      }
      if !status { failed := true; }
    }

    /** _process_resource: sub-elements go to the host the resource is stored with, so those of a
        resource that is not stored raise instead. */
    method ProcessResource(svc: Service, link: Url, body: Body, t: string)
      modifies this`queue, this`failed
      ensures queue == if link in container.resources then old(queue) + svc.entities(link, body, t) else old(queue)
      ensures failed == (old(failed) || svc.unprocessable(link, body, t)
                         || (link !in container.resources && svc.entities(link, body, t) != []))
    {
      var entities := svc.entities(link, body, t);
      if container.IsVisited(link) {
        queue := queue + entities;
      } else if entities != [] {
        failed := true;
      }
      failed := failed || svc.unprocessable(link, body, t);
    }

    /** _explore_resource from the point where the link has answered r. */
    method ExploreAnswer(svc: Service, link: Url, it: Item, r: Response)
      requires r == svc.get(link) && r.Answer?
      modifies this, container
      ensures container.View() ==
              if EmptyBody(r.body) then old(container.View()) else Add(old(container.View()), ByLink(svc, link, it))
      ensures var found := old(queue) + NewItems(svc, OdataIds(r.body), it.override, old(container.resources.Keys));
              var t := svc.typeOf(r.body, it.odataType);
              if EmptyBody(r.body) then queue == found && failed
              else
                var stored := link in container.resources;
                && queue == (if stored then found + svc.entities(link, r.body, t) else found)
                && failed == (old(failed) || svc.unprocessable(link, r.body, t)
                              || (!stored && svc.entities(link, r.body, t) != []))
    {
      GetAllOdataId(svc, r.body, it.override);
      if EmptyBody(r.body) {
        failed := true;
        return;
      }
      var t := svc.typeOf(r.body, it.odataType);
      container.AddResource(ApiResource(link, TopLevelId(r.body), t, r.body));
      ProcessResource(svc, link, r.body, t);
    }

    /** One resource: which links are stored and queued, what the tables hold, and when they stay
        exact. */
    method ExploreResource(svc: Service, it: Item)
      modifies this, container
      ensures View() == Explore(svc, old(View()).(queue := [it] + old(queue)))
      ensures container.View() == StoreAfter(svc, old(container.View()), it)
      ensures old(Indexed(container.View())) ==>
                (Indexed(container.View()) <==> !StoresTwice(svc, old(container.View()), it))
    {
      ghost var w, c := View(), container.View();
      assert ([it] + queue)[1..] == queue;
      if Indexed(c) { TurnKeepsIndexIff(svc, c, it); }
      if it.url.None? { return; }
      var link := GetResourceLink(svc.links, it.url.value, it.override);
      if container.IsVisited(link) { return; }

      var r := GetResource(svc, link);
      if r.NoLink? {
        failed := true;
        return;
      }
      ExploreAnswer(svc, link, it, r);
      AnswerKeys(svc, c, link, it);
      assert View() == Visit(svc, w, link, it, r);
    }

    method ExploreNextResource(svc: Service)
      modifies this, container
      ensures View() == if old(queue) == [] then old(View()) else Explore(svc, old(View()))
      ensures container.View() ==
              if old(queue) == [] then old(container.View())
              else StoreAfter(svc, old(container.View()), old(queue)[0])
    {
      if queue != [] {
        var it := queue[0];
        assert queue == [it] + queue[1..];
        queue := queue[1..];
        ExploreResource(svc, it);
      }
    }

    /** The loop of discover. */
    method ExploreAll(svc: Service, ghost first: Worklist, ghost U: set<Url>, ghost O: set<string>,
                      ghost before: set<Url>, ghost start: Option<Url>, ghost exact: bool, ghost bound: nat)
      returns (ghost explored: map<Url, string>, ghost n: nat)
      requires Closed(svc, U, O, before) && Underway(svc, first, View(), U, O, before, start, map[], bound)
      requires Tracked(svc, container.View(), before, exact)
      modifies this, container
      ensures queue == [] && Underway(svc, first, View(), U, O, before, start, explored, n)
      ensures Tracked(svc, container.View(), before, exact)
    {
      explored, n := map[], bound;
      while queue != []
        invariant Underway(svc, first, View(), U, O, before, start, explored, n)
        invariant Tracked(svc, container.View(), before, exact)
        decreases |U - container.resources.Keys|, AllTurns(svc, before, queue, n)
      {
        n := Turn(svc, first, View(), U, O, before, start, explored, n);
        TurnKeepsTracked(svc, container.View(), queue[0], before, exact);
        explored := ExploredAfter(svc, View(), explored);
        ExploreNextResource(svc);
      }
    }

    /** The walk ends on any service with finitely many links U and overrides O unless some turn
        finds an item that leads round and round among resources without @odata.id. When it
        ends, everything stored on the way has an @odata.id and was explored under some
        override, and every storable @odata.id its body mentions is stored too, unless it holds
        '='; and the walk has failed exactly when something went wrong with an item it took up.
        The tables are exact if every new resource agrees with its url pattern on its type,
        as it does when its body carries a type, and only then if the container was not empty. */
    method Discover(svc: Service, url: Option<Url>, odataType: string, override: string,
                    ghost U: set<Url>, ghost O: set<string>)
      requires Closed(svc, U, O, container.resources.Keys)
      requires Within(svc, queue + [Item(url, odataType, override)], U, O)
      requires var before := container.resources.Keys;
               !MeetsDoomed(svc, before, Worklist(queue + [Item(url, odataType, override)], before, false))
      modifies this, container
      ensures queue == []
      ensures old(container.resources.Keys) <= container.resources.Keys
      ensures NewAreNamed(svc, container.resources.Keys, old(container.resources.Keys))
      ensures forall u :: u in container.resources.Keys - old(container.resources.Keys) ==>
                exists o :: o in O && Complete(svc, container.resources.Keys, u, o)
      ensures url.Some? && Storable(svc, LinkOf(svc, url.value, override)) ==>
                LinkOf(svc, url.value, override) in container.resources
      ensures var before := old(container.resources.Keys);
              failed <==> exists k: nat ::
                TroubleAt(svc, Worklist(old(queue) + [Item(url, odataType, override)], before, false), k)
      ensures AllAsSent(svc, container.View(), old(container.resources.Keys))
      ensures old(Indexed(container.View())) && AllAgree(svc, container.View(), old(container.resources.Keys)) ==>
                Indexed(container.View())
      ensures old(container.resources.Keys) != {} && Indexed(container.View()) ==>
                AllAgree(svc, container.View(), old(container.resources.Keys))
      ensures (forall u :: u in container.resources.Keys - old(container.resources.Keys) ==> SelfTyped(svc, u)) ==>
                AllAgree(svc, container.View(), old(container.resources.Keys))
    {
      ghost var before, exact := container.resources.Keys, Indexed(container.View());
      ghost var explored;
      failed := false;
      EnqueueResource(Item(url, odataType, override));
      ghost var start := if url.Some? then Some(LinkOf(svc, url.value, override)) else None;
      ghost var n := Begin(svc, View(), U, O);
      TrackedAtFirst(svc, container.View());
      ghost var first := View();
      explored, n := ExploreAll(svc, first, U, O, before, start, exact, n);
      EndedWalkFailsIff(svc, first, View());
      WalkIsComplete(svc, first, View(), U, O, before, start, explored, n);
      TrackedIndexIff(svc, container.View(), before, exact);
    }
  }

  lemma AnswerKeys(svc: Service, c: Store<Body>, link: Url, it: Item)
    requires svc.get(link).Answer? && link !in c.resources
    ensures var seen := SeenWhileReading(c.resources.Keys, link, svc.get(link));
            && Fetched(svc, c, link).resources.Keys == seen
            && Add(Fetched(svc, c, link), ByLink(svc, link, it)).resources.Keys ==
               if TopLevelId(svc.get(link).body).Some? then seen + {link} else seen
  {
  }

  /* ----- the loop of discover ----- */

  ghost predicate Underway(svc: Service, first: Worklist, w: Worklist, U: set<Url>, O: set<string>, before: set<Url>,
                           start: Option<Url>, explored: map<Url, string>, n: nat) {
    && Reached(svc, first, w)
    && Within(svc, w.queue, U, O) && AllDoneIn(svc, before, w.queue, n) && !MeetsDoomed(svc, before, w)
    && before <= w.visited && NewAreNamed(svc, w.visited, before)
    && Progress(svc, w, before, explored, O)
    && (start.Some? && Storable(svc, start.value) ==> StoredOrQueued(svc, w, start.value))
  }

  lemma Begin(svc: Service, w: Worklist, U: set<Url>, O: set<string>) returns (n: nat)
    requires Within(svc, w.queue, U, O) && !MeetsDoomed(svc, w.visited, w) && w.queue != []
    ensures var it := w.queue[|w.queue| - 1];
            var start := if it.url.Some? then Some(LinkOf(svc, it.url.value, it.override)) else None;
            Underway(svc, w, w, U, O, w.visited, start, map[], n)
  {
    ReachedAtFirst(svc, w);
    n := QueueIsDone(svc, w.visited, w);
  }

  /** What one turn keeps, and what it brings closer to the end. */
  lemma Turn(svc: Service, first: Worklist, w: Worklist, U: set<Url>, O: set<string>, before: set<Url>,
             start: Option<Url>, explored: map<Url, string>, n: nat) returns (m: nat)
    requires Closed(svc, U, O, before) && Underway(svc, first, w, U, O, before, start, explored, n) && w.queue != []
    ensures var w' := Explore(svc, w);
            && Underway(svc, first, w', U, O, before, start, ExploredAfter(svc, w, explored), m)
            && (|U - w'.visited| < |U - w.visited| ||
                (w'.visited == w.visited && AllTurns(svc, before, w'.queue, m) < AllTurns(svc, before, w.queue, n)))
  {
    var w' := Explore(svc, w);
    ReachedNext(svc, first, w);
    ExploreWithin(svc, w, U, O, before);
    ExploreExtends(svc, w);
    ExploreKeepsNamed(svc, w, before);
    StillMeetsNone(svc, before, w);
    ExploreKeepsProgress(svc, w, U, O, before, explored);
    ExploreProgress(svc, w, U, O, before, n);
    if start.Some? && Storable(svc, start.value) { QueuedSurvives(svc, w, start.value); }
    m := n;
    if w'.visited != w.visited { m := QueueIsDone(svc, before, w'); }
  }

  lemma WalkIsComplete(svc: Service, first: Worklist, w: Worklist, U: set<Url>, O: set<string>, before: set<Url>,
                       start: Option<Url>, explored: map<Url, string>, n: nat)
    requires Underway(svc, first, w, U, O, before, start, explored, n) && w.queue == []
    ensures forall u :: u in w.visited - before ==> exists o :: o in O && Complete(svc, w.visited, u, o)
    ensures start.Some? && Storable(svc, start.value) ==> start.value in w.visited
  {
    forall u | u in w.visited - before ensures exists o :: o in O && Complete(svc, w.visited, u, o) {
      FollowedIsComplete(svc, w, u, explored[u]);
    }
  }
}
