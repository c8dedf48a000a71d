/**
 What the walk does to the tables of the container. A resource is added twice, first under the
 type registered for urls of its shape, then under the type expected of the link that led to
 it; a body without a type of its own can end up with two.
 */
module Tables {
  import opened Links
  import opened Container
  import opened Bodies
  import opened Explorer

  /** What get_resource adds. */
  function ByPattern(svc: Service, link: Url): ApiResource<Body>
    requires svc.get(link).Answer?
  {
    var body := svc.get(link).body;
    ApiResource(link, TopLevelId(body), svc.typeOf(body, svc.patternType(link)), body)
  }

  /** What _explore_resource adds. */
  function ByLink(svc: Service, link: Url, it: Item): ApiResource<Body>
    requires svc.get(link).Answer?
  {
    var body := svc.get(link).body;
    ApiResource(link, TopLevelId(body), svc.typeOf(body, it.odataType), body)
  }

  /** The container after get_resource; one that is still empty is passed over. */
  function Fetched(svc: Service, c: Store<Body>, link: Url): Store<Body> {
    if c.resources != map[] && Fetchable(svc, link) then Add(c, ByPattern(svc, link)) else c
  }

  /** The container after one turn of the worklist. */
  function StoreAfter(svc: Service, c: Store<Body>, it: Item): Store<Body> {
    if it.url.None? then c
    else
      var link := LinkOf(svc, it.url.value, it.override);
      if link in c.resources || svc.get(link).NoLink? || EmptyBody(svc.get(link).body) then c
      else Add(Fetched(svc, c, link), ByLink(svc, link, it))
  }

  /** The turn stores its link under one type and then under another. */
  predicate StoresTwice(svc: Service, c: Store<Body>, it: Item) {
    it.url.Some? &&
    var link := LinkOf(svc, it.url.value, it.override);
    && link !in c.resources && c.resources != map[] && Storable(svc, link)
    && ByPattern(svc, link).odataType != "" && ByPattern(svc, link).odataType != ByLink(svc, link, it).odataType
  }

  /** One turn keeps the tables exact unless, and only unless, it stores its link under two
      types. */
  lemma TurnKeepsIndexIff(svc: Service, c: Store<Body>, it: Item)
    requires Indexed(c)
    ensures Indexed(StoreAfter(svc, c, it)) <==> !StoresTwice(svc, c, it)
  {
    if it.url.Some? {
      var link := LinkOf(svc, it.url.value, it.override);
      if svc.get(link).Answer? {
        AddKeepsIndexIff(c, ByPattern(svc, link));
        if Indexed(Fetched(svc, c, link)) {
          AddKeepsIndexIff(Fetched(svc, c, link), ByLink(svc, link, it));
        }
      }
    }
  }

  /* ----- whole walks ----- */

  /** The type u is stored under is the one its pattern gave it, if that gave any. */
  predicate Agrees(svc: Service, c: Store<Body>, u: Url)
    requires u in c.resources
  {
    Fetchable(svc, u) ==>
      ByPattern(svc, u).odataType == "" || ByPattern(svc, u).odataType == c.resources[u].odataType
  }

  ghost predicate AllAgree(svc: Service, c: Store<Body>, before: set<Url>) {
    forall u :: u in c.resources && u !in before ==> Agrees(svc, c, u)
  }

  /** A row of type t is left behind for u, which is stored under another type. */
  ghost predicate Stale(c: Store<Body>, u: Url, t: string) {
    t != "" && u in c.resources && c.resources[u].odataType != t && Listed(Rows(c, t), u)
  }

  lemma StaleIsNotIndexed(c: Store<Body>, u: Url, t: string)
    requires Stale(c, u, t)
    ensures !Indexed(c)
  {
    var i :| 0 <= i < |Rows(c, t)| && Rows(c, t)[i].url == u;
    assert !Backed(c, t, Rows(c, t)[i]);
    assert !Exact(c, t);
  }

  /** Everything new agrees, or has left a row behind. */
  ghost predicate StaleUnlessAgrees(svc: Service, c: Store<Body>, before: set<Url>) {
    forall u :: u in c.resources && u !in before && !Agrees(svc, c, u) ==> Stale(c, u, ByPattern(svc, u).odataType)
  }

  /** u is stored as the service sent it, under the type it has for some expectation. */
  ghost predicate AsSent(svc: Service, c: Store<Body>, u: Url)
    requires u in c.resources
  {
    var r := c.resources[u];
    && svc.get(u).Answer? && r.url == u && r.body == svc.get(u).body && r.odataId == TopLevelId(r.body)
    && exists t :: r.odataType == svc.typeOf(r.body, t)
  }

  ghost predicate AllAsSent(svc: Service, c: Store<Body>, before: set<Url>) {
    forall u :: u in c.resources && u !in before ==> AsSent(svc, c, u)
  }

  /** How far the tables can be trusted in the course of a walk that found `before` stored, and
      the tables exact or not. */
  ghost predicate Tracked(svc: Service, c: Store<Body>, before: set<Url>, exact: bool) {
    && before <= c.resources.Keys
    && AllAsSent(svc, c, before)
    && (exact && AllAgree(svc, c, before) ==> Indexed(c))
    && (before != {} ==> StaleUnlessAgrees(svc, c, before))
  }

  lemma AddKeepsStale(c: Store<Body>, r: ApiResource<Body>, u: Url, t: string)
    requires Stale(c, u, t) && r.url != u
    ensures Stale(Add(c, r), u, t)
  {
    if r.odataId.Some? && r.odataType == t {
      ListedInOthers(Rows(c, t), r.url, u);
      var o := Others(Rows(c, t), r.url);
      var i :| 0 <= i < |o| && o[i].url == u;
      assert Rows(Add(c, r), t)[i].url == u;
    }
  }

  lemma TwiceIsStale(svc: Service, c: Store<Body>, it: Item)
    requires StoresTwice(svc, c, it)
    ensures var link := LinkOf(svc, it.url.value, it.override);
            Stale(StoreAfter(svc, c, it), link, ByPattern(svc, link).odataType)
  {
    var link := LinkOf(svc, it.url.value, it.override);
    var t := ByPattern(svc, link).odataType;
    var c1 := Add(c, ByPattern(svc, link));
    assert Rows(c1, t)[|Rows(c1, t)| - 1].url == link;
    assert Rows(Add(c1, ByLink(svc, link, it)), t) == Rows(c1, t);
  }

  lemma OthersUntouched(svc: Service, c: Store<Body>, it: Item, u: Url)
    requires u in c.resources
    ensures var c' := StoreAfter(svc, c, it); u in c'.resources && c'.resources[u] == c.resources[u]
  {
  }

  lemma TurnKeepsAgreeing(svc: Service, c: Store<Body>, it: Item, before: set<Url>)
    requires AllAgree(svc, c, before) ==> Indexed(c)
    ensures AllAgree(svc, StoreAfter(svc, c, it), before) && before <= c.resources.Keys ==>
              Indexed(StoreAfter(svc, c, it))
  {
    if AllAgree(svc, StoreAfter(svc, c, it), before) && before <= c.resources.Keys {
      forall u | u in c.resources && u !in before ensures Agrees(svc, c, u) {
        OthersUntouched(svc, c, it, u);
      }
      TurnKeepsIndexIff(svc, c, it);
    }
  }

  lemma TurnKeepsStale(svc: Service, c: Store<Body>, it: Item, before: set<Url>)
    requires StaleUnlessAgrees(svc, c, before) && c.resources != map[]
    ensures StaleUnlessAgrees(svc, StoreAfter(svc, c, it), before)
  {
    var c' := StoreAfter(svc, c, it);
    forall u | u in c'.resources && u !in before && !Agrees(svc, c', u)
      ensures Stale(c', u, ByPattern(svc, u).odataType)
    {
      var t := ByPattern(svc, u).odataType;
      if u in c.resources {
        OthersUntouched(svc, c, it, u);
        if c' != c {
          var link := LinkOf(svc, it.url.value, it.override);
          if Fetched(svc, c, link) != c { AddKeepsStale(c, ByPattern(svc, link), u, t); }
          AddKeepsStale(Fetched(svc, c, link), ByLink(svc, link, it), u, t);
        }
      } else {
        TwiceIsStale(svc, c, it);
      }
    }
  }

  lemma TurnKeepsTracked(svc: Service, c: Store<Body>, it: Item, before: set<Url>, exact: bool)
    requires Tracked(svc, c, before, exact)
    ensures Tracked(svc, StoreAfter(svc, c, it), before, exact)
  {
    var c' := StoreAfter(svc, c, it);
    forall u | u in c.resources ensures u in c'.resources && c'.resources[u] == c.resources[u] {
      OthersUntouched(svc, c, it, u);
    }
    forall u | u in c'.resources && u !in before ensures AsSent(svc, c', u) {
      if u !in c.resources {
        assert c'.resources[u].odataType == svc.typeOf(svc.get(u).body, it.odataType);
      } else {
        assert AsSent(svc, c, u);
      }
    }
    if exact {
      TurnKeepsAgreeing(svc, c, it, before);
    }
    if before != {} {
      TurnKeepsStale(svc, c, it, before);
    }
  }

  lemma TrackedAtFirst(svc: Service, c: Store<Body>)
    ensures Tracked(svc, c, c.resources.Keys, Indexed(c))
  {
  }

  /** The body at u carries its own type, whatever type is expected of it. */
  ghost predicate SelfTyped(svc: Service, u: Url) {
    svc.get(u).Answer? ==> forall s, t :: svc.typeOf(svc.get(u).body, s) == svc.typeOf(svc.get(u).body, t)
  }

  lemma SelfTypedAgrees(svc: Service, c: Store<Body>, u: Url)
    requires u in c.resources && AsSent(svc, c, u) && SelfTyped(svc, u)
    ensures Agrees(svc, c, u)
  {
    var t :| c.resources[u].odataType == svc.typeOf(svc.get(u).body, t);
    assert svc.typeOf(svc.get(u).body, t) == svc.typeOf(svc.get(u).body, svc.patternType(u));
  }

  /** A body without a type of its own, expected to be of another type than its url pattern
      says, leaves a row behind. */
  lemma UntypedBodyLeavesRow(svc: Service, c: Store<Body>, it: Item)
    requires Indexed(c) && c.resources != map[] && it.url.Some?
    requires var link := LinkOf(svc, it.url.value, it.override);
             && link !in c.resources && Storable(svc, link)
             && (forall t :: svc.typeOf(svc.get(link).body, t) == t)
             && svc.patternType(link) != "" && svc.patternType(link) != it.odataType
    ensures !Indexed(StoreAfter(svc, c, it))
  {
    TurnKeepsIndexIff(svc, c, it);
  }

  /** What a tracked container says about its tables: exact when everything new agrees, as it
      does when bodies carry their types, and only then if the container held something
      before. */
  lemma TrackedIndexIff(svc: Service, c: Store<Body>, before: set<Url>, exact: bool)
    requires Tracked(svc, c, before, exact)
    ensures exact && AllAgree(svc, c, before) ==> Indexed(c)
    ensures before != {} && Indexed(c) ==> AllAgree(svc, c, before)
    ensures (forall u :: u in c.resources && u !in before ==> SelfTyped(svc, u)) ==> AllAgree(svc, c, before)
  {
    if before != {} && !AllAgree(svc, c, before) {
      var u :| u in c.resources && u !in before && !Agrees(svc, c, u);
      StaleIsNotIndexed(c, u, ByPattern(svc, u).odataType);
    }
    if forall u :: u in c.resources && u !in before ==> SelfTyped(svc, u) {
      forall u | u in c.resources && u !in before ensures Agrees(svc, c, u) {
        SelfTypedAgrees(svc, c, u);
      }
    }
  }
}
