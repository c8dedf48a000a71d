/**
 When the walk of api_explorer.py ends, and what it has stored by then.
 */
module Walk {
  import opened Options
  import opened Links
  import opened Bodies
  import opened Explorer

  function Times<T>(f: T -> T, x: T, n: nat): T {
    if n == 0 then x else Times(f, f(x), n - 1)
  }

  lemma {:induction false} TimesTwice<T>(f: T -> T, x: T, a: nat, b: nat)
    ensures Times(f, Times(f, x, a), b) == Times(f, x, a + b)
    decreases a
  {
    if a > 0 {
      TimesTwice(f, f(x), a - 1, b);
    }
  }

  /** One turn of the loop of discover. */
  function OneTurn(svc: Service): Worklist -> Worklist {
    (w: Worklist) => if w.queue == [] then w else Explore(svc, w)
  }

  /** The worklist after n turns, or after the last one. */
  function Iterate(svc: Service, w: Worklist, n: nat): Worklist {
    Times(OneTurn(svc), w, n)
  }

  ghost predicate Ends(svc: Service, w: Worklist) {
    exists n: nat :: Iterate(svc, w, n).queue == []
  }

  /* ----- resources without @odata.id ----- */

  /** it leads to a link outside `before` whose body has no @odata.id: exploring it stores
      nothing, so it can be explored again and again. */
  predicate Nameless(svc: Service, before: set<Url>, it: Item) {
    it.url.Some? &&
    var link := LinkOf(svc, it.url.value, it.override);
    link !in before && svc.get(link).Answer? && !EmptyBody(svc.get(link).body)
    && !HasId(svc.get(link).body)
  }

  /** What exploring it can put in the queue. */
  function Successors(svc: Service, before: set<Url>, it: Item): seq<Item>
    requires Nameless(svc, before, it)
  {
    NewItems(svc, OdataIds(svc.get(LinkOf(svc, it.url.value, it.override)).body), it.override, before)
  }

  /** it in S, by a name that keeps the solver from unrolling Endless. */
  ghost predicate Member(it: Item, S: iset<Item>) {
    it in S
  }

  ghost predicate LeadsInto(svc: Service, before: set<Url>, it: Item, S: iset<Item>)
    requires Nameless(svc, before, it)
  {
    exists i :: 0 <= i < |Successors(svc, before, it)| && Successors(svc, before, it)[i] in S
  }

  /** A set of items, each leading to a resource without @odata.id and from there back into the
      set. */
  ghost predicate Endless(svc: Service, S: iset<Item>, before: set<Url>) {
    forall it {:trigger Member(it, S)} :: Member(it, S) ==>
      Nameless(svc, before, it) && LeadsInto(svc, before, it, S)
  }

  /** it leads round and round among resources without @odata.id. */
  ghost predicate Doomed(svc: Service, before: set<Url>, it: Item) {
    exists S :: Endless(svc, S, before) && Member(it, S)
  }

  /** No item over the links U and overrides O does. */
  ghost predicate NothingDoomed(svc: Service, U: set<Url>, O: set<string>, before: set<Url>) {
    forall it :: ItemWithin(svc, it, U, O) ==> !Doomed(svc, before, it)
  }

  ghost predicate HoldsDoomed(svc: Service, before: set<Url>, w: Worklist) {
    exists i :: 0 <= i < |w.queue| && Doomed(svc, before, w.queue[i])
  }

  /** Some turn of the walk from w finds such an item in the queue. */
  ghost predicate MeetsDoomed(svc: Service, before: set<Url>, w: Worklist) {
    exists n: nat :: HoldsDoomed(svc, before, Iterate(svc, w, n))
  }

  /* ----- such a set keeps the walk going ----- */

  /** Everything stored since `before` has an @odata.id. */
  ghost predicate NewAreNamed(svc: Service, visited: set<Url>, before: set<Url>) {
    forall u :: u in visited && u !in before ==> svc.get(u).Answer? && HasId(svc.get(u).body)
  }

  lemma ExploreKeepsNamed(svc: Service, w: Worklist, before: set<Url>)
    requires w.queue != [] && NewAreNamed(svc, w.visited, before)
    ensures NewAreNamed(svc, Explore(svc, w).visited, before)
  {
  }

  lemma {:induction false} NewItemsUnlessVisited(svc: Service, ids: seq<string>, override: string, before: set<Url>,
                                                 visited: set<Url>, it: Item)
    requires it in NewItems(svc, ids, override, before) && it.url.Some?
    requires LinkOf(svc, it.url.value, it.override) !in visited
    ensures it in NewItems(svc, ids, override, visited)
  {
    if it !in NewItems(svc, ids[1..], override, before) {
      assert it == NewItems(svc, ids, override, before)[0];
    } else {
      NewItemsUnlessVisited(svc, ids[1..], override, before, visited, it);
    }
  }

  /** Some item of the set stands in the queue. */
  ghost predicate Holds(w: Worklist, S: iset<Item>) {
    exists i :: 0 <= i < |w.queue| && w.queue[i] in S
  }

  lemma StillHolds(svc: Service, w: Worklist, S: iset<Item>, before: set<Url>)
    requires Endless(svc, S, before) && Holds(w, S) && NewAreNamed(svc, w.visited, before)
    ensures Holds(Explore(svc, w), S)
  {
    var w' := Explore(svc, w);
    ExploreExtends(svc, w);
    var i :| 0 <= i < |w.queue| && w.queue[i] in S;
    if i > 0 {
      assert w'.queue[i - 1] == w.queue[1..][i - 1] == w.queue[i];
    } else {
      FrontComesBack(svc, w, S, before);
    }
  }

  lemma FrontComesBack(svc: Service, w: Worklist, S: iset<Item>, before: set<Url>)
    requires Endless(svc, S, before) && NewAreNamed(svc, w.visited, before)
    requires w.queue != [] && w.queue[0] in S
    ensures Holds(Explore(svc, w), S)
  {
    var it := w.queue[0];
    assert Member(it, S) && LeadsInto(svc, before, it, S);
    var k :| 0 <= k < |Successors(svc, before, it)| && Successors(svc, before, it)[k] in S;
    var y := Successors(svc, before, it)[k];
    assert Member(y, S) && Nameless(svc, before, y);
    SuccessorIsQueued(svc, w, before, y);
  }

  /** A successor of the front that leads to a resource without @odata.id is queued, whatever
      was stored before. */
  lemma SuccessorIsQueued(svc: Service, w: Worklist, before: set<Url>, y: Item)
    requires w.queue != [] && Nameless(svc, before, w.queue[0]) && NewAreNamed(svc, w.visited, before)
    requires y in Successors(svc, before, w.queue[0]) && Nameless(svc, before, y)
    ensures y in Explore(svc, w).queue
  {
    var it := w.queue[0];
    var ids := OdataIds(svc.get(LinkOf(svc, it.url.value, it.override)).body);
    NamelessQueue(svc, w, before);
    NewItemsUnlessVisited(svc, ids, it.override, before, w.visited, y);
  }

  /** The queue after exploring an item without @odata.id. */
  lemma NamelessQueue(svc: Service, w: Worklist, before: set<Url>)
    requires w.queue != [] && Nameless(svc, before, w.queue[0])
    requires LinkOf(svc, w.queue[0].url.value, w.queue[0].override) !in w.visited
    ensures var it := w.queue[0];
            var link := LinkOf(svc, it.url.value, it.override);
            var body := svc.get(link).body;
            var w' := Explore(svc, w);
            && w'.visited == w.visited
            && w'.queue == w.queue[1..] + NewItems(svc, OdataIds(body), it.override, w.visited)
  {
  }

  lemma {:induction false} EndlessNeverEnds(svc: Service, w: Worklist, S: iset<Item>, before: set<Url>, n: nat)
    requires Endless(svc, S, before) && Holds(w, S) && NewAreNamed(svc, w.visited, before)
    ensures Iterate(svc, w, n).queue != []
    decreases n
  {
    if n > 0 {
      StillHolds(svc, w, S, before);
      ExploreKeepsNamed(svc, w, before);
      EndlessNeverEnds(svc, Explore(svc, w), S, before, n - 1);
    }
  }

  lemma {:induction false} NewItemsHold(svc: Service, ids: seq<string>, override: string, visited: set<Url>, id: string)
    requires id in ids
    ensures var link := LinkOf(svc, svc.split(id), override);
            link !in visited && Fetchable(svc, link) ==>
              Item(Some(svc.split(id)), svc.clearType(svc.get(link).body), override)
                in NewItems(svc, ids, override, visited)
  {
    if ids[0] != id {
      NewItemsHold(svc, ids[1..], override, visited, id);
    }
  }

  /** The simplest such set: the link of an @odata.id whose resource has no @odata.id of its own
      but mentions that very one somewhere inside. */
  lemma SelfLinkWithoutIdNeverEnds(svc: Service, id: string, override: string, before: set<Url>, failed: bool, n: nat)
    requires var link := LinkOf(svc, svc.split(id), override);
             && link !in before && Fetchable(svc, link) && !HasId(svc.get(link).body)
             && Mentions(svc.get(link).body, id) && '=' !in id
    ensures var body := svc.get(LinkOf(svc, svc.split(id), override)).body;
            var it := Item(Some(svc.split(id)), svc.clearType(body), override);
            Iterate(svc, Worklist([it], before, failed), n).queue != []
  {
    var link := LinkOf(svc, svc.split(id), override);
    var body := svc.get(link).body;
    var it := Item(Some(svc.split(id)), svc.clearType(body), override);
    var w := Worklist([it], before, failed);
    MentionIsFoundIff(body, id);
    NewItemsHold(svc, OdataIds(body), override, before, id);
    assert it in Successors(svc, before, it);
    assert w.queue[0] in iset{it};
    EndlessNeverEnds(svc, w, iset{it}, before, n);
  }

  /* ----- without one every item is done after finitely many turns ----- */

  /** Chains of items without @odata.id from it are shorter than n. */
  ghost predicate DoneIn(svc: Service, before: set<Url>, it: Item, n: nat)
    decreases n, 0
  {
    Nameless(svc, before, it) ==> n > 0 && AllDoneIn(svc, before, Successors(svc, before, it), n - 1)
  }

  ghost predicate AllDoneIn(svc: Service, before: set<Url>, q: seq<Item>, n: nat)
    decreases n, 1
  {
    forall i :: 0 <= i < |q| ==> DoneIn(svc, before, q[i], n)
  }

  ghost predicate Done(svc: Service, before: set<Url>, it: Item) {
    exists n: nat :: DoneIn(svc, before, it, n)
  }

  lemma {:induction false} DoneInMore(svc: Service, before: set<Url>, it: Item, m: nat, n: nat)
    requires DoneIn(svc, before, it, m) && m <= n
    ensures DoneIn(svc, before, it, n)
    decreases m
  {
    if Nameless(svc, before, it) {
      var q := Successors(svc, before, it);
      forall i | 0 <= i < |q| ensures DoneIn(svc, before, q[i], n - 1) {
        DoneInMore(svc, before, q[i], m - 1, n - 1);
      }
    }
  }

  lemma AllDoneInMore(svc: Service, before: set<Url>, q: seq<Item>, m: nat, n: nat)
    requires AllDoneIn(svc, before, q, m) && m <= n
    ensures AllDoneIn(svc, before, q, n)
  {
    forall i | 0 <= i < |q| ensures DoneIn(svc, before, q[i], n) {
      DoneInMore(svc, before, q[i], m, n);
    }
  }

  lemma AllDoneInLast(svc: Service, before: set<Url>, q: seq<Item>, n: nat)
    requires q != [] && AllDoneIn(svc, before, q[..|q| - 1], n) && DoneIn(svc, before, q[|q| - 1], n)
    ensures AllDoneIn(svc, before, q, n)
  {
    assert forall i :: 0 <= i < |q| - 1 ==> q[i] == q[..|q| - 1][i];
  }

  lemma {:induction false} CommonBound(svc: Service, before: set<Url>, q: seq<Item>) returns (n: nat)
    requires forall i :: 0 <= i < |q| ==> Done(svc, before, q[i])
    ensures AllDoneIn(svc, before, q, n)
    decreases |q|
  {
    if q == [] {
      n := 0;
    } else {
      var k := |q| - 1;
      var a := CommonBound(svc, before, q[..k]);
      var b: nat :| DoneIn(svc, before, q[k], b);
      n := if a < b then b else a;
      AllDoneInMore(svc, before, q[..k], a, n);
      DoneInMore(svc, before, q[k], b, n);
      AllDoneInLast(svc, before, q, n);
    }
  }

  lemma NeverDoneLeadsOn(svc: Service, before: set<Url>, it: Item) returns (i: nat)
    requires !Done(svc, before, it)
    ensures Nameless(svc, before, it)
    ensures i < |Successors(svc, before, it)| && !Done(svc, before, Successors(svc, before, it)[i])
  {
    assert !DoneIn(svc, before, it, 0);
    var q := Successors(svc, before, it);
    if forall j :: 0 <= j < |q| ==> Done(svc, before, q[j]) {
      var n := CommonBound(svc, before, q);
      assert DoneIn(svc, before, it, n + 1);
    }
    i :| 0 <= i < |q| && !Done(svc, before, q[i]);
  }

  lemma {:induction false} DoneLeavesEndless(svc: Service, before: set<Url>, it: Item, n: nat, S: iset<Item>)
    requires DoneIn(svc, before, it, n) && Endless(svc, S, before)
    ensures !Member(it, S)
    decreases n
  {
    if Member(it, S) {
      assert LeadsInto(svc, before, it, S);
      var i :| 0 <= i < |Successors(svc, before, it)| && Successors(svc, before, it)[i] in S;
      DoneLeavesEndless(svc, before, Successors(svc, before, it)[i], n - 1, S);
      assert Member(Successors(svc, before, it)[i], S);
    }
  }

  /** The items that are never done are themselves an endless set. */
  lemma DoneUnlessDoomed(svc: Service, before: set<Url>, it: Item)
    ensures Done(svc, before, it) <==> !Doomed(svc, before, it)
  {
    if Done(svc, before, it) {
      var n: nat :| DoneIn(svc, before, it, n);
      forall S | Endless(svc, S, before) ensures !Member(it, S) {
        DoneLeavesEndless(svc, before, it, n, S);
      }
    } else {
      var S := iset x: Item | !Done(svc, before, x);
      forall x | Member(x, S) ensures Nameless(svc, before, x) && LeadsInto(svc, before, x, S) {
        var i := NeverDoneLeadsOn(svc, before, x);
        assert Successors(svc, before, x)[i] in S;
      }
      assert Endless(svc, S, before) && Member(it, S);
    }
  }

  lemma QueueIsDone(svc: Service, before: set<Url>, w: Worklist) returns (n: nat)
    requires !MeetsDoomed(svc, before, w)
    ensures AllDoneIn(svc, before, w.queue, n)
  {
    assert !HoldsDoomed(svc, before, Iterate(svc, w, 0));
    forall i | 0 <= i < |w.queue| ensures Done(svc, before, w.queue[i]) {
      DoneUnlessDoomed(svc, before, w.queue[i]);
    }
    n := CommonBound(svc, before, w.queue);
  }

  /* ----- the turns an item takes ----- */

  /** Turns an item and what it leads to take while nothing is stored, down to depth n. */
  function Turns(svc: Service, before: set<Url>, it: Item, n: nat): (c: nat)
    ensures c >= 1
    decreases n, 0, 0
  {
    if n == 0 || !Nameless(svc, before, it) then 1
    else 1 + AllTurns(svc, before, Successors(svc, before, it), n - 1)
  }

  function AllTurns(svc: Service, before: set<Url>, q: seq<Item>, n: nat): nat
    decreases n, 1, |q|
  {
    if q == [] then 0 else Turns(svc, before, q[0], n) + AllTurns(svc, before, q[1..], n)
  }

  lemma {:induction false} AllTurnsConcat(svc: Service, before: set<Url>, p: seq<Item>, q: seq<Item>, n: nat)
    ensures AllTurns(svc, before, p + q, n) == AllTurns(svc, before, p, n) + AllTurns(svc, before, q, n)
    decreases |p|
  {
    if p == [] {
      assert p + q == q;
    } else {
      assert (p + q)[1..] == p[1..] + q;
      AllTurnsConcat(svc, before, p[1..], q, n);
    }
  }

  lemma {:induction false} TurnsStable(svc: Service, before: set<Url>, it: Item, m: nat, n: nat)
    requires DoneIn(svc, before, it, m) && m <= n
    ensures Turns(svc, before, it, n) == Turns(svc, before, it, m)
    decreases m, 1, 0
  {
    if Nameless(svc, before, it) {
      var q := Successors(svc, before, it);
      assert AllDoneIn(svc, before, q, m - 1);
      AllTurnsStable(svc, before, q, m - 1, n - 1);
      assert Turns(svc, before, it, m) == 1 + AllTurns(svc, before, q, m - 1);
      assert Turns(svc, before, it, n) == 1 + AllTurns(svc, before, q, n - 1);
    }
  }

  lemma {:induction false} AllTurnsStable(svc: Service, before: set<Url>, q: seq<Item>, m: nat, n: nat)
    requires AllDoneIn(svc, before, q, m) && m <= n
    ensures AllTurns(svc, before, q, n) == AllTurns(svc, before, q, m)
    decreases m, 2, |q|
  {
    if q != [] {
      TurnsStable(svc, before, q[0], m, n);
      AllTurnsStable(svc, before, q[1..], m, n);
    }
  }

  lemma {:induction false} FewerNewItems(svc: Service, ids: seq<string>, override: string, before: set<Url>,
                                         visited: set<Url>, n: nat)
    requires before <= visited
    ensures AllTurns(svc, before, NewItems(svc, ids, override, visited), n)
            <= AllTurns(svc, before, NewItems(svc, ids, override, before), n)
    ensures forall i :: 0 <= i < |NewItems(svc, ids, override, visited)| ==>
              NewItems(svc, ids, override, visited)[i] in NewItems(svc, ids, override, before)
  {
    if ids != [] {
      FewerNewItems(svc, ids[1..], override, before, visited, n);
      var url := svc.split(ids[0]);
      var link := LinkOf(svc, url, override);
      if link !in before && Fetchable(svc, link) {
        var it := Item(Some(url), svc.clearType(svc.get(link).body), override);
        var rest := NewItems(svc, ids[1..], override, before);
        assert NewItems(svc, ids, override, before) == [it] + rest;
        assert ([it] + rest)[1..] == rest;
        var rest' := NewItems(svc, ids[1..], override, visited);
        assert ([it] + rest')[1..] == rest';
      }
    }
  }

  /** Exploring the front of the queue stores a link, or takes one turn off what is to do. */
  lemma ExploreProgress(svc: Service, w: Worklist, U: set<Url>, O: set<string>, before: set<Url>, n: nat)
    requires Within(svc, w.queue, U, O) && w.queue != [] && before <= w.visited
    requires AllDoneIn(svc, before, w.queue, n)
    ensures var w' := Explore(svc, w);
            if w'.visited == w.visited
            then && AllDoneIn(svc, before, w'.queue, n)
                 && AllTurns(svc, before, w'.queue, n) < AllTurns(svc, before, w.queue, n)
            else |U - w'.visited| < |U - w.visited|
  {
    var it := w.queue[0];
    if it.url.Some? && LinkOf(svc, it.url.value, it.override) !in w.visited
       && svc.get(LinkOf(svc, it.url.value, it.override)).Answer?
    {
      var link := LinkOf(svc, it.url.value, it.override);
      if Nameless(svc, before, it) {
        NamelessProgress(svc, w, before, n);
      } else if EmptyBody(svc.get(link).body) {
        EmptyProgress(svc, w, link);
      } else {
        NamedProgress(svc, w, U, link);
      }
    }
  }

  lemma EmptyProgress(svc: Service, w: Worklist, link: Url)
    requires w.queue != [] && w.queue[0].url.Some? && link == LinkOf(svc, w.queue[0].url.value, w.queue[0].override)
    requires link !in w.visited && svc.get(link).Answer? && EmptyBody(svc.get(link).body)
    ensures Explore(svc, w).queue == w.queue[1..] && Explore(svc, w).visited == w.visited
  {
    assert Flat(svc.get(link).body) == [];
  }

  lemma NamedProgress(svc: Service, w: Worklist, U: set<Url>, link: Url)
    requires w.queue != [] && w.queue[0].url.Some? && link == LinkOf(svc, w.queue[0].url.value, w.queue[0].override)
    requires link !in w.visited && svc.get(link).Answer? && HasId(svc.get(link).body) && link in U
    ensures |U - Explore(svc, w).visited| < |U - w.visited|
  {
    var w' := Explore(svc, w);
    assert w'.visited == w.visited + {link};
    assert U - w'.visited == (U - w.visited) - {link};
    assert |(U - w.visited) - {link}| == |U - w.visited| - 1;
  }

  lemma NamelessProgress(svc: Service, w: Worklist, before: set<Url>, n: nat)
    requires w.queue != [] && before <= w.visited && AllDoneIn(svc, before, w.queue, n)
    requires Nameless(svc, before, w.queue[0])
    requires LinkOf(svc, w.queue[0].url.value, w.queue[0].override) !in w.visited
    ensures var w' := Explore(svc, w);
            && w'.visited == w.visited
            && AllDoneIn(svc, before, w'.queue, n)
            && AllTurns(svc, before, w'.queue, n) < AllTurns(svc, before, w.queue, n)
  {
    var it := w.queue[0];
    var ids := OdataIds(svc.get(LinkOf(svc, it.url.value, it.override)).body);
    var rest := w.queue[1..];
    var found := NewItems(svc, ids, it.override, w.visited);
    var all := Successors(svc, before, it);
    assert DoneIn(svc, before, it, n);
    AllDoneInMore(svc, before, all, n - 1, n);
    FewerNewItems(svc, ids, it.override, before, w.visited, n);
    AllTurnsStable(svc, before, all, n - 1, n);
    AllTurnsConcat(svc, before, rest, found, n);
    NamelessQueue(svc, w, before);
    AllDoneInPart(svc, before, w.queue, all, found, n);
  }

  lemma AllDoneInPart(svc: Service, before: set<Url>, q: seq<Item>, all: seq<Item>, found: seq<Item>, n: nat)
    requires q != [] && AllDoneIn(svc, before, q, n) && AllDoneIn(svc, before, all, n)
    requires forall i :: 0 <= i < |found| ==> found[i] in all
    ensures AllDoneIn(svc, before, q[1..] + found, n)
  {
    forall i | 0 <= i < |q[1..] + found| ensures DoneIn(svc, before, (q[1..] + found)[i], n) {
      if i < |q| - 1 {
        assert (q[1..] + found)[i] == q[i + 1];
      } else {
        assert (q[1..] + found)[i] == found[i - (|q| - 1)];
      }
    }
  }

  /* ----- when a walk ends ----- */

  lemma IterateTwice(svc: Service, w: Worklist, a: nat, b: nat)
    ensures Iterate(svc, Iterate(svc, w, a), b) == Iterate(svc, w, a + b)
  {
    TimesTwice(OneTurn(svc), w, a, b);
  }

  lemma {:induction false} IterateDone(svc: Service, w: Worklist, n: nat)
    requires w.queue == []
    ensures Iterate(svc, w, n) == w
    decreases n
  {
    if n > 0 {
      IterateDone(svc, w, n - 1);
    }
  }

  lemma IterateStep(svc: Service, w: Worklist, n: nat)
    requires n > 0 && w.queue != []
    ensures Iterate(svc, w, n) == Iterate(svc, Explore(svc, w), n - 1)
  {
  }

  lemma EmptyStaysEmpty(svc: Service, w: Worklist, k: nat, n: nat)
    requires k <= n && Iterate(svc, w, k).queue == []
    ensures Iterate(svc, w, n).queue == []
  {
    IterateTwice(svc, w, k, n - k);
    IterateDone(svc, Iterate(svc, w, k), n - k);
  }

  lemma {:induction false} IterateKeepsNamed(svc: Service, w: Worklist, before: set<Url>, n: nat)
    requires NewAreNamed(svc, w.visited, before)
    ensures NewAreNamed(svc, Iterate(svc, w, n).visited, before)
    decreases n
  {
    if n > 0 && w.queue != [] {
      ExploreKeepsNamed(svc, w, before);
      IterateKeepsNamed(svc, Explore(svc, w), before, n - 1);
    } else if n > 0 {
      IterateDone(svc, w, n);
    }
  }

  lemma StillMeetsNone(svc: Service, before: set<Url>, w: Worklist)
    requires w.queue != [] && !MeetsDoomed(svc, before, w)
    ensures !MeetsDoomed(svc, before, Explore(svc, w))
  {
    forall n: nat ensures !HoldsDoomed(svc, before, Iterate(svc, Explore(svc, w), n)) {
      assert Iterate(svc, w, n + 1) == Iterate(svc, Explore(svc, w), n);
    }
  }

  lemma {:induction false} WalkEnds(svc: Service, w: Worklist, U: set<Url>, O: set<string>, before: set<Url>, n: nat)
    requires Closed(svc, U, O, before) && !MeetsDoomed(svc, before, w) && before <= w.visited
    requires Within(svc, w.queue, U, O) && AllDoneIn(svc, before, w.queue, n)
    ensures Ends(svc, w)
    decreases |U - w.visited|, AllTurns(svc, before, w.queue, n)
  {
    if w.queue == [] {
      assert Iterate(svc, w, 0).queue == [];
    } else {
      var w' := Explore(svc, w);
      ExploreProgress(svc, w, U, O, before, n);
      ExploreWithin(svc, w, U, O, before);
      ExploreExtends(svc, w);
      StillMeetsNone(svc, before, w);
      var m := n;
      if w'.visited != w.visited {
        m := QueueIsDone(svc, before, w');
      }
      WalkEnds(svc, w', U, O, before, m);
      var k: nat :| Iterate(svc, w', k).queue == [];
      assert Iterate(svc, w, k + 1) == Iterate(svc, w', k);
    }
  }

  lemma DoomedStaysQueued(svc: Service, w: Worklist, before: set<Url>, k: nat)
    requires HoldsDoomed(svc, before, w) && NewAreNamed(svc, w.visited, before)
    ensures Iterate(svc, w, k).queue != []
  {
    var i :| 0 <= i < |w.queue| && Doomed(svc, before, w.queue[i]);
    var S :| Endless(svc, S, before) && Member(w.queue[i], S);
    assert Holds(w, S);
    EndlessNeverEnds(svc, w, S, before, k);
  }

  lemma DoomedNeverEnds(svc: Service, w: Worklist, before: set<Url>, n: nat)
    requires HoldsDoomed(svc, before, Iterate(svc, w, n)) && NewAreNamed(svc, w.visited, before)
    ensures !Ends(svc, w)
  {
    IterateKeepsNamed(svc, w, before, n);
    forall k: nat ensures Iterate(svc, w, k).queue != [] {
      DoomedStaysQueued(svc, Iterate(svc, w, n), before, k);
      IterateTwice(svc, w, n, k);
      if Iterate(svc, w, k).queue == [] {
        EmptyStaysEmpty(svc, w, k, n + k);
      }
    }
  }

  /** A walk over finitely many links ends exactly when no turn of it finds an item in the queue
      that leads round and round among resources without @odata.id. */
  lemma WalkEndsIff(svc: Service, w: Worklist, U: set<Url>, O: set<string>)
    requires Closed(svc, U, O, w.visited) && Within(svc, w.queue, U, O)
    ensures Ends(svc, w) <==> !MeetsDoomed(svc, w.visited, w)
  {
    if MeetsDoomed(svc, w.visited, w) {
      var n: nat :| HoldsDoomed(svc, w.visited, Iterate(svc, w, n));
      DoomedNeverEnds(svc, w, w.visited, n);
    } else {
      var n := QueueIsDone(svc, w.visited, w);
      WalkEnds(svc, w, U, O, w.visited, n);
    }
  }

  lemma {:induction false} IterateWithin(svc: Service, w: Worklist, U: set<Url>, O: set<string>, before: set<Url>,
                                         n: nat)
    requires Closed(svc, U, O, before) && before <= w.visited && Within(svc, w.queue, U, O)
    ensures Within(svc, Iterate(svc, w, n).queue, U, O)
    decreases n
  {
    if n > 0 && w.queue != [] {
      ExploreWithin(svc, w, U, O, before);
      ExploreExtends(svc, w);
      IterateWithin(svc, Explore(svc, w), U, O, before, n - 1);
    } else if n > 0 {
      IterateDone(svc, w, n);
    }
  }

  lemma NothingToMeet(svc: Service, w: Worklist, U: set<Url>, O: set<string>)
    requires Closed(svc, U, O, w.visited) && Within(svc, w.queue, U, O) && NothingDoomed(svc, U, O, w.visited)
    ensures !MeetsDoomed(svc, w.visited, w)
  {
    forall n: nat ensures !HoldsDoomed(svc, w.visited, Iterate(svc, w, n)) {
      IterateWithin(svc, w, U, O, w.visited, n);
    }
  }

  /** What can be told without walking: every walk over U and O ends, from whatever queue,
      exactly when no item over them leads round and round among resources without @odata.id. */
  lemma WalksEndIff(svc: Service, U: set<Url>, O: set<string>, before: set<Url>)
    requires Closed(svc, U, O, before)
    ensures NothingDoomed(svc, U, O, before) <==>
            forall q, f :: Within(svc, q, U, O) ==> Ends(svc, Worklist(q, before, f))
  {
    if NothingDoomed(svc, U, O, before) {
      forall q, f | Within(svc, q, U, O) ensures Ends(svc, Worklist(q, before, f)) {
        NothingToMeet(svc, Worklist(q, before, f), U, O);
        WalkEndsIff(svc, Worklist(q, before, f), U, O);
      }
    } else {
      var it :| ItemWithin(svc, it, U, O) && Doomed(svc, before, it);
      var w := Worklist([it], before, false);
      assert w.queue[0] == it;
      assert HoldsDoomed(svc, before, Iterate(svc, w, 0));
      DoomedNeverEnds(svc, w, before, 0);
      assert Within(svc, w.queue, U, O);
    }
  }

  /** In particular when every body carries an @odata.id. */
  lemma NamedBodiesEnd(svc: Service, U: set<Url>, O: set<string>, before: set<Url>)
    requires forall u :: u in U && u !in before && svc.get(u).Answer? && !EmptyBody(svc.get(u).body) ==>
               HasId(svc.get(u).body)
    ensures NothingDoomed(svc, U, O, before)
  {
  }

  /* ----- one turn ----- */

  /** A turn stores the link of its item exactly when the link gives an answer, good or bad, with
      an @odata.id, and stores nothing else. */
  lemma TurnStoresIff(svc: Service, w: Worklist)
    requires w.queue != []
    ensures var it := w.queue[0];
            forall u :: u in Explore(svc, w).visited <==>
              u in w.visited ||
              (it.url.Some? && u == LinkOf(svc, it.url.value, it.override)
               && svc.get(u).Answer? && HasId(svc.get(u).body))
  {
  }

  /** The links a turn looks past: those stored, and the one in hand if it has just been stored. */
  function Known(svc: Service, visited: set<Url>, link: Url): set<Url> {
    if visited != {} && Storable(svc, link) then visited + {link} else visited
  }

  /** A turn on a link that is not stored and gives an answer puts into the queue, behind all
      that waits: for every id found, its link if it can be fetched and is not known yet; then,
      if the resource was stored, its sub-elements. */
  lemma TurnQueuesExactly(svc: Service, w: Worklist)
    requires w.queue != [] && w.queue[0].url.Some?
    requires var link := LinkOf(svc, w.queue[0].url.value, w.queue[0].override);
             link !in w.visited && svc.get(link).Answer?
    ensures var it := w.queue[0];
            var link := LinkOf(svc, it.url.value, it.override);
            var body := svc.get(link).body;
            var found := NewItems(svc, OdataIds(body), it.override, Known(svc, w.visited, link));
            Explore(svc, w).queue ==
              w.queue[1..] + found
              + (if HasId(body) then svc.entities(link, body, svc.typeOf(body, it.odataType)) else [])
  {
    var link := LinkOf(svc, w.queue[0].url.value, w.queue[0].override);
    if EmptyBody(svc.get(link).body) {
      assert Flat(svc.get(link).body) == [];
    }
  }

  /** Any other turn only takes its item off the queue. */
  lemma IdleTurn(svc: Service, w: Worklist)
    requires w.queue != []
    requires w.queue[0].url.None?
             || LinkOf(svc, w.queue[0].url.value, w.queue[0].override) in w.visited
             || svc.get(LinkOf(svc, w.queue[0].url.value, w.queue[0].override)).NoLink?
    ensures Explore(svc, w).queue == w.queue[1..] && Explore(svc, w).visited == w.visited
  {
  }

  /* ----- what a walk reports ----- */

  /** What goes wrong with an item: its link, not stored yet, gives no answer or a bad one, an
      empty body, a body whose sub-elements cannot be processed, or one without @odata.id that
      should have been stored. */
  predicate Trouble(svc: Service, visited: set<Url>, it: Item) {
    it.url.Some? &&
    var link := LinkOf(svc, it.url.value, it.override);
    link !in visited &&
    match svc.get(link)
    case NoLink => true
    case Answer(success, body) =>
      var t := svc.typeOf(body, it.odataType);
      || !success || EmptyBody(body) || svc.unprocessable(link, body, t)
      || (!HasId(body) && (visited != {} || svc.entities(link, body, t) != []))
  }

  ghost predicate TroubleAt(svc: Service, w: Worklist, k: nat) {
    var v := Iterate(svc, w, k);
    v.queue != [] && Trouble(svc, v.visited, v.queue[0])
  }

  lemma TurnFailsIff(svc: Service, w: Worklist)
    requires w.queue != []
    ensures Explore(svc, w).failed <==> w.failed || Trouble(svc, w.visited, w.queue[0])
  {
  }

  lemma IterateLast(svc: Service, w: Worklist, n: nat)
    ensures var v := Iterate(svc, w, n);
            Iterate(svc, w, n + 1) == if v.queue == [] then v else Explore(svc, v)
  {
    IterateTwice(svc, w, n, 1);
    var v := Iterate(svc, w, n);
    if v.queue != [] {
      IterateStep(svc, v, 1);
    }
  }

  /** A walk reports a failure exactly when something went wrong with one of the items it took
      from the queue. */
  lemma {:induction false} WalkFailsIff(svc: Service, w: Worklist, n: nat)
    ensures Iterate(svc, w, n).failed <==> w.failed || exists k: nat :: k < n && TroubleAt(svc, w, k)
    decreases n
  {
    if n > 0 {
      WalkFailsIff(svc, w, n - 1);
      IterateLast(svc, w, n - 1);
      var v := Iterate(svc, w, n - 1);
      if v.queue != [] {
        TurnFailsIff(svc, v);
      }
      assert TroubleAt(svc, w, n - 1) <==> v.queue != [] && Trouble(svc, v.visited, v.queue[0]);
    }
  }

  /** The walk from w comes to v. */
  ghost predicate Reached(svc: Service, w: Worklist, v: Worklist) {
    exists n: nat :: Iterate(svc, w, n) == v
  }

  lemma ReachedAtFirst(svc: Service, w: Worklist)
    ensures Reached(svc, w, w)
  {
    assert Iterate(svc, w, 0) == w;
  }

  lemma ReachedNext(svc: Service, w: Worklist, v: Worklist)
    requires Reached(svc, w, v) && v.queue != []
    ensures Reached(svc, w, Explore(svc, v))
  {
    var n: nat :| Iterate(svc, w, n) == v;
    IterateLast(svc, w, n);
  }

  /** At the end of a walk that is every item it ever takes. */
  lemma EndedWalkFailsIff(svc: Service, w: Worklist, v: Worklist)
    requires Reached(svc, w, v) && v.queue == []
    ensures v.failed <==> w.failed || exists k: nat :: TroubleAt(svc, w, k)
  {
    var n: nat :| Iterate(svc, w, n) == v;
    WalkFailsIff(svc, w, n);
    forall k: nat | TroubleAt(svc, w, k) ensures k < n {
      if k >= n {
        EmptyStaysEmpty(svc, w, n, k);
      }
    }
  }

  /* ----- what is stored in the end ----- */

  ghost predicate Queued(svc: Service, q: seq<Item>, link: Url) {
    exists i :: 0 <= i < |q| && q[i].url.Some? && LinkOf(svc, q[i].url.value, q[i].override) == link
  }

  ghost predicate StoredOrQueued(svc: Service, w: Worklist, link: Url) {
    link in w.visited || Queued(svc, w.queue, link)
  }

  /** Every storable link found in the body at u is stored or waits in the queue. */
  ghost predicate Followed(svc: Service, w: Worklist, u: Url, override: string) {
    svc.get(u).Answer? &&
    forall id :: id in OdataIds(svc.get(u).body) ==>
      Storable(svc, LinkOf(svc, svc.split(id), override)) ==>
        StoredOrQueued(svc, w, LinkOf(svc, svc.split(id), override))
  }

  /** Links explored so far, each with the endpoint override it was explored under. */
  ghost predicate Progress(svc: Service, w: Worklist, before: set<Url>, explored: map<Url, string>, O: set<string>) {
    && w.visited <= before + explored.Keys
    && forall u :: u in explored ==> explored[u] in O && Followed(svc, w, u, explored[u])
  }

  /** Every storable @odata.id without '=' that the body at u mentions, resolved under the
      override, is stored. */
  ghost predicate Complete(svc: Service, visited: set<Url>, u: Url, override: string) {
    svc.get(u).Answer? &&
    forall v :: Mentions(svc.get(u).body, v) && '=' !in v ==>
      Storable(svc, LinkOf(svc, svc.split(v), override)) ==> LinkOf(svc, svc.split(v), override) in visited
  }

  lemma FollowedIsComplete(svc: Service, w: Worklist, u: Url, override: string)
    requires Followed(svc, w, u, override) && w.queue == []
    ensures Complete(svc, w.visited, u, override)
  {
    forall v | Mentions(svc.get(u).body, v) && '=' !in v ensures v in OdataIds(svc.get(u).body) {
      MentionIsFoundIff(svc.get(u).body, v);
    }
  }

  lemma {:induction false} NewItemsCover(svc: Service, ids: seq<string>, override: string, visited: set<Url>,
                                         id: string)
    requires id in ids
    ensures var l := LinkOf(svc, svc.split(id), override);
            Fetchable(svc, l) && l !in visited ==> Queued(svc, NewItems(svc, ids, override, visited), l)
  {
    var l := LinkOf(svc, svc.split(id), override);
    var q := NewItems(svc, ids, override, visited);
    if Fetchable(svc, l) && l !in visited {
      if ids[0] == id {
        assert q[0].url == Some(svc.split(id)) && q[0].override == override;
      } else {
        NewItemsCover(svc, ids[1..], override, visited, id);
        var rest := NewItems(svc, ids[1..], override, visited);
        var i :| 0 <= i < |rest| && rest[i].url.Some? && LinkOf(svc, rest[i].url.value, rest[i].override) == l;
        assert q[|q| - |rest| + i] == rest[i];
      }
    }
  }

  lemma QueuedIn(svc: Service, a: seq<Item>, b: seq<Item>, c: seq<Item>, l: Url)
    requires Queued(svc, a, l) || Queued(svc, b, l)
    requires a + b <= c
    ensures Queued(svc, c, l)
  {
    if Queued(svc, a, l) {
      var i :| 0 <= i < |a| && a[i].url.Some? && LinkOf(svc, a[i].url.value, a[i].override) == l;
      assert c[i] == (a + b)[i] == a[i];
    } else {
      var i :| 0 <= i < |b| && b[i].url.Some? && LinkOf(svc, b[i].url.value, b[i].override) == l;
      assert c[|a| + i] == (a + b)[|a| + i] == b[i];
    }
  }

  /** The link at the front of the queue. */
  lemma FrontIsStored(svc: Service, w: Worklist)
    requires w.queue != [] && w.queue[0].url.Some?
    ensures var l := LinkOf(svc, w.queue[0].url.value, w.queue[0].override);
            Storable(svc, l) ==> l in Explore(svc, w).visited
  {
  }

  /** A storable link that leaves the front of the queue is stored; every other link of the
      queue is still there. */
  lemma QueuedSurvives(svc: Service, w: Worklist, l: Url)
    requires w.queue != [] && Storable(svc, l) && StoredOrQueued(svc, w, l)
    ensures StoredOrQueued(svc, Explore(svc, w), l)
  {
    ExploreExtends(svc, w);
    if l !in w.visited {
      var i :| 0 <= i < |w.queue| && w.queue[i].url.Some?
               && LinkOf(svc, w.queue[i].url.value, w.queue[i].override) == l;
      if i == 0 {
        FrontIsStored(svc, w);
      } else {
        assert w.queue[1..][i - 1] == w.queue[i];
        assert w.queue[1..] + [] == w.queue[1..];
        QueuedIn(svc, w.queue[1..], [], Explore(svc, w).queue, l);
      }
    }
  }

  /** What the walk has explored after one more turn. */
  ghost function ExploredAfter(svc: Service, w: Worklist, explored: map<Url, string>): map<Url, string>
    requires w.queue != []
  {
    var it := w.queue[0];
    if it.url.Some? && LinkOf(svc, it.url.value, it.override) !in w.visited
       && svc.get(LinkOf(svc, it.url.value, it.override)).Answer?
    then explored[LinkOf(svc, it.url.value, it.override) := it.override]
    else explored
  }

  lemma ExploreFollows(svc: Service, w: Worklist)
    requires w.queue != [] && w.queue[0].url.Some?
    requires var link := LinkOf(svc, w.queue[0].url.value, w.queue[0].override);
             link !in w.visited && svc.get(link).Answer?
    ensures var it := w.queue[0];
            Followed(svc, Explore(svc, w), LinkOf(svc, it.url.value, it.override), it.override)
  {
    var it := w.queue[0];
    var link := LinkOf(svc, it.url.value, it.override);
    var r := svc.get(link);
    var w' := Explore(svc, w);
    var seen := SeenWhileReading(w.visited, link, r);
    var q := NewItems(svc, OdataIds(r.body), it.override, seen);
    assert w.queue[1..] + q <= w'.queue && seen <= w'.visited;
    forall id | id in OdataIds(r.body) && Storable(svc, LinkOf(svc, svc.split(id), it.override))
      ensures StoredOrQueued(svc, w', LinkOf(svc, svc.split(id), it.override))
    {
      var l := LinkOf(svc, svc.split(id), it.override);
      NewItemsCover(svc, OdataIds(r.body), it.override, seen, id);
      if l !in seen { QueuedIn(svc, w.queue[1..], q, w'.queue, l); }
    }
  }

  lemma StillFollowed(svc: Service, w: Worklist, u: Url, override: string)
    requires w.queue != [] && Followed(svc, w, u, override)
    ensures Followed(svc, Explore(svc, w), u, override)
  {
    forall id | id in OdataIds(svc.get(u).body) && Storable(svc, LinkOf(svc, svc.split(id), override))
      ensures StoredOrQueued(svc, Explore(svc, w), LinkOf(svc, svc.split(id), override))
    {
      QueuedSurvives(svc, w, LinkOf(svc, svc.split(id), override));
    }
  }

  lemma ExploreKeepsProgress(svc: Service, w: Worklist, U: set<Url>, O: set<string>, before: set<Url>,
                             explored: map<Url, string>)
    requires Within(svc, w.queue, U, O) && w.queue != [] && Progress(svc, w, before, explored, O)
    ensures Progress(svc, Explore(svc, w), before, ExploredAfter(svc, w, explored), O)
  {
    var w' := Explore(svc, w);
    var explored' := ExploredAfter(svc, w, explored);
    forall u | u in explored' ensures explored'[u] in O && Followed(svc, w', u, explored'[u]) {
      if explored' != explored && u == LinkOf(svc, w.queue[0].url.value, w.queue[0].override) {
        ExploreFollows(svc, w);
      } else {
        StillFollowed(svc, w, u, explored[u]);
      }
    }
  }
}
