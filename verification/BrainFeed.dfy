/** `_validate_graph`: duplicate identifiers, unknown references, and the peeling of items
    whose references are all completed. */
module BrainFeed {
  import opened Results
  import opened Ordering
  import opened Graphs

  const MAX_BRAIN_FEED_ITEMS := 4096

  datatype Item = Item(id: Node, kind: string, dependsOn: seq<Node>, evidenceFrom: seq<Node>)

  datatype FeedError =
    | DuplicateItemId(id: Node)
    | MissingReference(id: Node, ref: Node)
    | CyclicOrUnresolved(unresolved: seq<Node>)

  datatype LimitError = MaxItemsOutOfRange | TooManyItems

  datatype Report = Report(valid: bool, itemCount: nat, errors: set<FeedError>)

  function Refs(item: Item): set<Node> {
    (set r | r in item.dependsOn) + (set r | r in item.evidenceFrom)
  }

  function ItemIds(items: seq<Item>): set<Node> {
    set item | item in items :: item.id
  }

  /** The dictionary from identifiers to references: the last item of an identifier wins. */
  function RefGraph(items: seq<Item>): (g: Graph)
    ensures g.Keys == ItemIds(items)
  {
    if items == [] then map[]
    else
      var before, last := RefGraph(items[..|items| - 1]), items[|items| - 1];
      assert items == items[..|items| - 1] + [last];
      before[last.id := Refs(last)]
  }

  // ----- what the errors should be -----

  ghost predicate Repeated(items: seq<Item>, id: Node) {
    exists i, j :: 0 <= i < j < |items| && items[i].id == id && items[j].id == id
  }

  ghost predicate UniqueIds(items: seq<Item>) {
    forall i, j :: 0 <= i < j < |items| ==> items[i].id != items[j].id
  }

  predicate RefersTo(item: Item, r: Node) {
    r in item.dependsOn || r in item.evidenceFrom
  }

  ghost predicate AllKnown(items: seq<Item>) {
    forall item, r :: item in items && RefersTo(item, r) ==> r in ItemIds(items)
  }

  /** Following references from x one can come to an unknown one, or into a cycle. */
  ghost predicate Doomed(g: Graph, x: Node) {
    || (exists y :: Reachable(g, x, y) && y !in g)
    || (exists p :: IsCycle(g, p) && Reachable(g, x, p[0]))
  }

  ghost function DoomedIds(g: Graph): set<Node> {
    set x | x in g && Doomed(g, x)
  }

  ghost function DuplicateErrors(items: seq<Item>): set<FeedError> {
    set id | id in ItemIds(items) && Repeated(items, id) :: DuplicateItemId(id)
  }

  function MissingErrors(items: seq<Item>, known: set<Node>): set<FeedError> {
    set item, r | item in items && r in Refs(item) && r !in known :: MissingReference(item.id, r)
  }

  ghost function ExpectedErrors(items: seq<Item>): set<FeedError> {
    DuplicateErrors(items) + MissingErrors(items, ItemIds(items))
    + (if DoomedIds(RefGraph(items)) == {} then {} else {CyclicOrUnresolved(Sorted(DoomedIds(RefGraph(items))))})
  }

  // ----- peeling -----

  /** What the loop has completed: closed under references, and listed in an order in which
      references come first. */
  ghost predicate Peeled(g: Graph, completed: set<Node>, order: seq<Node>) {
    completed == (set n | n in order) && completed <= g.Keys && ReverseTopological(g, order)
  }

  /** No completed item can reach a cycle or an unknown reference. */
  lemma CompletedNotDoomed(g: Graph, completed: set<Node>, order: seq<Node>, x: Node)
    requires Peeled(g, completed, order) && x in completed
    ensures !Doomed(g, x)
  {
    forall n, m | n in completed && m in Succ(g, n) ensures m in completed {
      var i :| 0 <= i < |order| && order[i] == n;
      var j :| 0 <= j < i && order[j] == m;
    }
    forall y, p | PathBetween(g, p, x, y) ensures y in completed {
      ClosedKeepsPaths(g, completed, p);
    }
    forall p | IsCycle(g, p) ensures !Reachable(g, x, p[0]) {
      OrderExcludesCycles(g, order, p);
    }
  }

  /** When no pending item has all its references completed, every pending item is doomed. */
  lemma StuckIsDoomed(g: Graph, completed: set<Node>, x: Node)
    requires x in g && x !in completed
    requires forall y :: y in g && y !in completed ==> !(g[y] <= completed)
    ensures Doomed(g, x)
  {
    var stuck := set y | y in g && y !in completed && Reachable(g, x, y);
    ReachableSelf(g, x);
    if forall y :: y in stuck ==> Succ(g, y) * stuck != {} {
      var cycle := EndlessReachesCycle(g, stuck, x);
    } else {
      var y :| y in stuck && Succ(g, y) * stuck == {};
      var z :| z in g[y] && z !in completed;
      ReachableEdge(g, x, y, z);
      assert z in g ==> z in Succ(g, y) * stuck;
    }
  }

  /** The dictionary `pending` holds the references of the items not yet completed. */
  ghost predicate Splits(g: Graph, completed: set<Node>, pending: Graph) {
    && completed + pending.Keys == g.Keys && completed !! pending.Keys
    && forall n :: n in pending ==> pending[n] == g[n]
  }

  /** The peeling loop: what it cannot complete is exactly what is doomed. */
  method Peel(g: Graph) returns (unresolved: set<Node>)
    ensures unresolved == DoomedIds(g)
  {
    hide Doomed, ReverseTopological;
    var pending := g;
    var completed: set<Node> := {};
    ghost var order: seq<Node> := [];
    assert Peeled(g, completed, order) by { EmptyOrder(g); }
    while pending != map[]
      invariant Splits(g, completed, pending)
      invariant Peeled(g, completed, order)
      decreases pending.Keys
    {
      var ready := set n | n in pending && pending[n] <= completed;
      if ready == {} {
        unresolved := pending.Keys;
        forall x | x in g ensures x in unresolved <==> Doomed(g, x) {
          if x in completed {
            CompletedNotDoomed(g, completed, order, x);
          } else {
            assert forall y :: y in g && y !in completed ==> y in pending && y !in ready;
            StuckIsDoomed(g, completed, x);
          }
        }
        return;
      }
      completed, pending, order := PeelReady(g, completed, pending, order, ready);
    }
    unresolved := {};
    forall x | x in g ensures !Doomed(g, x) {
      CompletedNotDoomed(g, completed, order, x);
    }
  }

  /** The inner loop: the ready items are completed and popped one after another. */
  method PeelReady(g: Graph, before: set<Node>, from: Graph, ghost order0: seq<Node>, ready: set<Node>)
      returns (completed: set<Node>, pending: Graph, ghost order: seq<Node>)
    requires Splits(g, before, from) && Peeled(g, before, order0)
    requires ready <= from.Keys && forall n :: n in ready ==> g[n] <= before
    ensures Splits(g, completed, pending) && Peeled(g, completed, order)
    ensures completed == before + ready && pending.Keys == from.Keys - ready
  {
    hide ReverseTopological;
    completed, pending, order := before, from, order0;
    var todo := ready;
    while todo != {}
      invariant todo <= ready
      invariant completed == before + (ready - todo) && pending.Keys == from.Keys - (ready - todo)
      invariant Splits(g, completed, pending) && Peeled(g, completed, order)
    {
      var item :| item in todo;
      assert forall m :: m in Succ(g, item) ==> m in order;
      OrderExtends(g, order, item);
      order := order + [item];
      completed := completed + {item};
      pending := pending - {item};
      todo := todo - {item};
    }
  }

  lemma EmptyOrder(g: Graph)
    ensures ReverseTopological(g, [])
  {
  }

  /** The loop that builds `by_id` and reports repeated identifiers. */
  method FindDuplicates(items: seq<Item>) returns (errors: set<FeedError>)
    ensures errors == DuplicateErrors(items)
  {
    errors := {};
    var byId: set<Node> := {};
    for k := 0 to |items|
      invariant byId == ItemIds(items[..k])
      invariant forall e :: e in errors <==> e.DuplicateItemId? && Repeated(items[..k], e.id)
    {
      var id := items[k].id;
      assert items[..k + 1] == items[..k] + [items[k]];
      RepeatedStep(items[..k], items[k]);
      if id in byId {
        errors := errors + {DuplicateItemId(id)};
      }
      byId := byId + {id};
    }
    assert items[..|items|] == items;
    forall id | Repeated(items, id) ensures id in ItemIds(items) {
      var i, j :| 0 <= i < j < |items| && items[i].id == id && items[j].id == id;
      assert items[i] in items;
    }
  }

  lemma RepeatedStep(items: seq<Item>, item: Item)
    ensures ItemIds(items + [item]) == ItemIds(items) + {item.id}
    ensures forall id :: Repeated(items + [item], id) <==>
      Repeated(items, id) || (id == item.id && id in ItemIds(items))
  {
    var longer := items + [item];
    assert forall x :: x in longer <==> x in items || x == item;
    forall id ensures Repeated(longer, id) <==> Repeated(items, id) || (id == item.id && id in ItemIds(items)) {
      if Repeated(items, id) {
        var i, j :| 0 <= i < j < |items| && items[i].id == id && items[j].id == id;
        assert longer[i].id == id && longer[j].id == id;
      }
      if id == item.id && id in ItemIds(items) {
        var i :| 0 <= i < |items| && items[i].id == id;
        assert longer[i].id == id && longer[|items|].id == id;
      }
    }
  }

  method FindMissing(items: seq<Item>, known: set<Node>) returns (errors: set<FeedError>)
    ensures errors == MissingErrors(items, known)
  {
    errors := {};
    for k := 0 to |items|
      invariant errors == MissingErrors(items[..k], known)
    {
      assert items[..k + 1] == items[..k] + [items[k]];
      assert forall x :: x in items[..k + 1] <==> x in items[..k] || x == items[k];
      errors := errors + set r | r in Refs(items[k]) && r !in known :: MissingReference(items[k].id, r);
    }
    assert items[..|items|] == items;
  }

  /** `pending` is built as a dictionary comprehension over the items. */
  method BuildPending(items: seq<Item>) returns (g: Graph)
    ensures g == RefGraph(items)
  {
    g := map[];
    for k := 0 to |items|
      invariant g == RefGraph(items[..k])
    {
      assert items[..k + 1][..k] == items[..k];
      g := g[items[k].id := Refs(items[k])];
    }
    assert items[..|items|] == items;
  }

  /** `_validate_graph`: the errors are exactly the expected ones, and none means that
      identifiers are unique, references known and the graph acyclic. */
  method ValidateGraph(items: seq<Item>, maxItems: int) returns (r: Result<Report, LimitError>)
    ensures r.Err? <==> maxItems < 1 || maxItems > MAX_BRAIN_FEED_ITEMS || |items| > maxItems
    ensures r.Ok? ==> r.value.errors == ExpectedErrors(items) && r.value.itemCount == |items|
    ensures r.Ok? ==> (r.value.valid <==> UniqueIds(items) && AllKnown(items) && Acyclic(RefGraph(items)))
  {
    if maxItems < 1 || maxItems > MAX_BRAIN_FEED_ITEMS {
      return Err(MaxItemsOutOfRange);
    }
    if |items| > maxItems {
      return Err(TooManyItems);
    }
    var duplicates := FindDuplicates(items);
    var missing := FindMissing(items, ItemIds(items));
    var g := BuildPending(items);
    var unresolved := Peel(g);
    var errors := duplicates + missing;
    if unresolved != {} {
      errors := errors + {CyclicOrUnresolved(Sorted(unresolved))};
    }
    NoErrorsExactlyWhen(items);
    r := Ok(Report(errors == {}, |items|, errors));
  }

  /** With unique identifiers the graph holds every item's own references. */
  lemma {:induction false} RefGraphOf(items: seq<Item>, item: Item)
    requires UniqueIds(items) && item in items
    ensures RefGraph(items)[item.id] == Refs(item)
  {
    var init, last := items[..|items| - 1], items[|items| - 1];
    assert items == init + [last];
    if item != last {
      assert item in init;
      var k :| 0 <= k < |init| && init[k] == item;
      assert items[k] == item;
      assert forall i, j :: 0 <= i < j < |init| ==> init[i] == items[i] && init[j] == items[j];
      RefGraphOf(init, item);
    }
  }

  /** The references an identifier stands for are those of its last item, of either kind. */
  lemma {:induction false} RefGraphExactly(items: seq<Item>, i: nat)
    requires i < |items| && forall j :: i < j < |items| ==> items[j].id != items[i].id
    ensures items[i].id in RefGraph(items)
    ensures forall r :: r in RefGraph(items)[items[i].id] <==> RefersTo(items[i], r)
  {
    var init := items[..|items| - 1];
    if i < |init| {
      assert forall j :: 0 <= j < |init| ==> init[j] == items[j];
      RefGraphExactly(init, i);
    }
  }

  /** A missing reference is reported exactly for an item that refers to an unknown one. */
  lemma MissingExactly(items: seq<Item>, id: Node, r: Node)
    ensures MissingReference(id, r) in MissingErrors(items, ItemIds(items)) <==>
      r !in ItemIds(items) && exists item :: item in items && item.id == id && RefersTo(item, r)
  {
    if r !in ItemIds(items) && exists item :: item in items && item.id == id && RefersTo(item, r) {
      var item :| item in items && item.id == id && RefersTo(item, r);
      assert r in Refs(item);
    }
    if MissingReference(id, r) in MissingErrors(items, ItemIds(items)) {
      var item :| item in items && item.id == id && r in Refs(item);
      assert RefersTo(item, r);
    }
  }

  lemma NoErrorsExactlyWhen(items: seq<Item>)
    ensures ExpectedErrors(items) == {} <==> UniqueIds(items) && AllKnown(items) && Acyclic(RefGraph(items))
  {
    hide Acyclic, Doomed, RefGraph;
    var g := RefGraph(items);
    NoDuplicatesExactlyWhen(items);
    NoMissingExactlyWhen(items);
    if UniqueIds(items) && AllKnown(items) {
      ReferencesInside(items);
      DoomedExactlyWhenCyclic(g);
    }
  }

  lemma ReferencesInside(items: seq<Item>)
    requires UniqueIds(items) && AllKnown(items)
    ensures ClosedUnder(RefGraph(items), RefGraph(items).Keys)
  {
    hide AllKnown, Refs, UniqueIds;
    var g := RefGraph(items);
    forall n, m | n in g && m in Succ(g, n) ensures m in g {
      var item :| item in items && item.id == n;
      RefGraphOf(items, item);
      KnownReference(items, item, m);
    }
  }

  lemma KnownReference(items: seq<Item>, item: Item, r: Node)
    requires AllKnown(items) && item in items && r in Refs(item)
    ensures r in ItemIds(items)
  {
    assert RefersTo(item, r);
  }

  lemma NoDuplicatesExactlyWhen(items: seq<Item>)
    ensures DuplicateErrors(items) == {} <==> UniqueIds(items)
  {
    if !UniqueIds(items) {
      var i, j :| 0 <= i < j < |items| && items[i].id == items[j].id;
      assert items[i] in items && Repeated(items, items[i].id);
      assert DuplicateItemId(items[i].id) in DuplicateErrors(items);
    }
  }

  lemma NoMissingExactlyWhen(items: seq<Item>)
    ensures MissingErrors(items, ItemIds(items)) == {} <==> AllKnown(items)
  {
    if !AllKnown(items) {
      var item, r :| item in items && r in Refs(item) && r !in ItemIds(items);
      assert MissingReference(item.id, r) in MissingErrors(items, ItemIds(items));
    }
  }

  /** In a graph without unknown references only cycles doom. */
  lemma DoomedExactlyWhenCyclic(g: Graph)
    requires ClosedUnder(g, g.Keys)
    ensures DoomedIds(g) == {} <==> Acyclic(g)
  {
    forall p | IsCycle(g, p) ensures p[0] in DoomedIds(g) {
      CycleStartsInside(g, p);
      ReachableSelf(g, p[0]);
    }
    forall x | x in g && Doomed(g, x) ensures !Acyclic(g) {
      forall y, p | PathBetween(g, p, x, y) ensures y in g {
        ClosedKeepsPaths(g, g.Keys, p);
      }
    }
  }
}
