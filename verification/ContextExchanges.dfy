/** What dropping exchanges means when call identifiers are unique: the oldest identifiers
    with a droppable output go, call and output together, and everything else stays in
    order. */
module ContextExchanges {
  import opened Results
  import opened Ordering
  import opened ContextBudget

  /** The call identifier of a call or of an output. */
  predicate Touches(item: Item, ids: set<string>) {
    !item.Plain? && item.callId in ids
  }

  /** The items that touch none of the identifiers, in order. */
  function Keep(items: seq<Item>, ids: set<string>): seq<Item> {
    if items == [] then []
    else
      var before, last := Keep(items[..|items| - 1], ids), items[|items| - 1];
      if Touches(last, ids) then before else before + [last]
  }

  /** No two calls, and no two outputs, share an identifier. */
  ghost predicate UniqueIds(items: seq<Item>) {
    forall i, j :: 0 <= i < j < |items| ==>
      !(items[i].Call? && items[j].Call? && items[i].callId == items[j].callId)
      && !(items[i].Output? && items[j].Output? && items[i].callId == items[j].callId)
  }

  /** The identifiers of droppable outputs. */
  ghost function DroppableIds(items: seq<Item>): set<string> {
    set item | item in items && Droppable(item) :: item.callId
  }

  /** The identifiers of the calls, in order, that are in a given set. */
  ghost function CallsIn(items: seq<Item>, ids: set<string>): seq<string> {
    if items == [] then []
    else
      var before, last := CallsIn(items[..|items| - 1], ids), items[|items| - 1];
      if last.Call? && last.callId in ids then before + [last.callId] else before
  }

  /** The exchanges that may go, oldest call first. */
  ghost function ExchangeIds(items: seq<Item>): seq<string> {
    CallsIn(items, DroppableIds(items))
  }

  function IdsOf(ids: seq<string>): set<string> {
    set id | id in ids
  }

  // ----- keeping -----

  lemma {:induction false} KeepSplit(a: seq<Item>, b: seq<Item>, ids: set<string>)
    ensures Keep(a + b, ids) == Keep(a, ids) + Keep(b, ids)
  {
    if b == [] {
      assert a + b == a;
    } else {
      assert (a + b)[..|a + b| - 1] == a + b[..|b| - 1];
      KeepSplit(a, b[..|b| - 1], ids);
    }
  }

  lemma {:induction false} KeepAll(items: seq<Item>, ids: set<string>)
    requires forall item :: item in items ==> !Touches(item, ids)
    ensures Keep(items, ids) == items
  {
    if items != [] {
      KeepAll(items[..|items| - 1], ids);
      assert items == items[..|items| - 1] + [items[|items| - 1]];
    }
  }

  lemma {:induction false} KeepMember(items: seq<Item>, ids: set<string>, item: Item)
    ensures item in Keep(items, ids) <==> item in items && !Touches(item, ids)
  {
    if items != [] {
      KeepMember(items[..|items| - 1], ids, item);
      assert items == items[..|items| - 1] + [items[|items| - 1]];
    }
  }

  lemma {:induction false} KeepTwice(items: seq<Item>, a: set<string>, b: set<string>)
    ensures Keep(Keep(items, a), b) == Keep(items, a + b)
  {
    if items != [] {
      var before, last := items[..|items| - 1], items[|items| - 1];
      KeepTwice(before, a, b);
      KeepSplit(Keep(before, a), [last], b);
    }
  }

  lemma {:induction false} KeepUnique(items: seq<Item>, ids: set<string>)
    requires UniqueIds(items)
    ensures UniqueIds(Keep(items, ids))
  {
    if items != [] {
      var before, last := items[..|items| - 1], items[|items| - 1];
      KeepUnique(before, ids);
      forall k | 0 <= k < |Keep(before, ids)|
        ensures exists i :: 0 <= i < |before| && items[i] == Keep(before, ids)[k]
      {
        KeepMember(before, ids, Keep(before, ids)[k]);
        var i :| 0 <= i < |before| && before[i] == Keep(before, ids)[k];
      }
    }
  }

  lemma KeepOne(item: Item, ids: set<string>)
    requires Touches(item, ids)
    ensures Keep([item], ids) == []
  {
    assert Keep([item], ids) == Keep([item][..0], ids);
  }

  lemma KeepWithout(items: seq<Item>, i: nat, ids: set<string>)
    requires i < |items| && Touches(items[i], ids)
    ensures Keep(Without(items, i), ids) == Keep(items, ids)
  {
    hide Keep, Touches;
    var a, x, b := items[..i], [items[i]], items[i + 1..];
    assert items == a + (x + b);
    KeepSplit(a, b, ids);
    KeepSplit(a, x + b, ids);
    KeepSplit(x, b, ids);
    KeepOne(items[i], ids);
  }

  lemma HoleUntouched(items: seq<Item>, low: nat, high: nat, ids: set<string>)
    requires low < high < |items|
    requires forall k :: 0 <= k < |items| && k != low && k != high ==> !Touches(items[k], ids)
    ensures |Without(items, high)| == |items| - 1 && Without(items, high)[low] == items[low]
    ensures forall k :: 0 <= k < |items| - 1 && k != low ==> !Touches(Without(items, high)[k], ids)
  {
    hide Touches;
    forall k | 0 <= k < |items| - 1 && k != low ensures !Touches(Without(items, high)[k], ids) {
      assert Without(items, high)[k] == items[if k < high then k else k + 1];
    }
  }

  lemma RestUntouched(items: seq<Item>, low: nat, ids: set<string>)
    requires low < |items|
    requires forall k :: 0 <= k < |items| && k != low ==> !Touches(items[k], ids)
    ensures forall item :: item in Without(items, low) ==> !Touches(item, ids)
  {
    hide Touches;
  }

  /** Deleting the two items of an identifier that nothing else carries keeps the rest. */
  lemma PairIsKeep(items: seq<Item>, p: (nat, nat), id: string)
    requires p.0 < |items| && p.1 < |items| && p.0 != p.1
    requires forall k :: 0 <= k < |items| ==> (Touches(items[k], {id}) <==> k == p.0 || k == p.1)
    ensures WithoutPair(items, p) == Keep(items, {id})
  {
    hide Touches, Without, Keep;
    var low, high := Min(p.0, p.1), Max(p.0, p.1);
    HoleUntouched(items, low, high, {id});
    KeepWithout(items, high, {id});
    KeepWithout(Without(items, high), low, {id});
    RestUntouched(Without(items, high), low, {id});
    KeepAll(Without(Without(items, high), low), {id});
  }

  // ----- the oldest exchange -----

  lemma {:induction false} OutputKeys(items: seq<Item>)
    ensures OutputIndex(items, 0).Keys == DroppableIds(items)
  {
    if items != [] {
      var before, last := items[..|items| - 1], items[|items| - 1];
      assert items == before + [last];
      OutputKeys(before);
      hide Droppable;
      DroppableIsOutput(last);
      assert DroppableIds(items) == DroppableIds(before) + (if Droppable(last) then {last.callId} else {});
    } else {
      assert OutputIndex(items, 0).Keys == {};
    }
  }

  lemma {:induction false} CandidateIds(items: seq<Item>, outputs: map<string, nat>)
    ensures |Candidates(items, 0, outputs)| == |CallsIn(items, outputs.Keys)|
    ensures forall k :: 0 <= k < |Candidates(items, 0, outputs)| ==>
      items[Candidates(items, 0, outputs)[k].0].callId == CallsIn(items, outputs.Keys)[k]
  {
    if items != [] {
      CandidateIds(items[..|items| - 1], outputs);
    }
  }

  lemma {:induction false} CallsInMembers(items: seq<Item>, ids: set<string>, id: string)
    ensures id in CallsIn(items, ids) <==>
      id in ids && exists i :: 0 <= i < |items| && items[i].Call? && items[i].callId == id
  {
    if items != [] {
      CallsInMembers(items[..|items| - 1], ids, id);
    }
  }

  /** The oldest exchange is that of the first exchange identifier. */
  lemma OldestIsFirst(items: seq<Item>)
    ensures OldestExchange(items, 0, 0).None? <==> ExchangeIds(items) == []
    ensures OldestExchange(items, 0, 0).Some? ==>
      items[OldestExchange(items, 0, 0).value.0].callId == ExchangeIds(items)[0]
  {
    hide Droppable;
    OutputKeys(items);
    CandidateIds(items, OutputIndex(items, 0));
  }

  /** With unique identifiers, deleting the oldest exchange removes exactly the items of its
      identifier. */
  lemma OldestIsKeep(items: seq<Item>, p: (nat, nat))
    requires UniqueIds(items) && OldestExchange(items, 0, 0) == Some(p)
    ensures p.0 < |items| && p.1 < |items| && p.0 != p.1 && ExchangeIds(items) != []
    ensures WithoutPair(items, p) == Keep(items, {ExchangeIds(items)[0]})
  {
    hide Droppable, OldestExchange, ExchangeIds;
    ExchangeIndices(items, 0, 0);
    OldestIsFirst(items);
    DroppableIsOutput(items[p.1]);
    var id := ExchangeIds(items)[0];
    PairIsKeep(items, p, id);
  }

  lemma DroppableIsOutput(item: Item)
    ensures Droppable(item) ==> item.Output?
  {
  }

  // ----- what is left to drop -----

  lemma {:induction false} CallsAfterKeep(items: seq<Item>, ids: set<string>, id: string)
    requires UniqueIds(items) && CallsIn(items, ids) != [] && CallsIn(items, ids)[0] == id
    ensures CallsIn(Keep(items, {id}), ids - {id}) == CallsIn(items, ids)[1..]
  {
    var before, last := items[..|items| - 1], items[|items| - 1];
    if CallsIn(before, ids) == [] {
      NoCalls(before, ids, id);
    } else {
      CallsAfterKeep(before, ids, id);
      CallsInMembers(before, ids, id);
      assert !(last.Call? && last.callId == id);
    }
    if !Touches(last, {id}) {
      assert (Keep(before, {id}) + [last])[..|Keep(before, {id})|] == Keep(before, {id});
    }
  }

  lemma {:induction false} NoCalls(items: seq<Item>, ids: set<string>, id: string)
    requires CallsIn(items, ids) == []
    ensures CallsIn(Keep(items, {id}), ids - {id}) == []
  {
    if items != [] {
      var before, last := items[..|items| - 1], items[|items| - 1];
      NoCalls(before, ids, id);
      if !Touches(last, {id}) {
        assert (Keep(before, {id}) + [last])[..|Keep(before, {id})|] == Keep(before, {id});
      }
    }
  }

  lemma DroppableAfterKeep(items: seq<Item>, id: string)
    ensures DroppableIds(Keep(items, {id})) == DroppableIds(items) - {id}
  {
    hide Keep;
    forall item ensures item in Keep(items, {id}) <==> item in items && !Touches(item, {id}) {
      KeepMember(items, {id}, item);
    }
    forall x | x in DroppableIds(items) - {id} ensures x in DroppableIds(Keep(items, {id})) {
      var item :| item in items && Droppable(item) && item.callId == x;
      assert item in Keep(items, {id});
    }
  }

  lemma ExchangesAfterKeep(items: seq<Item>)
    requires UniqueIds(items) && ExchangeIds(items) != []
    ensures ExchangeIds(Keep(items, {ExchangeIds(items)[0]})) == ExchangeIds(items)[1..]
  {
    var id := ExchangeIds(items)[0];
    DroppableAfterKeep(items, id);
    CallsAfterKeep(items, DroppableIds(items), id);
  }

  // ----- the whole loop -----

  /** Dropping the first n exchanges. */
  ghost function AfterDropping(items: seq<Item>, n: nat): seq<Item>
    requires n <= |ExchangeIds(items)|
  {
    Keep(items, IdsOf(ExchangeIds(items)[..n]))
  }

  /** n is the least number of oldest exchanges whose removal makes the request fit, or all
      of them. */
  ghost predicate FewestDropped(c: Context, items: seq<Item>, n: nat) {
    && n <= |ExchangeIds(items)|
    && (n == |ExchangeIds(items)| || Fits(c, AfterDropping(items, n)))
    && forall m: nat :: m < n ==> !Fits(c, AfterDropping(items, m))
  }

  lemma DropNone(items: seq<Item>)
    ensures AfterDropping(items, 0) == items
  {
    assert IdsOf(ExchangeIds(items)[..0]) == {};
    KeepAll(items, {});
  }

  lemma DropOneMore(items: seq<Item>, n: nat)
    requires UniqueIds(items) && ExchangeIds(items) != [] && n < |ExchangeIds(items)|
    ensures var next := Keep(items, {ExchangeIds(items)[0]});
      n <= |ExchangeIds(next)| && AfterDropping(next, n) == AfterDropping(items, n + 1)
  {
    hide ExchangeIds;
    var ids := ExchangeIds(items);
    ExchangesAfterKeep(items);
    KeepTwice(items, {ids[0]}, IdsOf(ids[1..][..n]));
    assert ids[..n + 1] == [ids[0]] + ids[1..][..n];
    assert IdsOf(ids[..n + 1]) == {ids[0]} + IdsOf(ids[1..][..n]);
  }

  /** The fourth loop, with unique identifiers: it removes the oldest exchanges, as few as
      make the request fit, each with its call and its output, and nothing else. */
  lemma {:induction false} DropsOldestFewest(c: Context, items: seq<Item>) returns (n: nat)
    requires UniqueIds(items)
    ensures FewestDropped(c, items, n)
    ensures DropUntilFit(c, items, 0) == AfterDropping(items, n)
    decreases |items|
  {
    hide Fits, OldestExchange, ExchangeIds, AfterDropping, WithoutPair, Keep, UniqueIds;
    OldestIsFirst(items);
    DropNone(items);
    var p := OldestExchange(items, 0, 0);
    if Fits(c, items) || p.None? {
      n := 0;
    } else {
      OldestIsKeep(items, p.value);
      var next := Keep(items, {ExchangeIds(items)[0]});
      KeepUnique(items, {ExchangeIds(items)[0]});
      ExchangesAfterKeep(items);
      var m := DropsOldestFewest(c, next);
      n := m + 1;
      DropOneMore(items, m);
      forall k: nat | k < n ensures !Fits(c, AfterDropping(items, k)) {
        if k > 0 { DropOneMore(items, k - 1); }
      }
    }
  }

  // ----- what survives -----

  /** No orphans: with unique identifiers a call and its output stay or go together, and an
      output that may not be dropped stays, with its call. */
  lemma NoOrphans(items: seq<Item>, n: nat, i: nat, j: nat)
    requires UniqueIds(items) && n <= |ExchangeIds(items)| && i < |items| && j < |items|
    requires items[i].Call? && items[j].Output? && items[i].callId == items[j].callId
    ensures items[i] in AfterDropping(items, n) <==> items[j] in AfterDropping(items, n)
    ensures !Droppable(items[j]) ==> items[i] in AfterDropping(items, n) && items[j] in AfterDropping(items, n)
  {
    hide Keep, Droppable, UniqueIds;
    var ids := IdsOf(ExchangeIds(items)[..n]);
    KeepMember(items, ids, items[i]);
    KeepMember(items, ids, items[j]);
    if items[j].callId in ids {
      CallsInMembers(items, DroppableIds(items), items[j].callId);
      DroppedIsDroppable(items, j);
    }
  }

  lemma DroppedIsDroppable(items: seq<Item>, j: nat)
    requires UniqueIds(items) && j < |items| && items[j].Output? && items[j].callId in DroppableIds(items)
    ensures Droppable(items[j])
  {
    var item :| item in items && Droppable(item) && item.callId == items[j].callId;
    var k :| 0 <= k < |items| && items[k] == item;
    assert k < j || k == j || j < k;
  }

  /** The exchange found pairs a call with the last droppable output of its identifier. */
  lemma OldestPairsLast(items: seq<Item>, i: nat)
    requires i < |items| && items[i].Call? && items[i].callId in DroppableIds(items)
    ensures OldestExchange(items, 0, 0).Some?
    ensures var p := OldestExchange(items, 0, 0).value;
      && p.0 < |items| && p.1 < |items| && items[p.0].Call?
      && forall k :: 0 <= k < |items| && Droppable(items[k]) && items[k].callId == items[p.0].callId ==> k <= p.1
  {
    hide Droppable;
    OldestIsFirst(items);
    CallsInMembers(items, DroppableIds(items), items[i].callId);
  }

  /** A call identifier shared by two outputs leaves an orphan: the call goes with the later
      output, and the earlier one stays without a call. */
  lemma SharedIdLeavesOrphan(c: Context, call: Item, first: Item, second: Item)
    requires call.Call? && Droppable(first) && Droppable(second)
    requires call.callId == first.callId && call.callId == second.callId
    requires !Fits(c, [call, first, second])
    ensures DropUntilFit(c, [call, first, second], 0) == [first]
  {
    hide Fits, Droppable, OldestExchange;
    DroppableIsOutput(first);
    DroppableIsOutput(second);
    var items := [call, first, second];
    assert items[0] == call && items[2] == second && second in items;
    OldestPairsLast(items, 0);
    ExchangeIndices(items, 0, 0);
    assert WithoutPair(items, (0, 2)) == [first];
    if OldestExchange([first], 0, 0).Some? {
      ExchangeIndices([first], 0, 0);
    }
  }

  /** Compaction takes the protection away: the projection of a first compaction does not
      carry the markers, so it may be dropped as soon as it names a call and has evidence; a
      repeated one changes nothing. */
  lemma ProtectionLostExactlyWhen(text: TextModel, item: Item, excerpt: nat, force: bool)
    requires Compact(text, item, excerpt, force).Some?
    ensures Droppable(Compact(text, item, excerpt, force).value) <==>
      (if item.payload.decoded.Fields? && item.payload.decoded.compacted then Droppable(item)
       else item.callId != "" && EvidenceIds(item.payload.decoded) != {})
  {
  }

  /** The items that are neither calls nor outputs. */
  function PlainOf(items: seq<Item>): seq<Item> {
    if items == [] then []
    else if items[0].Plain? then [items[0]] + PlainOf(items[1..]) else PlainOf(items[1..])
  }

  lemma {:induction false} PlainWithout(items: seq<Item>, i: nat)
    requires i < |items| && !items[i].Plain?
    ensures PlainOf(Without(items, i)) == PlainOf(items)
  {
    if i == 0 {
      assert Without(items, 0) == items[1..];
    } else {
      PlainWithout(items[1..], i - 1);
      assert Without(items, i)[1..] == Without(items[1..], i - 1);
    }
  }

  lemma PlainWithoutPair(items: seq<Item>, p: (nat, nat))
    requires p.0 < |items| && p.1 < |items| && p.0 != p.1 && !items[p.0].Plain? && !items[p.1].Plain?
    ensures PlainOf(WithoutPair(items, p)) == PlainOf(items)
  {
    hide PlainOf;
    var low, high := Min(p.0, p.1), Max(p.0, p.1);
    PlainWithout(items, high);
    PlainWithout(Without(items, high), low);
  }

  /** The fourth loop keeps every item that is neither a call nor an output, in order,
      whatever the identifiers. */
  lemma {:induction false} DroppingKeepsPlain(c: Context, items: seq<Item>, from: nat)
    ensures PlainOf(DropUntilFit(c, items, from)) == PlainOf(items)
    decreases |items|
  {
    hide Fits, PlainOf, OldestExchange, WithoutPair, Droppable;
    var p := OldestExchange(items, from, 0);
    if !Fits(c, items) && p.Some? {
      ExchangeIndices(items, from, 0);
      DroppableIsOutput(items[p.value.1]);
      PlainWithoutPair(items, p.value);
      DroppingKeepsPlain(c, WithoutPair(items, p.value), from);
    }
  }

  lemma {:induction false} CompactionKeepsPlain(text: TextModel, a: seq<Item>, b: seq<Item>)
    requires AllSameOrCompacted(text, a, b)
    ensures PlainOf(b) == PlainOf(a)
  {
    if a != [] {
      assert SameOrCompacted(text, a[0], b[0]);
      forall i | 0 <= i < |a| - 1 ensures SameOrCompacted(text, a[1..][i], b[1..][i]) {
        assert SameOrCompacted(text, a[i + 1], b[i + 1]);
      }
      CompactionKeepsPlain(text, a[1..], b[1..]);
    }
  }

  lemma CompactionKeepsUnique(text: TextModel, a: seq<Item>, b: seq<Item>)
    requires AllSameOrCompacted(text, a, b) && UniqueIds(a)
    ensures UniqueIds(b)
  {
    forall i | 0 <= i < |a|
      ensures b[i].Call? == a[i].Call? && b[i].Output? == a[i].Output? && (!a[i].Plain? ==> b[i].callId == a[i].callId)
    {
      assert SameOrCompacted(text, a[i], b[i]);
    }
  }
}
