/** The in-memory routing table: subscribers by pattern, then by subscriber ID. */
module RoutingTable {
  import opened Basics
  import opened TopicPattern

  // Two subscribers may carry one ID: a mesh client and its stream attachment do.
  datatype Subscriber = Subscriber(id: Text, local: bool, handle: nat)

  datatype Subscription = Subscription(topic: Text, subscriber: Subscriber)

  type Entry = map<Text, Subscriber>

  type Table = map<Text, Entry>

  ghost predicate WellFormed(table: Table) {
    && (forall t :: t in table ==> table[t] != map[])
    && (forall t, id :: t in table && id in table[t] ==> table[t][id].id == id)
  }

  function EntryOf(table: Table, topic: Text): Entry {
    if topic in table then table[topic] else map[]
  }

  predicate Routes(table: Table, topic: Text, s: Subscriber) {
    s.id in EntryOf(table, topic) && EntryOf(table, topic)[s.id] == s
  }

  function Subscribed(table: Table, topic: Text, s: Subscriber): Table {
    table[topic := EntryOf(table, topic)[s.id := s]]
  }

  function Unsubscribed(table: Table, topic: Text, id: Text): Table {
    if EntryOf(table, topic) - {id} == map[] then table - {topic}
    else table[topic := EntryOf(table, topic) - {id}]
  }

  /** Subscribing and unsubscribing touch one ID under one pattern, and the last
      subscriber under an ID wins. */
  lemma OneEntryChanges(table: Table, topic: Text, s: Subscriber, t: Text, id: Text)
    requires WellFormed(table)
    ensures WellFormed(Subscribed(table, topic, s)) && WellFormed(Unsubscribed(table, topic, s.id))
    ensures Routes(Subscribed(table, topic, s), topic, s)
    ensures id in EntryOf(Subscribed(table, topic, s), t) <==> id in EntryOf(table, t) || (t, id) == (topic, s.id)
    ensures id in EntryOf(Unsubscribed(table, topic, s.id), t) <==> id in EntryOf(table, t) && (t, id) != (topic, s.id)
    ensures (t, id) != (topic, s.id) && id in EntryOf(table, t) ==>
      EntryOf(Subscribed(table, topic, s), t)[id] == EntryOf(Unsubscribed(table, topic, s.id), t)[id] ==
          EntryOf(table, t)[id]
  {
    var rest := EntryOf(table, topic) - {s.id};
    if rest == map[] {
      assert forall i :: i in EntryOf(table, topic) ==> i in rest || i == s.id;
    }
  }

  /** The patterns under which a topic reaches a subscriber: one delivery for each. */
  ghost function DeliveringPatterns(table: Table, topic: Text, s: Subscriber, among: set<Text>): set<Text> {
    set p | p in among && p in table && Matches(p, topic) && Routes(table, p, s)
  }

  lemma OneMorePattern(table: Table, topic: Text, s: Subscriber, among: set<Text>, p: Text)
    requires p !in among && p in table
    ensures |DeliveringPatterns(table, topic, s, among + {p})|
         == |DeliveringPatterns(table, topic, s, among)| + if Matches(p, topic) && Routes(table, p, s) then 1 else 0
  {
    var before, after := DeliveringPatterns(table, topic, s, among), DeliveringPatterns(table, topic, s, among + {p});
    if Matches(p, topic) && Routes(table, p, s) {
      assert after == before + {p};
    } else {
      assert after == before;
    }
  }

  /** What has been collected counts every subscriber once per delivering pattern. */
  ghost predicate Counted(table: Table, topic: Text, collected: seq<Subscriber>, among: set<Text>) {
    forall s :: multiset(collected)[s] == |DeliveringPatterns(table, topic, s, among)|
  }

  lemma CountStep(table: Table, topic: Text, collected: seq<Subscriber>, more: seq<Subscriber>,
                  among: set<Text>, p: Text)
    requires Counted(table, topic, collected, among) && p !in among && p in table
    requires forall s :: multiset(more)[s] == if Matches(p, topic) && Routes(table, p, s) then 1 else 0
    ensures Counted(table, topic, collected + more, among + {p})
  {
    forall s
      ensures multiset(collected + more)[s] == |DeliveringPatterns(table, topic, s, among + {p})|
    {
      OneMorePattern(table, topic, s, among, p);
    }
  }

  // ---- rebuilding from a listing -------------------------------------------

  function Rebuilt(table: Table, listing: seq<Subscription>): Table
    decreases |listing|
  {
    if listing == [] then table
    else
      var last := listing[|listing| - 1];
      Subscribed(Rebuilt(table, listing[..|listing| - 1]), last.topic, last.subscriber)
  }

  ghost predicate Lists(listing: seq<Subscription>, table: Table) {
    forall t, s :: Subscription(t, s) in listing <==> Routes(table, t, s)
  }

  lemma {:induction false} RebuiltEntries(listing: seq<Subscription>, table: Table)
    requires WellFormed(table)
    requires forall t, s :: Subscription(t, s) in listing ==> Routes(table, t, s)
    ensures WellFormed(Rebuilt(map[], listing))
    ensures forall t, s :: Routes(Rebuilt(map[], listing), t, s) <==> Subscription(t, s) in listing
    decreases |listing|
  {
    if listing != [] {
      var front, last := listing[..|listing| - 1], listing[|listing| - 1];
      assert listing == front + [last];
      RebuiltEntries(front, table);
      var before := Rebuilt(map[], front);
      assert Subscription(last.topic, last.subscriber) in listing;
      forall t, s
        ensures Routes(Rebuilt(map[], listing), t, s) <==> Subscription(t, s) in listing
      {
        OneEntryChanges(before, last.topic, last.subscriber, t, s.id);
        if (t, s.id) == (last.topic, last.subscriber.id) && Routes(before, t, s) {
          assert Routes(table, t, s);
        }
      }
      OneEntryChanges(before, last.topic, last.subscriber, [], []);
    }
  }

  /** The i-th entry of a listing is the last of its pattern and subscriber ID. */
  predicate LastOfItsKind(listing: seq<Subscription>, i: nat)
    requires i < |listing|
  {
    forall j :: i < j < |listing| ==>
      (listing[j].topic, listing[j].subscriber.id) != (listing[i].topic, listing[i].subscriber.id)
  }

  ghost predicate ListedLast(listing: seq<Subscription>, t: Text, s: Subscriber) {
    exists i :: 0 <= i < |listing| && listing[i] == Subscription(t, s) && LastOfItsKind(listing, i)
  }

  /** Whatever the listing, repeats and conflicts included: of each pattern and ID the last
      subscriber listed is routed, and nobody else. */
  lemma {:induction false} RebuiltRoutesTheLast(listing: seq<Subscription>, t: Text, s: Subscriber)
    ensures Routes(Rebuilt(map[], listing), t, s) <==> ListedLast(listing, t, s)
    decreases |listing|
  {
    if listing != [] {
      var k := |listing| - 1;
      var front, last := listing[..k], listing[k];
      RebuiltRoutesTheLast(front, t, s);
      if (t, s.id) == (last.topic, last.subscriber.id) {
        if last == Subscription(t, s) {
          assert LastOfItsKind(listing, k);
        }
        assert ListedLast(listing, t, s) ==> last == Subscription(t, s);
      } else {
        FrontListsTheSame(listing, t, s);
      }
    }
  }

  lemma FrontListsTheSame(listing: seq<Subscription>, t: Text, s: Subscriber)
    requires listing != []
    requires var last := listing[|listing| - 1]; (t, s.id) != (last.topic, last.subscriber.id)
    ensures ListedLast(listing, t, s) <==> ListedLast(listing[..|listing| - 1], t, s)
  {
    var front := listing[..|listing| - 1];
    if ListedLast(listing, t, s) {
      var i :| 0 <= i < |listing| && listing[i] == Subscription(t, s) && LastOfItsKind(listing, i);
      assert front[i] == Subscription(t, s) && LastOfItsKind(front, i);
    }
    if ListedLast(front, t, s) {
      var i :| 0 <= i < |front| && front[i] == Subscription(t, s) && LastOfItsKind(front, i);
      assert listing[i] == Subscription(t, s) && LastOfItsKind(listing, i);
    }
  }

  lemma {:induction false} RebuiltWellFormed(listing: seq<Subscription>)
    ensures WellFormed(Rebuilt(map[], listing))
    decreases |listing|
  {
    if listing != [] {
      var last := listing[|listing| - 1];
      RebuiltWellFormed(listing[..|listing| - 1]);
      OneEntryChanges(Rebuilt(map[], listing[..|listing| - 1]), last.topic, last.subscriber, [], []);
    }
  }

  /** Rebuilding from any listing of a table, in any order, restores the table. */
  lemma RebuildRestores(listing: seq<Subscription>, table: Table)
    requires WellFormed(table) && Lists(listing, table)
    ensures Rebuilt(map[], listing) == table
  {
    RebuiltEntries(listing, table);
    var again := Rebuilt(map[], listing);
    forall t
      ensures EntryOf(again, t) == EntryOf(table, t)
    {
      forall id
        ensures id in EntryOf(again, t) <==> id in EntryOf(table, t)
        ensures id in EntryOf(table, t) ==> EntryOf(again, t)[id] == EntryOf(table, t)[id]
      {
        if id in EntryOf(again, t) {
          assert Routes(again, t, EntryOf(again, t)[id]);
        }
        if id in EntryOf(table, t) {
          assert Routes(table, t, EntryOf(table, t)[id]);
        }
      }
    }
    assert forall t :: t in again <==> EntryOf(again, t) != map[];
    assert forall t :: t in table <==> EntryOf(table, t) != map[];
  }

  // ---- the table -------------------------------------------------------------

  datatype TableError = NilSubscriber | EmptyTopic | ClosedTable

  /** The subscribers under a pattern, each once, in whatever order the map is walked. */
  method Values(table: Table, topic: Text) returns (values: seq<Subscriber>)
    requires WellFormed(table) && topic in table
    ensures forall s :: multiset(values)[s] == if Routes(table, topic, s) then 1 else 0
  {
    var entry := table[topic];
    values := [];
    var rest := entry.Keys;
    while rest != {}
      invariant rest <= entry.Keys
      invariant forall s :: multiset(values)[s] == if s.id in entry.Keys - rest && entry[s.id] == s then 1 else 0
      decreases rest
    {
      var id :| id in rest;
      rest := rest - {id};
      values := values + [entry[id]];
    }
  }

  method Insert(table: Table, topic: Text, s: Subscriber) returns (after: Table)
    ensures after == Subscribed(table, topic, s)
  {
    after := table;
    if topic !in after {
      after := after[topic := map[]];
    }
    after := after[topic := after[topic][s.id := s]];
  }

  method Remove(table: Table, topic: Text, id: Text) returns (after: Table)
    ensures after == Unsubscribed(table, topic, id)
  {
    after := table;
    if topic in after {
      var subscribers := after[topic] - {id};
      if |subscribers| == 0 {
        after := after - {topic};
      } else {
        after := after[topic := subscribers];
      }
    } else {
      assert table - {topic} == table;
    }
  }

  function Paired(topic: Text, values: seq<Subscriber>): (pairs: seq<Subscription>)
    ensures forall t, s :: Subscription(t, s) in pairs <==> t == topic && s in values
  {
    if values == [] then [] else [Subscription(topic, values[0])] + Paired(topic, values[1..])
  }

  class InMemoryRoutingTable {
    var subscriptions: Table
    var closed: bool

    ghost predicate Valid()
      reads this
    {
      WellFormed(subscriptions)
    }

    constructor ()
      ensures Valid() && subscriptions == map[] && !closed
    {
      subscriptions, closed := map[], false;
    }

    method Subscribe(topic: Text, subscriber: Option<Subscriber>) returns (error: Option<TableError>)
      requires Valid()
      modifies this
      ensures Valid() && closed == old(closed)
      ensures error == if subscriber.None? then Some(NilSubscriber) else if topic == [] then Some(EmptyTopic)
                       else if closed then Some(ClosedTable) else None
      ensures subscriptions ==
        if error == None then Subscribed(old(subscriptions), topic, subscriber.value) else old(subscriptions)
    {
      if subscriber.None? {
        return Some(NilSubscriber);
      }
      if topic == [] {
        return Some(EmptyTopic);
      }
      if closed {
        return Some(ClosedTable);
      }
      OneEntryChanges(subscriptions, topic, subscriber.value, [], []);
      subscriptions := Insert(subscriptions, topic, subscriber.value);
      return None;
    }

    method Unsubscribe(topic: Text, id: Text) returns (error: Option<TableError>)
      requires Valid()
      modifies this
      ensures Valid() && closed == old(closed)
      ensures error == if closed then Some(ClosedTable) else None
      ensures subscriptions == if error == None then Unsubscribed(old(subscriptions), topic, id) else old(subscriptions)
    {
      if closed {
        return Some(ClosedTable);
      }
      OneEntryChanges(subscriptions, topic, Subscriber(id, true, 0), [], []);
      subscriptions := Remove(subscriptions, topic, id);
      return None;
    }

    /** Each subscriber as often as patterns deliver the topic to it: the exact-match
        pass neither loses an entry nor doubles one. */
    method GetSubscribers(topic: Text) returns (r: Result<seq<Subscriber>, TableError>)
      requires Valid()
      ensures r.Failure? <==> closed
      ensures r.Success? ==> forall s ::
        multiset(r.value)[s] == |DeliveringPatterns(subscriptions, topic, s, subscriptions.Keys)|
    {
      if closed {
        return Failure(ClosedTable);
      }
      hide WellFormed, Routes;
      var result: seq<Subscriber> := [];
      ghost var done: set<Text> := {};
      assert forall s :: DeliveringPatterns(subscriptions, topic, s, done) == {};
      if topic in subscriptions {
        result := Values(subscriptions, topic);
        CountStep(subscriptions, topic, [], result, done, topic);
        assert [] + result == result && done + {topic} == {topic};
        done := {topic};
      }
      var rest := subscriptions.Keys;
      while rest != {}
        invariant rest <= subscriptions.Keys
        invariant forall p :: p in done <==> p in subscriptions && (p !in rest || p == topic)
        invariant Counted(subscriptions, topic, result, done)
        decreases rest
      {
        var pattern :| pattern in rest;
        rest := rest - {pattern};
        if pattern != topic {
          var more: seq<Subscriber> := [];
          var matches := MatchesPattern(pattern, topic);
          if matches {
            more := Values(subscriptions, pattern);
          }
          CountStep(subscriptions, topic, result, more, done, pattern);
          result, done := result + more, done + {pattern};
        }
      }
      assert done == subscriptions.Keys;
      return Success(result);
    }

    method GetAllSubscriptions() returns (r: Result<seq<Subscription>, TableError>)
      requires Valid()
      ensures r.Failure? <==> closed
      ensures r.Success? ==> Lists(r.value, subscriptions)
    {
      if closed {
        return Failure(ClosedTable);
      }
      var listing: seq<Subscription> := [];
      var rest := subscriptions.Keys;
      while rest != {}
        invariant rest <= subscriptions.Keys
        invariant forall t, s :: Subscription(t, s) in listing <==> t !in rest && Routes(subscriptions, t, s)
        decreases rest
      {
        var topic :| topic in rest;
        var values := Values(subscriptions, topic);
        assert forall s :: s in values <==> multiset(values)[s] > 0;
        var pairs := Paired(topic, values);
        listing := listing + pairs;
        rest := rest - {topic};
      }
      return Success(listing);
    }

    method RebuildFromGossip(listing: seq<Subscription>) returns (error: Option<TableError>)
      requires Valid()
      modifies this
      ensures Valid() && closed == old(closed)
      ensures error == if closed then Some(ClosedTable) else None
      ensures subscriptions == if error == None then Rebuilt(map[], listing) else old(subscriptions)
      ensures error == None && Lists(listing, old(subscriptions)) ==> subscriptions == old(subscriptions)
    {
      if closed {
        return Some(ClosedTable);
      }
      if Lists(listing, subscriptions) {
        RebuildRestores(listing, subscriptions);
      }
      subscriptions := map[];
      for i := 0 to |listing|
        invariant closed == old(closed) && subscriptions == Rebuilt(map[], listing[..i])
      {
        assert listing[..i + 1][..i] == listing[..i];
        subscriptions := Insert(subscriptions, listing[i].topic, listing[i].subscriber);
      }
      assert listing[..|listing|] == listing;
      RebuiltWellFormed(listing);
      return None;
    }

    method Close()
      modifies this
      ensures closed && subscriptions == map[]
    {
      closed, subscriptions := true, map[];
    }
  }
}
