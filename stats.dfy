/** The read-only views of the broker: the topic list, the per-topic
    statistics and the health summary, as functions of the broker state. */
module Stats {
  import opened History
  import opened Broker

  /** One entry of `get_full_stats`. */
  datatype TopicStats = TopicStats(messages: nat, subscribers: nat)

  /** `get_health_stats`; the uptime is filled in by the web endpoint and
      is 0 here. */
  datatype HealthResponse = HealthResponse(uptimeSec: int, topics: nat, subscribers: nat)

  /** `get_full_stats`: for every topic, its publish counter and its
      number of subscribers. */
  function FullStats<C>(s: BrokerState<C>): map<string, TopicStats>
  {
    map n | n in s.topics :: TopicStats(s.topics[n].count, |s.topics[n].subscribers|)
  }

  function SubscriberCounts<C>(s: BrokerState<C>): map<string, nat>
  {
    map n | n in s.topics :: |s.topics[n].subscribers|
  }

  /** The sum of `m` over `keys`. */
  ghost function SumOver(m: map<string, nat>, keys: set<string>): nat
    requires keys <= m.Keys
    decreases keys
  {
    if keys == {} then 0
    else
      var k :| k in keys;
      m[k] + SumOver(m, keys - {k})
  }

  /** The total number of subscriptions over all topics. */
  ghost function TotalSubscribers<C>(s: BrokerState<C>): nat
  {
    SumOver(SubscriberCounts(s), s.topics.Keys)
  }

  ghost function Health<C>(s: BrokerState<C>): HealthResponse
  {
    HealthResponse(0, |s.topics|, TotalSubscribers(s))
  }

  /** The sum does not depend on the order in which keys are taken: any
      key can be taken first. */
  lemma {:induction false} SumOverRemove(m: map<string, nat>, keys: set<string>, k: string)
    requires keys <= m.Keys
    requires k in keys
    ensures SumOver(m, keys) == m[k] + SumOver(m, keys - {k})
    decreases keys
  {
    var j :| j in keys && SumOver(m, keys) == m[j] + SumOver(m, keys - {j});
    if j != k {
      SumOverRemove(m, keys - {j}, k);
      SumOverRemove(m, keys - {k}, j);
      assert keys - {j} - {k} == keys - {k} - {j};
    }
  }

  /** Maps that agree on `keys` have the same sum over `keys`. */
  lemma {:induction false} SumOverAgree(m: map<string, nat>, m': map<string, nat>, keys: set<string>)
    requires keys <= m.Keys && keys <= m'.Keys
    requires forall k :: k in keys ==> m[k] == m'[k]
    ensures SumOver(m, keys) == SumOver(m', keys)
    decreases keys
  {
    if keys != {} {
      var k :| k in keys;
      SumOverRemove(m, keys, k);
      SumOverRemove(m', keys, k);
      SumOverAgree(m, m', keys - {k});
    }
  }

  /** Changing the value at one key changes the sum by the difference. */
  lemma SumOverChangeOne(m: map<string, nat>, m': map<string, nat>, keys: set<string>, k: string)
    requires keys <= m.Keys && keys <= m'.Keys
    requires k in keys
    requires forall j :: j in keys && j != k ==> m[j] == m'[j]
    ensures SumOver(m', keys) == SumOver(m, keys) - m[k] + m'[k]
  {
    SumOverRemove(m, keys, k);
    SumOverRemove(m', keys, k);
    SumOverAgree(m, m', keys - {k});
  }

  /** Taking one more key adds its value: the loop that sums topic by
      topic computes `SumOver`. */
  lemma SumOverAddOne(m: map<string, nat>, keys: set<string>, k: string)
    requires keys <= m.Keys && k in m && k !in keys
    ensures SumOver(m, keys + {k}) == SumOver(m, keys) + m[k]
  {
    SumOverRemove(m, keys + {k}, k);
    assert keys + {k} - {k} == keys;
  }

  /** A client that subscribes to a topic it was not yet subscribed to
      adds one to the health report's subscriber total; subscribing again
      adds nothing. */
  lemma SubscribeCountsOnce<C>(s: BrokerState<C>, name: string, cid: string, conn: C)
    requires name in s.topics
    ensures var s' := After(s, Subscribe(s, name, cid, conn));
      TotalSubscribers(s') == TotalSubscribers(s) + (if cid in s.topics[name].subscribers then 0 else 1)
  {
    var t := s.topics[name];
    var t' := t.(subscribers := t.subscribers[cid := conn]);
    var s' := BrokerState(s.topics[name := t'], s.clients[cid := ClientTopics(s.clients, cid) + {name}]);
    assert After(s, Subscribe(s, name, cid, conn)) == s';
    if cid in t.subscribers {
      assert t'.subscribers.Keys == t.subscribers.Keys;
    } else {
      assert t'.subscribers.Keys == t.subscribers.Keys + {cid};
    }
    assert |t'.subscribers| == |t.subscribers| + (if cid in t.subscribers then 0 else 1);
    SumOverChangeOne(SubscriberCounts(s), SubscriberCounts(s'), s.topics.Keys, name);
  }

  /** Unsubscribing a subscribed client removes one from the total;
      otherwise the total is unchanged. */
  lemma UnsubscribeCountsOnce<C>(s: BrokerState<C>, name: string, cid: string)
    requires name in s.topics
    ensures var s' := After(s, Unsubscribe(s, name, cid));
      TotalSubscribers(s') == TotalSubscribers(s) - (if cid in s.topics[name].subscribers then 1 else 0)
  {
    var s' := After(s, Unsubscribe(s, name, cid));
    var subs := s.topics[name].subscribers;
    var subs' := s'.topics[name].subscribers;
    if cid in subs {
      assert subs.Keys == subs'.Keys + {cid};
    } else {
      assert subs'.Keys == subs.Keys;
    }
    SumOverChangeOne(SubscriberCounts(s), SubscriberCounts(s'), s.topics.Keys, name);
  }

  /** Publishing adds one to the topic's reported message count and
      touches no other topic's statistics. */
  lemma PublishStats<C>(s: BrokerState<C>, name: string, m: Message, live: set<C>)
    requires name in s.topics
    ensures var st := FullStats(After(s, Publish(s, name, m, live)));
      && st.Keys == FullStats(s).Keys
      && st[name].messages == FullStats(s)[name].messages + 1
      && st[name].subscribers <= FullStats(s)[name].subscribers
      && (forall n :: n in st && n != name ==> st[n] == FullStats(s)[n])
  {
    var subs := s.topics[name].subscribers;
    var subs' := After(s, Publish(s, name, m, live)).topics[name].subscribers;
    assert subs.Keys == subs'.Keys + (subs.Keys - subs'.Keys);
    assert |subs'| == |subs'.Keys| && |subs| == |subs.Keys|;
  }

  /** Under the invariant, each topic's reported message count is at
      least the number of messages a late subscriber can replay. */
  lemma StatsCoverHistory<C>(s: BrokerState<C>, name: string, lastN: int)
    requires Inv(s)
    requires name in s.topics
    ensures |ReplayFor(s, name, lastN)| <= FullStats(s)[name].messages
  {
  }
}
