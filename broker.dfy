/** The broker's state as a value: the topic table and the client index of
    `PubSubManager`, one function per operation giving the state it leaves
    (or the error it raises), the invariant every operation keeps, and the
    properties the operations promise.  Connections are opaque identities
    of type `C`; what the broker sends to them is stated by the manager's
    methods. */
module Broker {
  import opened History

  /** The errors raised by the manager: 409 and 404 `HTTPException`s from
      the topic lifecycle, `ValueError("TOPIC_NOT_FOUND")` from the
      streaming operations. */
  datatype Error = AlreadyExists | NotFound | TopicNotFound

  datatype Result<T> = Ok(value: T) | Err(error: Error)

  /** What a caller of a manager operation observes: it returned, or it
      raised. */
  datatype Outcome = Success | Failure(error: Error)

  function OutcomeOf<T>(r: Result<T>): Outcome
  {
    if r.Ok? then Success else Failure(r.error)
  }

  /** What a connection is sent: an `event` carrying a published message,
      or an `info` notice such as `topic_deleted`. */
  datatype ServerEvent = Event(topic: string, message: Message) | Info(topic: string, msg: string)

  const TopicDeleted: string := "topic_deleted"

  /** `Topic`: subscriber table keyed by client id, bounded history, and
      the number of messages ever published. */
  datatype TopicState<C> = TopicState(subscribers: map<string, C>, history: seq<Message>, count: nat)

  /** `PubSubManager`: topic name to topic, and client id to the names of
      the topics it subscribed to. */
  datatype BrokerState<C> = BrokerState(topics: map<string, TopicState<C>>, clients: map<string, set<string>>)

  function EmptyTopic<C>(): TopicState<C>
  {
    TopicState(map[], [], 0)
  }

  function Initial<C>(): BrokerState<C>
  {
    BrokerState(map[], map[])
  }

  /** The state an operation leaves: the new one on success, the old one
      unchanged when it raised. */
  function After<C>(s: BrokerState<C>, r: Result<BrokerState<C>>): BrokerState<C>
  {
    if r.Ok? then r.value else s
  }

  // ----- invariant -----

  ghost predicate TopicInv<C>(t: TopicState<C>)
  {
    |t.history| <= Capacity && |t.history| <= t.count
  }

  ghost predicate HistoriesBounded<C>(s: BrokerState<C>)
  {
    forall n :: n in s.topics ==> TopicInv(s.topics[n])
  }

  /** Every subscriber of a topic is indexed under that topic's name. */
  ghost predicate IndexCoversSubscribers<C>(s: BrokerState<C>)
  {
    forall n, cid :: n in s.topics && cid in s.topics[n].subscribers ==> cid in s.clients && n in s.clients[cid]
  }

  /** The client index never keeps an empty entry. */
  ghost predicate NoEmptyEntries<C>(s: BrokerState<C>)
  {
    forall cid :: cid in s.clients ==> s.clients[cid] != {}
  }

  ghost predicate Inv<C>(s: BrokerState<C>)
  {
    HistoriesBounded(s) && IndexCoversSubscribers(s) && NoEmptyEntries(s)
  }

  lemma InitialInv<C>()
    ensures Inv(Initial<C>())
  {
  }

  // ----- helpers shared by several operations -----

  /** The client index after `name` is discarded from the entry of every
      client in `ids`; entries left empty are deleted. */
  function DiscardTopic(clients: map<string, set<string>>, ids: set<string>, name: string): map<string, set<string>>
  {
    map cid | cid in clients && (cid !in ids || clients[cid] - {name} != {}) ::
      if cid in ids then clients[cid] - {name} else clients[cid]
  }

  /** A loop that discards `name` for one client id of `pending` at a
      time, out of `keys`, computes `DiscardTopic` for the ids it has
      taken. */
  lemma DiscardTopicStep(clients: map<string, set<string>>, keys: set<string>, pending: set<string>, k: string, name: string)
    requires pending <= keys && k in pending
    ensures DiscardTopic(DiscardTopic(clients, keys - pending, name), {k}, name)
            == DiscardTopic(clients, keys - (pending - {k}), name)
  {
    assert keys - (pending - {k}) == (keys - pending) + {k};
  }

  function ClientTopics(clients: map<string, set<string>>, cid: string): set<string>
  {
    if cid in clients then clients[cid] else {}
  }

  /** The subscribers whose connection is still live: what `broadcast`
      keeps. */
  function Prune<C(==)>(subs: map<string, C>, live: set<C>): map<string, C>
  {
    map cid | cid in subs && subs[cid] in live :: subs[cid]
  }

  /** The client ids among `ids` whose connection in `subs` is `c`: how
      many copies of one broadcast `c` receives. */
  function ClientsOn<C(==)>(subs: map<string, C>, ids: set<string>, c: C): set<string>
  {
    set cid | cid in ids && cid in subs && subs[cid] == c
  }

  /** Adding the client id `k` to `ids` adds `k` to the clients on its
      own connection and to no other connection's. */
  lemma ClientsOnAdd<C>(subs: map<string, C>, ids: set<string>, k: string, c: C)
    ensures ClientsOn(subs, ids + {k}, c)
            == if k in subs && subs[k] == c && k !in ids then ClientsOn(subs, ids, c) + {k} else ClientsOn(subs, ids, c)
  {
  }

  /** Taking one more client id `k` out of `pending` adds `k` to the
      clients on its own connection and to no other connection's. */
  lemma ClientsOnStep<C>(subs: map<string, C>, keys: set<string>, pending: set<string>, k: string, c: C)
    requires pending <= keys && k in pending
    ensures ClientsOn(subs, keys - (pending - {k}), c)
            == if k in subs && subs[k] == c then ClientsOn(subs, keys - pending, c) + {k} else ClientsOn(subs, keys - pending, c)
    ensures |ClientsOn(subs, keys - (pending - {k}), c)|
            == |ClientsOn(subs, keys - pending, c)| + (if k in subs && subs[k] == c then 1 else 0)
  {
    var ids := keys - pending;
    assert keys - (pending - {k}) == ids + {k};
    ClientsOnAdd(subs, ids, k, c);
  }

  /** Every connection stored in a table is the connection of some client
      id in it. */
  lemma ClientsOnValues<C>(subs: map<string, C>, c: C)
    requires c in subs.Values
    ensures ClientsOn(subs, subs.Keys, c) != {}
  {
    var k :| k in subs && subs[k] == c;
    assert k in ClientsOn(subs, subs.Keys, c);
  }

  /** `k` copies of `e`. */
  function Repeat(e: ServerEvent, k: nat): seq<ServerEvent>
  {
    if k == 0 then [] else Repeat(e, k - 1) + [e]
  }

  /** Sending `e` once more after `k` copies gives `k + 1` copies. */
  lemma RepeatStep(sent: seq<ServerEvent>, e: ServerEvent, k: nat)
    ensures sent + Repeat(e, k) + [e] == sent + Repeat(e, k + 1)
  {
    assert Repeat(e, k + 1) == Repeat(e, k) + [e];
  }

  /** The events a replay of `ms` on `topic` sends, in order. */
  function Events(topic: string, ms: seq<Message>): seq<ServerEvent>
  {
    if ms == [] then [] else Events(topic, ms[..|ms| - 1]) + [Event(topic, ms[|ms| - 1])]
  }

  lemma {:induction false} EventsShape(topic: string, ms: seq<Message>)
    ensures |Events(topic, ms)| == |ms|
    ensures forall i :: 0 <= i < |ms| ==> Events(topic, ms)[i] == Event(topic, ms[i])
  {
    if ms != [] {
      EventsShape(topic, ms[..|ms| - 1]);
    }
  }

  // ----- operations -----

  /** `create_topic`. */
  function CreateTopic<C>(s: BrokerState<C>, name: string): (r: Result<BrokerState<C>>)
    ensures name in s.topics ==> r == Err(AlreadyExists)
    ensures name !in s.topics ==>
      && r.Ok?
      && r.value.topics.Keys == s.topics.Keys + {name}
      && r.value.topics[name] == EmptyTopic()
      && (forall n :: n in s.topics ==> r.value.topics[n] == s.topics[n])
      && r.value.clients == s.clients
  {
    if name in s.topics then Err(AlreadyExists)
    else Ok(s.(topics := s.topics[name := EmptyTopic()]))
  }

  /** `delete_topic`: the topic goes, and its name is discarded from the
      index entry of each of its subscribers. */
  function DeleteTopic<C>(s: BrokerState<C>, name: string): (r: Result<BrokerState<C>>)
    ensures name !in s.topics ==> r == Err(NotFound)
    ensures name in s.topics ==>
      && r.Ok?
      && r.value.topics == s.topics - {name}
      && (forall cid :: cid in s.topics[name].subscribers && cid in s.clients ==>
            (cid in r.value.clients <==> s.clients[cid] - {name} != {}) &&
            (cid in r.value.clients ==> r.value.clients[cid] == s.clients[cid] - {name}))
      && (forall cid :: cid in s.topics[name].subscribers && cid !in s.clients ==>
            cid !in r.value.clients)
      && (forall cid :: cid !in s.topics[name].subscribers ==>
            (cid in r.value.clients <==> cid in s.clients) &&
            (cid in s.clients ==> r.value.clients[cid] == s.clients[cid]))
  {
    if name !in s.topics then Err(NotFound)
    else Ok(BrokerState(s.topics - {name}, DiscardTopic(s.clients, s.topics[name].subscribers.Keys, name)))
  }

  /** `subscribe`: the client's connection is stored under its id
      (replacing an earlier one), and the topic is added to the client's
      index entry.  The replay is `ReplayFor`. */
  function Subscribe<C>(s: BrokerState<C>, name: string, cid: string, conn: C): (r: Result<BrokerState<C>>)
    ensures name !in s.topics ==> r == Err(TopicNotFound)
    ensures name in s.topics ==>
      && r.Ok?
      && r.value.topics.Keys == s.topics.Keys
      && cid in r.value.topics[name].subscribers
      && r.value.topics[name].subscribers[cid] == conn
      && r.value.topics[name].subscribers - {cid} == s.topics[name].subscribers - {cid}
      && r.value.topics[name].history == s.topics[name].history
      && r.value.topics[name].count == s.topics[name].count
      && (forall n :: n in s.topics && n != name ==> r.value.topics[n] == s.topics[n])
      && r.value.clients.Keys == s.clients.Keys + {cid}
      && r.value.clients[cid] == ClientTopics(s.clients, cid) + {name}
      && r.value.clients - {cid} == s.clients - {cid}
  {
    if name !in s.topics then Err(TopicNotFound)
    else
      var t := s.topics[name];
      Ok(BrokerState(s.topics[name := t.(subscribers := t.subscribers[cid := conn])],
                     s.clients[cid := ClientTopics(s.clients, cid) + {name}]))
  }

  /** The messages `subscribe` replays to the new subscriber; nothing when
      the topic does not exist. */
  function ReplayFor<C>(s: BrokerState<C>, name: string, lastN: int): seq<Message>
  {
    if name in s.topics then Replay(s.topics[name].history, lastN) else []
  }

  /** `unsubscribe`: the client leaves the topic's table and the topic
      leaves the client's index entry (deleted once empty).  A client that
      was not subscribed is not an error. */
  function Unsubscribe<C>(s: BrokerState<C>, name: string, cid: string): (r: Result<BrokerState<C>>)
    ensures name !in s.topics ==> r == Err(TopicNotFound)
    ensures name in s.topics ==>
      && r.Ok?
      && r.value.topics.Keys == s.topics.Keys
      && r.value.topics[name].subscribers == s.topics[name].subscribers - {cid}
      && r.value.topics[name].history == s.topics[name].history
      && r.value.topics[name].count == s.topics[name].count
      && (forall n :: n in s.topics && n != name ==> r.value.topics[n] == s.topics[n])
      && (cid in r.value.clients ==> name !in r.value.clients[cid])
      && (cid in s.clients ==>
            (cid in r.value.clients <==> s.clients[cid] - {name} != {}) &&
            (cid in r.value.clients ==> r.value.clients[cid] == s.clients[cid] - {name}))
      && (cid !in s.clients ==> cid !in r.value.clients)
      && r.value.clients - {cid} == s.clients - {cid}
  {
    if name !in s.topics then Err(TopicNotFound)
    else
      var t := s.topics[name];
      Ok(BrokerState(s.topics[name := t.(subscribers := t.subscribers - {cid})],
                     DiscardTopic(s.clients, {cid}, name)))
  }

  /** `publish`: the message is appended to the bounded history, the
      counter goes up by one, and the broadcast drops every subscriber
      whose connection is not in `live` (the connections found connected).
      The client index is not touched. */
  function Publish<C(==)>(s: BrokerState<C>, name: string, m: Message, live: set<C>): (r: Result<BrokerState<C>>)
    ensures name !in s.topics ==> r == Err(TopicNotFound)
    ensures name in s.topics ==>
      && r.Ok?
      && r.value.topics.Keys == s.topics.Keys
      && r.value.topics[name].count == s.topics[name].count + 1
      && r.value.topics[name].history == Append(s.topics[name].history, m)
      && (forall cid :: cid in r.value.topics[name].subscribers <==>
            cid in s.topics[name].subscribers && s.topics[name].subscribers[cid] in live)
      && (forall cid :: cid in r.value.topics[name].subscribers ==>
            r.value.topics[name].subscribers[cid] == s.topics[name].subscribers[cid])
      && (forall n :: n in s.topics && n != name ==> r.value.topics[n] == s.topics[n])
      && r.value.clients == s.clients
  {
    if name !in s.topics then Err(TopicNotFound)
    else
      var t := s.topics[name];
      Ok(s.(topics := s.topics[name := TopicState(Prune(t.subscribers, live), Append(t.history, m), t.count + 1)]))
  }

  /** `disconnect_client`: the client leaves every topic listed in its
      index entry, and the entry is deleted.  An unknown client is left
      alone. */
  function Disconnect<C>(s: BrokerState<C>, cid: string): (r: BrokerState<C>)
    ensures cid !in r.clients
    ensures r.clients == s.clients - {cid}
    ensures r.topics.Keys == s.topics.Keys
    ensures forall n :: n in s.topics ==>
      && r.topics[n].history == s.topics[n].history
      && r.topics[n].count == s.topics[n].count
      && r.topics[n].subscribers - {cid} == s.topics[n].subscribers - {cid}
    ensures forall n :: n in s.topics && cid in s.clients && n in s.clients[cid] ==>
      cid !in r.topics[n].subscribers
    ensures forall n :: n in s.topics && !(cid in s.clients && n in s.clients[cid]) ==>
      r.topics[n] == s.topics[n]
    ensures cid !in s.clients ==> r == s
  {
    if cid !in s.clients then s
    else
      BrokerState(map n | n in s.topics ::
                    if n in s.clients[cid] then s.topics[n].(subscribers := s.topics[n].subscribers - {cid})
                    else s.topics[n],
                  s.clients - {cid})
  }

  // ----- the invariant is kept by every operation -----

  lemma CreateTopicKeepsInv<C>(s: BrokerState<C>, name: string)
    requires Inv(s)
    ensures Inv(After(s, CreateTopic(s, name)))
  {
  }

  lemma DeleteTopicKeepsInv<C>(s: BrokerState<C>, name: string)
    requires Inv(s)
    ensures Inv(After(s, DeleteTopic(s, name)))
  {
    if name in s.topics {
      var s' := After(s, DeleteTopic(s, name));
      forall n, cid | n in s'.topics && cid in s'.topics[n].subscribers
        ensures cid in s'.clients && n in s'.clients[cid]
      {
        assert n != name && n in s.clients[cid];
        assert n in s.clients[cid] - {name};
      }
    }
  }

  lemma SubscribeKeepsInv<C>(s: BrokerState<C>, name: string, cid: string, conn: C)
    requires Inv(s)
    ensures Inv(After(s, Subscribe(s, name, cid, conn)))
  {
    if name in s.topics {
      var s' := After(s, Subscribe(s, name, cid, conn));
      forall n, c | n in s'.topics && c in s'.topics[n].subscribers
        ensures c in s'.clients && n in s'.clients[c]
      {
        if c != cid {
          assert c in s.topics[n].subscribers;
          assert s'.clients[c] == s.clients[c];
        }
      }
    }
  }

  lemma UnsubscribeKeepsInv<C>(s: BrokerState<C>, name: string, cid: string)
    requires Inv(s)
    ensures Inv(After(s, Unsubscribe(s, name, cid)))
  {
    if name in s.topics {
      var s' := After(s, Unsubscribe(s, name, cid));
      forall n, c | n in s'.topics && c in s'.topics[n].subscribers
        ensures c in s'.clients && n in s'.clients[c]
      {
        assert c in s.topics[n].subscribers;
        if c == cid {
          assert n != name;
          assert n in s.clients[cid] - {name};
        }
      }
    }
  }

  /** Replacing one topic by one with a bounded history and no new
      subscriber keeps the invariant. */
  lemma ReplaceTopicKeepsInv<C>(s: BrokerState<C>, name: string, t: TopicState<C>)
    requires Inv(s) && name in s.topics
    requires TopicInv(t)
    requires t.subscribers.Keys <= s.topics[name].subscribers.Keys
    ensures Inv(s.(topics := s.topics[name := t]))
  {
    var s' := s.(topics := s.topics[name := t]);
    forall n, c | n in s'.topics && c in s'.topics[n].subscribers
      ensures c in s'.clients && n in s'.clients[c]
    {
      assert c in s.topics[n].subscribers;
    }
  }

  /** On an existing topic, `publish` replaces that topic by its pruned,
      appended and counted successor. */
  lemma PublishReplacesTopic<C>(s: BrokerState<C>, name: string, m: Message, live: set<C>)
    requires name in s.topics
    ensures var t := s.topics[name];
      Publish(s, name, m, live) == Ok(s.(topics := s.topics[name := TopicState(Prune(t.subscribers, live), Append(t.history, m), t.count + 1)]))
  {
  }

  lemma PublishKeepsInv<C>(s: BrokerState<C>, name: string, m: Message, live: set<C>)
    requires Inv(s)
    ensures Inv(After(s, Publish(s, name, m, live)))
  {
    if name in s.topics {
      var t := s.topics[name];
      var t' := TopicState(Prune(t.subscribers, live), Append(t.history, m), t.count + 1);
      PublishReplacesTopic(s, name, m, live);
      ReplaceTopicKeepsInv(s, name, t');
    }
  }

  lemma DisconnectKeepsInv<C>(s: BrokerState<C>, cid: string)
    requires Inv(s)
    ensures Inv(Disconnect(s, cid))
  {
    if cid in s.clients {
      var s' := Disconnect(s, cid);
      forall n, c | n in s'.topics && c in s'.topics[n].subscribers
        ensures c in s'.clients && n in s'.clients[c]
      {
        assert c in s.topics[n].subscribers;
      }
    }
  }

  // ----- further properties of the operations -----

  /** After `delete_topic`, no remaining index entry of a former
      subscriber mentions the deleted name, and publishing to it fails. */
  lemma DeleteTopicForgetsName<C>(s: BrokerState<C>, name: string, m: Message, live: set<C>)
    requires name in s.topics
    ensures var s' := After(s, DeleteTopic(s, name));
      && (forall cid :: cid in s.topics[name].subscribers && cid in s'.clients ==> name !in s'.clients[cid])
      && Publish(s', name, m, live) == Err(TopicNotFound)
  {
  }

  /** Subscribing twice in a row with the same connection is the same as
      subscribing once. */
  lemma SubscribeIdempotent<C>(s: BrokerState<C>, name: string, cid: string, conn: C)
    requires name in s.topics
    ensures var s1 := After(s, Subscribe(s, name, cid, conn));
      Subscribe(s1, name, cid, conn) == Ok(s1)
  {
    var s1 := After(s, Subscribe(s, name, cid, conn));
    var t1 := s1.topics[name];
    assert t1.subscribers[cid := conn] == t1.subscribers;
    assert t1.(subscribers := t1.subscribers) == t1;
    assert s1.topics[name := t1] == s1.topics;
    assert ClientTopics(s1.clients, cid) + {name} == s1.clients[cid];
    assert s1.clients[cid := s1.clients[cid]] == s1.clients;
  }

  /** Under the invariant, unsubscribing a client that is not subscribed
      to the topic succeeds and changes nothing. */
  lemma UnsubscribeNotSubscribedIsNoOp<C>(s: BrokerState<C>, name: string, cid: string)
    requires Inv(s)
    requires name in s.topics
    requires cid !in s.clients || name !in s.clients[cid]
    ensures Unsubscribe(s, name, cid) == Ok(s)
  {
    var t := s.topics[name];
    assert cid !in t.subscribers;
    assert t.subscribers - {cid} == t.subscribers;
    assert t.(subscribers := t.subscribers - {cid}) == t;
    assert s.topics[name := t] == s.topics;
    if cid in s.clients {
      assert s.clients[cid] - {name} == s.clients[cid];
    }
    assert DiscardTopic(s.clients, {cid}, name) == s.clients;
  }

  /** What `subscribe` sends to the new subscriber: one event per replayed
      message, exactly the newest `min(lastN, |history|)` entries of the
      topic's history, oldest first, and nothing when `lastN <= 0`. */
  lemma SubscribeReplaysNewest<C>(s: BrokerState<C>, name: string, lastN: int)
    requires name in s.topics
    ensures var h := s.topics[name].history;
      var sent := Events(name, ReplayFor(s, name, lastN));
      && |sent| == (if lastN <= 0 then 0 else Min(lastN, |h|))
      && (forall i :: 0 <= i < |sent| ==> sent[i] == Event(name, h[|h| - |sent| + i]))
  {
    var h := s.topics[name].history;
    var r := Replay(h, lastN);
    assert ReplayFor(s, name, lastN) == r;
    EventsShape(name, r);
    var sent := Events(name, r);
    forall i | 0 <= i < |sent|
      ensures sent[i] == Event(name, h[|h| - |sent| + i])
    {
      assert sent[i] == Event(name, r[i]);
    }
  }

  /** A client that unsubscribed is not among the subscribers a later
      publish delivers to. */
  lemma UnsubscribedMissesLaterPublish<C>(s: BrokerState<C>, name: string, cid: string, m: Message, live: set<C>)
    requires name in s.topics
    ensures var s1 := After(s, Unsubscribe(s, name, cid));
      var s2 := After(s1, Publish(s1, name, m, live));
      cid !in s2.topics[name].subscribers
  {
  }

  /** Under the invariant, `disconnect_client` removes the client from
      every topic, and a second call changes nothing. */
  lemma DisconnectRemovesEverywhere<C>(s: BrokerState<C>, cid: string)
    requires Inv(s)
    ensures forall n :: n in Disconnect(s, cid).topics ==> cid !in Disconnect(s, cid).topics[n].subscribers
    ensures Disconnect(Disconnect(s, cid), cid) == Disconnect(s, cid)
  {
    var s' := Disconnect(s, cid);
    forall n | n in s'.topics
      ensures cid !in s'.topics[n].subscribers
    {
      if cid in s.topics[n].subscribers {
        assert cid in s.clients && n in s.clients[cid];
      }
    }
  }

  /** `broadcast` drops a subscriber whose connection is gone from the
      topic's table but not from the client index: the entry still names
      the topic.  This is why the index invariant holds in one direction
      only. */
  lemma PrunedClientStaysIndexed<C>(s: BrokerState<C>, name: string, m: Message, live: set<C>, cid: string)
    requires IndexCoversSubscribers(s)
    requires name in s.topics && cid in s.topics[name].subscribers
    requires s.topics[name].subscribers[cid] !in live
    ensures var s' := After(s, Publish(s, name, m, live));
      && cid !in s'.topics[name].subscribers
      && cid in s'.clients && name in s'.clients[cid]
  {
    var t := s.topics[name];
    var t' := TopicState(Prune(t.subscribers, live), Append(t.history, m), t.count + 1);
    PublishReplacesTopic(s, name, m, live);
    assert cid !in t'.subscribers;
    assert cid in s.clients && name in s.clients[cid];
  }

  /** Every message published is counted, whatever the history evicts:
      publishing keeps the counter at or above the history length. */
  lemma PublishCountsEveryMessage<C>(s: BrokerState<C>, name: string, m: Message, live: set<C>)
    requires Inv(s)
    requires name in s.topics
    ensures var t' := After(s, Publish(s, name, m, live)).topics[name];
      && t'.count == s.topics[name].count + 1
      && |t'.history| <= Capacity
      && |t'.history| <= t'.count
      && t'.history[|t'.history| - 1] == m
      && (|s.topics[name].history| == Capacity ==> t'.history == s.topics[name].history[1..] + [m])
  {
  }
}
