/** The broker as the source runs it: `Topic` and `PubSubManager` objects
    whose tables change in place, and the connections they write to.  Each
    manager method leaves `Model()` equal to what the matching function of
    module `Broker` gives for the state it started from, and keeps `Valid()`,
    which includes `Broker.Inv`. */
module Manager {
  import opened History
  import Broker
  import Stats

  /** A client's WebSocket, reduced to whether it is still connected and
      the events sent to it so far. */
  class Connection {
    var connected: bool
    var outbox: seq<Broker.ServerEvent>

    constructor ()
      ensures connected && outbox == []
    {
      connected := true;
      outbox := [];
    }

    /** `send_json` */
    method SendJson(e: Broker.ServerEvent)
      modifies this
      ensures outbox == old(outbox) + [e]
      ensures connected == old(connected)
    {
      outbox := outbox + [e];
    }

    /** `close` */
    method Close()
      modifies this
      ensures !connected
      ensures outbox == old(outbox)
    {
      connected := false;
    }
  }

  /** The connections of `conns` that are still connected. */
  ghost function LiveOf(conns: set<Connection>): set<Connection>
    reads conns
  {
    set c | c in conns && c.connected
  }

  /** The connections of `subs` held by a client id of `done` have been
      sent `info` if they were connected and are closed; the others are as
      they were.  `was` and `sent` record each client's connection as it
      was before. */
  ghost predicate Notified(subs: map<string, Connection>, done: set<string>, info: Broker.ServerEvent,
                           was: map<string, bool>, sent: map<string, seq<Broker.ServerEvent>>)
    reads subs.Values
  {
    forall j :: j in subs && j in was && j in sent ==>
      if Broker.ClientsOn(subs, done, subs[j]) != {} then
        !subs[j].connected && subs[j].outbox == sent[j] + (if was[j] then [info] else [])
      else
        subs[j].connected == was[j] && subs[j].outbox == sent[j]
  }

  /** Once every client id is done, every connection is closed and was
      sent `info` if it was connected. */
  lemma AllNotified(subs: map<string, Connection>, info: Broker.ServerEvent,
                    was: map<string, bool>, sent: map<string, seq<Broker.ServerEvent>>)
    requires subs.Keys <= was.Keys && subs.Keys <= sent.Keys
    requires Notified(subs, subs.Keys, info, was, sent)
    ensures forall j :: j in subs ==>
      !subs[j].connected && subs[j].outbox == sent[j] + (if was[j] then [info] else [])
  {
    forall j | j in subs
      ensures !subs[j].connected && subs[j].outbox == sent[j] + (if was[j] then [info] else [])
    {
      assert j in Broker.ClientsOn(subs, subs.Keys, subs[j]);
    }
  }

  class Topic {
    const name: string
    var subscribers: map<string, Connection>
    var messageHistory: seq<Message>
    var messageCount: nat

    constructor (name: string)
      ensures this.name == name
      ensures State() == Broker.EmptyTopic()
    {
      this.name := name;
      subscribers := map[];
      messageHistory := [];
      messageCount := 0;
    }

    function State(): Broker.TopicState<Connection>
      reads this
    {
      Broker.TopicState(subscribers, messageHistory, messageCount)
    }

    /** `broadcast`: every client whose connection is connected is sent `e`
        (a connection shared by several client ids gets one copy per id),
        and every client whose connection is not connected is dropped from
        the table.  History and counter are untouched. */
    method Broadcast(e: Broker.ServerEvent)
      modifies this, subscribers.Values
      ensures subscribers == Broker.Prune(old(subscribers), old(LiveOf(subscribers.Values)))
      ensures messageHistory == old(messageHistory) && messageCount == old(messageCount)
      ensures forall c :: c in old(subscribers).Values ==>
        && c.connected == old(c.connected)
        && c.outbox == old(c.outbox) +
             (if old(c.connected)
              then Broker.Repeat(e, |Broker.ClientsOn(old(subscribers), old(subscribers).Keys, c)|)
              else [])
    {
      ghost var subs := subscribers;
      ghost var live := LiveOf(subs.Values);
      var disconnected := SendToConnected(e);
      forall c | c in subs.Values
        ensures c.connected == old(c.connected)
        ensures c.outbox == old(c.outbox) +
             (if old(c.connected) then Broker.Repeat(e, |Broker.ClientsOn(subs, subs.Keys, c)|) else [])
      {
        Broker.ClientsOnValues(subs, c);
      }
      DropClients(disconnected);
      assert subscribers == Broker.Prune(subs, live);
    }

    /** The topic's part of `publish`: `m` goes into the bounded history,
        the counter goes up, and `e` is broadcast. */
    method AppendAndBroadcast(m: Message, e: Broker.ServerEvent)
      modifies this, subscribers.Values
      ensures State() == Broker.TopicState(Broker.Prune(old(subscribers), old(LiveOf(subscribers.Values))),
                                           Append(old(messageHistory), m), old(messageCount) + 1)
      ensures forall c :: c in old(subscribers).Values ==>
        && c.connected == old(c.connected)
        && c.outbox == old(c.outbox) +
             (if old(c.connected)
              then Broker.Repeat(e, |Broker.ClientsOn(old(subscribers), old(subscribers).Keys, c)|)
              else [])
    {
      Record(m);
      Broadcast(e);
    }

    /** `m` goes into the bounded history and the counter goes up. */
    method Record(m: Message)
      modifies this
      ensures subscribers == old(subscribers)
      ensures messageHistory == Append(old(messageHistory), m)
      ensures messageCount == old(messageCount) + 1
    {
      messageHistory := Append(messageHistory, m);
      messageCount := messageCount + 1;
    }

    /** The first loop of `broadcast`: sends `e` to every connected
        connection of the table, once per client id, and returns the
        client ids whose connection is not connected. */
    method SendToConnected(e: Broker.ServerEvent) returns (disconnected: set<string>)
      modifies subscribers.Values
      ensures forall cid :: cid in disconnected <==> cid in subscribers && !old(subscribers[cid].connected)
      ensures forall cid :: cid in subscribers ==>
        && subscribers[cid].connected == old(subscribers[cid].connected)
        && subscribers[cid].outbox == old(subscribers[cid].outbox) +
             (if old(subscribers[cid].connected)
              then Broker.Repeat(e, |Broker.ClientsOn(subscribers, subscribers.Keys, subscribers[cid])|)
              else [])
    {
      var table := subscribers;
      disconnected := {};
      var pending := table.Keys;
      while pending != {}
        modifies table.Values
        invariant pending <= table.Keys
        invariant forall cid :: cid in disconnected <==> cid in table.Keys - pending && !old(table[cid].connected)
        invariant forall cid :: cid in table ==>
          && table[cid].connected == old(table[cid].connected)
          && table[cid].outbox == old(table[cid].outbox) +
               (if old(table[cid].connected)
                then Broker.Repeat(e, |Broker.ClientsOn(table, table.Keys - pending, table[cid])|)
                else [])
        decreases pending
      {
        var cid :| cid in pending;
        var ws := table[cid];
        label L:
        if ws.connected {
          ws.SendJson(e);
        } else {
          disconnected := disconnected + {cid};
        }
        forall j | j in table
          ensures table[j].connected == old(table[j].connected)
          ensures table[j].outbox == old(table[j].outbox) +
               (if old(table[j].connected)
                then Broker.Repeat(e, |Broker.ClientsOn(table, table.Keys - (pending - {cid}), table[j])|)
                else [])
        {
          var c := table[j];
          Broker.ClientsOnStep(table, table.Keys, pending, cid, c);
          ghost var k := |Broker.ClientsOn(table, table.Keys - pending, c)|;
          assert old@L(c.outbox) == old(c.outbox) + (if old(c.connected) then Broker.Repeat(e, k) else []);
          assert old@L(c.connected) == old(c.connected);
          if c == ws && old(c.connected) {
            assert c.outbox == old@L(c.outbox) + [e];
            Broker.RepeatStep(old(c.outbox), e, k);
          } else {
            assert c.outbox == old@L(c.outbox);
          }
        }
        assert table.Keys - (pending - {cid}) == (table.Keys - pending) + {cid};
        pending := pending - {cid};
      }
      assert table.Keys - pending == table.Keys;
    }

    /** The second loop of `broadcast`: deletes the client ids of `ids`
        from the table. */
    method DropClients(ids: set<string>)
      modifies this
      ensures subscribers == old(subscribers) - ids
      ensures messageHistory == old(messageHistory) && messageCount == old(messageCount)
    {
      var toDelete := ids;
      while toDelete != {}
        invariant toDelete <= ids
        invariant subscribers == old(subscribers) - (ids - toDelete)
        invariant messageHistory == old(messageHistory) && messageCount == old(messageCount)
        decreases toDelete
      {
        var cid :| cid in toDelete;
        subscribers := subscribers - {cid};
        assert ids - (toDelete - {cid}) == (ids - toDelete) + {cid};
        toDelete := toDelete - {cid};
      }
    }
  }

  class PubSubManager {
    var topics: map<string, Topic>
    var clients: map<string, set<string>>

    /** The state as a value. */
    function Model(): Broker.BrokerState<Connection>
      reads this, topics.Values
    {
      Broker.BrokerState(map n | n in topics :: topics[n].State(), clients)
    }

    /** Each topic is stored under its own name, so distinct names hold
        distinct topic objects. */
    ghost predicate NamesMatch()
      reads this, topics.Values
    {
      forall n :: n in topics ==> topics[n].name == n
    }

    ghost predicate Valid()
      reads this, topics.Values
    {
      NamesMatch() && Broker.Inv(Model())
    }

    /** The topic object stored under `name`, if any. */
    function TopicObjects(name: string): set<Topic>
      reads this
    {
      if name in topics then {topics[name]} else {}
    }

    /** The subscriber table of the topic stored under `name`, if any. */
    function SubscriberTable(name: string): map<string, Connection>
      reads this, topics.Values
    {
      if name in topics then topics[name].subscribers else map[]
    }

    /** Topic objects that stay in the table untouched keep their state. */
    twostate lemma KeptTopics(keep: set<string>)
      requires keep <= topics.Keys && keep <= old(topics).Keys
      requires forall n :: n in keep ==> topics[n] == old(topics)[n] && unchanged(topics[n])
      ensures forall n :: n in keep ==> Model().topics[n] == old(Model()).topics[n]
    {
      forall n | n in keep
        ensures Model().topics[n] == old(Model()).topics[n]
      {
        assert unchanged(topics[n]);
        assert topics[n].State() == old(topics[n].State());
      }
    }

    /** Only the topic stored under `name` changed or was added; the
        other entries of the table are the same, untouched objects. */
    twostate lemma OnlyTopicChanged(name: string)
      requires old(NamesMatch())
      requires name in topics && topics[name].name == name
      requires topics == old(topics)[name := topics[name]]
      requires forall n :: n in old(topics) && n != name ==> unchanged(old(topics)[n])
      ensures NamesMatch()
      ensures Model() == Broker.BrokerState(old(Model()).topics[name := topics[name].State()], clients)
    {
      var m1 := Model().topics;
      var m2 := old(Model()).topics[name := topics[name].State()];
      assert m1.Keys == m2.Keys;
      KeptTopics(topics.Keys - {name});
      forall n | n in m1
        ensures m1[n] == m2[n]
      {
        if n != name {
          assert n in topics.Keys - {name};
        }
      }
    }

    constructor ()
      ensures Valid()
      ensures Model() == Broker.Initial()
    {
      topics := map[];
      clients := map[];
      new;
      assert Model() == Broker.Initial();
      Broker.InitialInv<Connection>();
    }

    /** `create_topic` on a fresh name, apart from the invariant. */
    method AddTopic(name: string)
      requires NamesMatch() && name !in topics
      modifies this
      ensures NamesMatch()
      ensures Model() == Broker.After(old(Model()), Broker.CreateTopic(old(Model()), name))
    {
      var topic := new Topic(name);
      topics := topics[name := topic];
      OnlyTopicChanged(name);
    }

    /** `create_topic` */
    method CreateTopic(name: string) returns (r: Broker.Outcome)
      requires Valid()
      modifies this
      ensures Valid()
      ensures r == Broker.OutcomeOf(Broker.CreateTopic(old(Model()), name))
      ensures Model() == Broker.After(old(Model()), Broker.CreateTopic(old(Model()), name))
    {
      if name in topics {
        return Broker.Failure(Broker.AlreadyExists);
      }
      Broker.CreateTopicKeepsInv(Model(), name);
      AddTopic(name);
      r := Broker.Success;
    }

    /** The loop of `delete_topic`: every connection of `subs` that is
        connected is sent `info` and closed, and `name` is discarded from
        the index entry of every client id of `subs`. */
    method NotifyAndDiscard(subs: map<string, Connection>, name: string, info: Broker.ServerEvent)
      modifies this, subs.Values
      ensures topics == old(topics)
      ensures clients == Broker.DiscardTopic(old(clients), subs.Keys, name)
      ensures forall cid :: cid in subs ==>
        && !subs[cid].connected
        && subs[cid].outbox == old(subs[cid].outbox) + (if old(subs[cid].connected) then [info] else [])
    {
      ghost var was := map j | j in subs :: subs[j].connected;
      ghost var sent := map j | j in subs :: subs[j].outbox;
      var pending := subs.Keys;
      assert subs.Keys - pending == {};
      while pending != {}
        modifies this, subs.Values
        invariant pending <= subs.Keys
        invariant topics == old(topics)
        invariant clients == Broker.DiscardTopic(old(clients), subs.Keys - pending, name)
        invariant Notified(subs, subs.Keys - pending, info, was, sent)
        decreases pending
      {
        var cid :| cid in pending;
        NotifyAndDiscardOne(subs, pending, cid, name, info, old(clients), was, sent);
        pending := pending - {cid};
      }
      assert subs.Keys - pending == subs.Keys;
      AllNotified(subs, info, was, sent);
    }

    /** One step of the loop of `delete_topic`, for the client id `cid`
        of `pending`. */
    method NotifyAndDiscardOne(subs: map<string, Connection>, pending: set<string>, cid: string, name: string,
                               info: Broker.ServerEvent, ghost clients0: map<string, set<string>>,
                               ghost was: map<string, bool>, ghost sent: map<string, seq<Broker.ServerEvent>>)
      requires pending <= subs.Keys && cid in pending
      requires clients == Broker.DiscardTopic(clients0, subs.Keys - pending, name)
      requires Notified(subs, subs.Keys - pending, info, was, sent)
      modifies this, subs[cid]
      ensures topics == old(topics)
      ensures clients == Broker.DiscardTopic(clients0, subs.Keys - (pending - {cid}), name)
      ensures Notified(subs, subs.Keys - (pending - {cid}), info, was, sent)
    {
      NotifyOne(subs, pending, cid, info, was, sent);
      ghost var before := clients;
      DiscardOne(cid, name);
      Broker.DiscardTopicStep(clients0, subs.Keys, pending, cid, name);
      assert clients == Broker.DiscardTopic(before, {cid}, name);
    }

    /** One step of the loop of `delete_topic`: the connection of `cid` is
        sent `info` and closed if it is still connected. */
    static method NotifyOne(subs: map<string, Connection>, pending: set<string>, cid: string, info: Broker.ServerEvent,
                            ghost was: map<string, bool>, ghost sent: map<string, seq<Broker.ServerEvent>>)
      requires pending <= subs.Keys && cid in pending
      requires Notified(subs, subs.Keys - pending, info, was, sent)
      modifies subs[cid]
      ensures Notified(subs, subs.Keys - (pending - {cid}), info, was, sent)
    {
      ghost var done := subs.Keys - pending;
      assert subs.Keys - (pending - {cid}) == done + {cid};
      var ws := subs[cid];
      if ws.connected {
        ws.SendJson(info);
        ws.Close();
      }
      forall j | j in subs && j in was && j in sent
        ensures if Broker.ClientsOn(subs, done + {cid}, subs[j]) != {} then
            !subs[j].connected && subs[j].outbox == sent[j] + (if was[j] then [info] else [])
          else
            subs[j].connected == was[j] && subs[j].outbox == sent[j]
      {
        var c := subs[j];
        Broker.ClientsOnAdd(subs, done, cid, c);
        if c == ws {
          assert cid in Broker.ClientsOn(subs, done + {cid}, c);
        }
      }
    }

    /** `name` leaves the index entry of `cid`, which is deleted once
        empty. */
    method DiscardOne(cid: string, name: string)
      modifies this
      ensures topics == old(topics)
      ensures clients == Broker.DiscardTopic(old(clients), {cid}, name)
    {
      if cid in clients {
        var entry := clients[cid] - {name};
        if entry == {} {
          clients := clients - {cid};
        } else {
          clients := clients[cid := entry];
        }
      }
    }

    /** `delete_topic` on an existing name, apart from the invariant. */
    method RemoveTopic(name: string)
      requires NamesMatch() && name in topics
      modifies this, topics[name].subscribers.Values
      ensures NamesMatch()
      ensures Model() == Broker.After(old(Model()), Broker.DeleteTopic(old(Model()), name))
      ensures forall c :: c in old(topics[name].subscribers).Values ==>
        && !c.connected
        && c.outbox == old(c.outbox) + (if old(c.connected) then [Broker.Info(name, Broker.TopicDeleted)] else [])
    {
      ghost var s0 := Model();
      var topic := topics[name];
      var subs := topic.subscribers;
      assert s0.topics[name].subscribers == subs;
      var info := Broker.Info(name, Broker.TopicDeleted);
      NotifyAndDiscard(subs, name, info);
      forall c | c in subs.Values
        ensures !c.connected && c.outbox == old(c.outbox) + (if old(c.connected) then [info] else [])
      {
        var j :| j in subs && subs[j] == c;
      }
      topics := topics - {name};
      KeptTopics(topics.Keys);
      assert Model().topics == s0.topics - {name};
    }

    /** `delete_topic`: every subscriber whose connection is connected is
        sent one `topic_deleted` notice and closed; the name leaves the
        index entries of the subscribers; the topic is removed. */
    method DeleteTopic(name: string) returns (r: Broker.Outcome)
      requires Valid()
      modifies this, SubscriberTable(name).Values
      ensures Valid()
      ensures r == Broker.OutcomeOf(Broker.DeleteTopic(old(Model()), name))
      ensures Model() == Broker.After(old(Model()), Broker.DeleteTopic(old(Model()), name))
      ensures forall c :: c in old(SubscriberTable(name)).Values ==>
        && !c.connected
        && c.outbox == old(c.outbox) + (if old(c.connected) then [Broker.Info(name, Broker.TopicDeleted)] else [])
    {
      if name !in topics {
        return Broker.Failure(Broker.NotFound);
      }
      Broker.DeleteTopicKeepsInv(Model(), name);
      RemoveTopic(name);
      r := Broker.Success;
    }

    /** `list_topics`: every topic name, once each. */
    method ListTopics() returns (names: seq<string>)
      ensures forall n :: n in names <==> n in topics
      ensures forall i, j :: 0 <= i < j < |names| ==> names[i] != names[j]
    {
      names := [];
      var pending := topics.Keys;
      while pending != {}
        invariant pending <= topics.Keys
        invariant forall n :: n in names <==> n in topics && n !in pending
        invariant forall i, j :: 0 <= i < j < |names| ==> names[i] != names[j]
        decreases pending
      {
        var n :| n in pending;
        names := names + [n];
        pending := pending - {n};
      }
    }

    /** The sum that `get_health_stats` computes, topic by topic. */
    method SumSubscribers() returns (total: nat)
      ensures total == Stats.SumOver(Stats.SubscriberCounts(Model()), topics.Keys)
    {
      ghost var counts := Stats.SubscriberCounts(Model());
      ghost var keys := topics.Keys;
      total := 0;
      var pending := topics.Keys;
      while pending != {}
        invariant pending <= keys
        invariant total == Stats.SumOver(counts, keys - pending)
        decreases pending
      {
        var n :| n in pending;
        ghost var done := keys - pending;
        Stats.SumOverAddOne(counts, done, n);
        total := total + |topics[n].subscribers|;
        assert keys - (pending - {n}) == done + {n};
        pending := pending - {n};
      }
      assert keys - pending == keys;
    }

    /** `get_health_stats`: the number of topics and the sum of their
        subscriber counts. */
    method GetHealthStats() returns (h: Stats.HealthResponse)
      ensures h == Stats.Health(Model())
    {
      var total := SumSubscribers();
      ghost var s := Model();
      assert s.topics.Keys == topics.Keys;
      assert |s.topics| == |topics|;
      h := Stats.HealthResponse(0, |topics|, total);
    }

    /** `get_full_stats`: each topic's publish counter and subscriber
        count. */
    method GetFullStats() returns (stats: map<string, Stats.TopicStats>)
      ensures stats == Stats.FullStats(Model())
    {
      stats := map[];
      var pending := topics.Keys;
      while pending != {}
        invariant pending <= topics.Keys
        invariant stats.Keys == topics.Keys - pending
        invariant forall n :: n in stats ==> stats[n] == Stats.FullStats(Model())[n]
        decreases pending
      {
        var n :| n in pending;
        var topic := topics[n];
        stats := stats[n := Stats.TopicStats(topic.messageCount, |topic.subscribers|)];
        pending := pending - {n};
      }
    }

    /** Sends each message of `ms` to `ws` as an event of topic `name`. */
    static method SendReplay(ws: Connection, name: string, ms: seq<Message>)
      modifies ws
      ensures ws.outbox == old(ws.outbox) + Broker.Events(name, ms)
      ensures ws.connected == old(ws.connected)
    {
      var i := 0;
      while i < |ms|
        invariant 0 <= i <= |ms|
        invariant ws.outbox == old(ws.outbox) + Broker.Events(name, ms[..i])
        invariant ws.connected == old(ws.connected)
      {
        ws.SendJson(Broker.Event(name, ms[i]));
        assert ms[..i + 1][..i] == ms[..i];
        i := i + 1;
      }
      assert ms[..i] == ms;
    }

    /** `subscribe` on an existing topic, apart from the invariant. */
    method SubscribeExisting(name: string, cid: string, ws: Connection, lastN: int)
      requires NamesMatch() && name in topics
      modifies this, topics[name], ws
      ensures NamesMatch()
      ensures Model() == Broker.After(old(Model()), Broker.Subscribe(old(Model()), name, cid, ws))
      ensures ws.outbox == old(ws.outbox) + Broker.Events(name, Broker.ReplayFor(old(Model()), name, lastN))
      ensures ws.connected == old(ws.connected)
    {
      var topic := topics[name];
      AddSubscriber(name, cid, ws);
      ghost var s1 := Model();
      var history := topic.messageHistory;
      var replay := Replay(history, lastN);
      SendReplay(ws, name, replay);
      assert Model() == s1;
    }

    /** The table updates of `subscribe`: the connection is stored under
        the client id and the topic joins the client's index entry. */
    method AddSubscriber(name: string, cid: string, ws: Connection)
      requires NamesMatch() && name in topics
      modifies this, topics[name]
      ensures NamesMatch()
      ensures topics == old(topics)
      ensures topics[name].messageHistory == old(topics[name].messageHistory)
      ensures Model() == Broker.After(old(Model()), Broker.Subscribe(old(Model()), name, cid, ws))
    {
      ghost var s0 := Model();
      var topic := topics[name];
      assert s0.topics[name] == topic.State() && s0.clients == clients;
      var entry := if cid in clients then clients[cid] else {};
      topic.subscribers := topic.subscribers[cid := ws];
      clients := clients[cid := entry + {name}];
      OnlyTopicChanged(name);
    }

    /** `subscribe`: the connection is stored under the client id, the
        topic is added to the client's index entry, and when `lastN > 0`
        the newest `lastN` history entries are sent to the connection,
        oldest first. */
    method Subscribe(name: string, cid: string, ws: Connection, lastN: int) returns (r: Broker.Outcome)
      requires Valid()
      modifies this, TopicObjects(name), ws
      ensures Valid()
      ensures r == Broker.OutcomeOf(Broker.Subscribe(old(Model()), name, cid, ws))
      ensures Model() == Broker.After(old(Model()), Broker.Subscribe(old(Model()), name, cid, ws))
      ensures ws.outbox == old(ws.outbox) + Broker.Events(name, Broker.ReplayFor(old(Model()), name, lastN))
      ensures ws.connected == old(ws.connected)
    {
      if name !in topics {
        return Broker.Failure(Broker.TopicNotFound);
      }
      Broker.SubscribeKeepsInv(Model(), name, cid, ws);
      SubscribeExisting(name, cid, ws, lastN);
      r := Broker.Success;
    }

    /** `unsubscribe` on an existing topic, apart from the invariant. */
    method UnsubscribeExisting(name: string, cid: string)
      requires NamesMatch() && name in topics
      modifies this, topics[name]
      ensures NamesMatch()
      ensures Model() == Broker.After(old(Model()), Broker.Unsubscribe(old(Model()), name, cid))
    {
      ghost var s0 := Model();
      var topic := topics[name];
      assert s0.topics[name] == topic.State() && s0.clients == clients;
      if cid in topic.subscribers {
        topic.subscribers := topic.subscribers - {cid};
      }
      DiscardOne(cid, name);
      assert topic.subscribers == s0.topics[name].subscribers - {cid};
      OnlyTopicChanged(name);
    }

    /** `unsubscribe`: the client leaves the topic's table and the name
        leaves the client's index entry; a client that was not subscribed
        is not an error. */
    method Unsubscribe(name: string, cid: string) returns (r: Broker.Outcome)
      requires Valid()
      modifies this, TopicObjects(name)
      ensures Valid()
      ensures r == Broker.OutcomeOf(Broker.Unsubscribe(old(Model()), name, cid))
      ensures Model() == Broker.After(old(Model()), Broker.Unsubscribe(old(Model()), name, cid))
    {
      if name !in topics {
        return Broker.Failure(Broker.TopicNotFound);
      }
      Broker.UnsubscribeKeepsInv(Model(), name, cid);
      UnsubscribeExisting(name, cid);
      r := Broker.Success;
    }

    /** `publish` on an existing topic, apart from the invariant. */
    method PublishExisting(name: string, m: Message)
      requires NamesMatch() && name in topics
      modifies topics[name], topics[name].subscribers.Values
      ensures NamesMatch()
      ensures Model() == Broker.After(old(Model()), Broker.Publish(old(Model()), name, m, old(LiveOf(topics[name].subscribers.Values))))
      ensures forall c :: c in old(topics[name].subscribers).Values ==>
        && c.connected == old(c.connected)
        && c.outbox == old(c.outbox) +
             (if old(c.connected)
              then Broker.Repeat(Broker.Event(name, m), |Broker.ClientsOn(old(topics[name].subscribers), old(topics[name].subscribers).Keys, c)|)
              else [])
    {
      ghost var s0 := Model();
      var topic := topics[name];
      ghost var t0 := topic.State();
      ghost var live := LiveOf(t0.subscribers.Values);
      assert s0.topics[name] == t0;
      ghost var t1 := Broker.TopicState(Broker.Prune(t0.subscribers, live), Append(t0.history, m), t0.count + 1);
      assert Broker.Publish(s0, name, m, live) == Broker.Ok(s0.(topics := s0.topics[name := t1]));
      topic.AppendAndBroadcast(m, Broker.Event(name, m));
      OnlyTopicChanged(name);
    }

    /** `publish`: append to the bounded history, count, and broadcast to
        the topic's subscribers. */
    method Publish(name: string, m: Message) returns (r: Broker.Outcome)
      requires Valid()
      modifies TopicObjects(name), SubscriberTable(name).Values
      ensures Valid()
      ensures r == Broker.OutcomeOf(Broker.Publish(old(Model()), name, m, old(LiveOf(SubscriberTable(name).Values))))
      ensures Model() == Broker.After(old(Model()), Broker.Publish(old(Model()), name, m, old(LiveOf(SubscriberTable(name).Values))))
      ensures forall c :: c in old(SubscriberTable(name)).Values ==>
        && c.connected == old(c.connected)
        && c.outbox == old(c.outbox) +
             (if old(c.connected)
              then Broker.Repeat(Broker.Event(name, m), |Broker.ClientsOn(old(SubscriberTable(name)), old(SubscriberTable(name)).Keys, c)|)
              else [])
    {
      if name !in topics {
        return Broker.Failure(Broker.TopicNotFound);
      }
      Broker.PublishKeepsInv(Model(), name, m, LiveOf(SubscriberTable(name).Values));
      PublishExisting(name, m);
      r := Broker.Success;
    }

    /** `disconnect_client` for an indexed client, apart from the
        invariant. */
    method DropClient(cid: string)
      requires NamesMatch() && cid in clients
      modifies this, topics.Values
      ensures NamesMatch()
      ensures Model() == Broker.Disconnect(old(Model()), cid)
    {
      ghost var s0 := Model();
      LeaveTopics(cid, clients[cid]);
      clients := clients - {cid};
      ghost var target := Broker.Disconnect(s0, cid);
      assert target.topics.Keys == topics.Keys;
      forall n | n in topics
        ensures Model().topics[n] == target.topics[n]
      {
      }
      assert Model().topics == target.topics;
    }

    /** The loop of `disconnect_client`: `cid` leaves the table of every
        topic named in `names` that exists. */
    method LeaveTopics(cid: string, names: set<string>)
      requires NamesMatch()
      modifies topics.Values
      ensures NamesMatch()
      ensures forall n :: n in topics ==>
        topics[n].State() ==
          if n in names then old(topics[n].State()).(subscribers := old(topics[n].subscribers) - {cid})
          else old(topics[n].State())
    {
      var pending := names;
      while pending != {}
        modifies topics.Values
        invariant pending <= names
        invariant NamesMatch()
        invariant forall n :: n in topics ==>
          topics[n].State() ==
            if n in names - pending then old(topics[n].State()).(subscribers := old(topics[n].subscribers) - {cid})
            else old(topics[n].State())
        decreases pending
      {
        var n :| n in pending;
        assert names - (pending - {n}) == (names - pending) + {n};
        if n in topics {
          var topic := topics[n];
          label L:
          assert topic.State() == old(topic.State());
          if cid in topic.subscribers {
            topic.subscribers := topic.subscribers - {cid};
          } else {
            assert topic.subscribers == topic.subscribers - {cid};
          }
          forall k | k in topics
            ensures topics[k].State() ==
              if k in names - (pending - {n}) then old(topics[k].State()).(subscribers := old(topics[k].subscribers) - {cid})
              else old(topics[k].State())
          {
            if k != n {
              assert topics[k] != topic;
              assert topics[k].State() == old@L(topics[k].State());
            }
          }
        }
        pending := pending - {n};
      }
    }

    /** `disconnect_client`: the client leaves every topic in its index
        entry, and the entry is deleted. */
    method DisconnectClient(cid: string)
      requires Valid()
      modifies this, topics.Values
      ensures Valid()
      ensures Model() == Broker.Disconnect(old(Model()), cid)
    {
      Broker.DisconnectKeepsInv(Model(), cid);
      if cid in clients {
        DropClient(cid);
      }
    }
  }
}
