# In-memory publish/subscribe broker

This project is a Dafny model of the broker core in `manager.py`, together
with proofs about it. The core has two parts:

- `Topic` keeps a table of subscribers keyed by client id, a history of at
  most 100 messages (a `deque(maxlen=100)`), and a counter of messages ever
  published. Its `broadcast` sends an event to every subscriber that is still
  connected, then drops from the table every subscriber that is not.
- `PubSubManager` keeps a map from topic name to `Topic`, plus a reverse
  index from client id to the names of the topics that client subscribed to.
  Its operations are:
  - `create_topic` and `delete_topic`;
  - `list_topics`, `get_health_stats` and `get_full_stats`;
  - `subscribe`, which stores the connection and replays the newest
    `last_n` messages;
  - `unsubscribe`;
  - `publish`, which appends to the history, counts, and broadcasts;
  - `disconnect_client`.

The model has four modules.

- `History` (`history.dfy`) is the bounded history as a sequence. It has:
  - `Append`, which is `deque.append` with `maxlen` 100;
  - `Replay`, which is the `history[-last_n:]` slice that `subscribe` sends;
  - lemmas about publishing many messages in a row.
- `Broker` (`broker.dfy`) is the broker state as a value, of type
  `BrokerState<C>`. It has:
  - one function per manager operation. Each returns the new state or the
    error the operation raises;
  - the invariant `Inv`: every history holds at most 100 messages; every
    counter is at least its history's length; every subscriber of a topic
    is indexed under that topic; no index entry is empty;
  - a lemma for each operation showing that the operation keeps `Inv`;
  - lemmas about idempotence, no-op cases and how operations interact.

  Connections are an opaque type `C`. Which connections `broadcast` finds
  connected is the parameter `live` of `Publish`.
- `Stats` (`stats.dfy`) holds the read-only views as functions of the state,
  and lemmas on how the operations move the reported numbers.
- `Manager` (`manager.dfy`) is the program as it runs: it has one class for
  each of `Topic` and `PubSubManager`, whose tables change in place, plus a
  class `Connection` for a WebSocket:
  - `Connection` has a `connected` flag and an `outbox` of sent events.
    `send_json` appends an event to the outbox; `close` clears the flag.
  - Each method of `PubSubManager`:
    - requires `Valid()`, which is `Broker.Inv` of `Model()` plus the fact
      that each topic is stored under its own name;
    - keeps `Valid()`;
    - returns the outcome of the matching `Broker` function, meaning
      success or the error it raises;
    - leaves `Model()` equal to the state that function gives;
    - states exactly what each affected connection was sent.

  The loops of the source are kept as loops:
  - the two loops of `broadcast`;
  - the notify-and-clean loop of `delete_topic`;
  - the replay loop of `subscribe`;
  - the loop of `disconnect_client`;
  - the sum of `get_health_stats`;
  - the comprehensions of `get_full_stats` and `list_topics`.

  In each loop, the client ids (or topic names) still to be visited are a
  set. The loop takes one element of that set per step.

Behaviour worth noting:

- `unsubscribe` of a client that is not listed under the topic in the
  client index succeeds and changes nothing.
- `broadcast` removes a disconnected subscriber from the topic's table but
  leaves its client-index entry alone. So the index invariant holds in one
  direction only: every subscriber is indexed, but an index entry may name a
  topic the client was pruned from.
- The replay sends to the connection whether or not it is connected. A
  `last_n` of zero or below sends nothing, and a `last_n` larger than the
  history sends the whole history. There is no clamp to 100 beyond the
  history's own bound.
- A connection stored under two client ids gets one copy of a broadcast per
  id. In `delete_topic` it gets one `topic_deleted` notice: the model's
  `close` clears the connected flag that the second visit tests (see
  "## Left out").

## Model

| member | source | states |
|---|---|---|
| History.Append | manager.py:14 | the new message is the last entry; the length is min(old + 1, 100); below 100 the message is appended; at 100 the oldest entry is evicted and the others keep their order |
| History.Replay | manager.py:112-114 | `last_n <= 0` gives nothing; otherwise the result has min(last_n, length) entries, and they are exactly the newest entries of the history, oldest first |
| History.Newest | manager.py:113-114 | Python's `s[-n:]`: min(n, length) entries, namely the last ones of `s`, in order |
| History.PublishAllKeepsNewest | manager.py:139 | after any sequence of publishes, the history is exactly the newest 100 entries of the old history followed by the new messages |
| History.FreshTopicAfterManyPublishes | manager.py:14 | after 100 or more publishes to a fresh topic, the history is exactly the last 100 messages; a replay of k <= 100 then gives exactly the last k, oldest first |
| Broker.CreateTopic | manager.py:46-50 | an existing name raises AlreadyExists; otherwise exactly one topic is added, with no subscribers, an empty history and count 0; nothing else changes |
| Broker.DeleteTopic | manager.py:52-72 | a missing name raises NotFound; otherwise the topic is removed, the name leaves the index entry of each of its subscribers, entries left empty are deleted, subscribers without an entry stay without one, and every other entry is unchanged |
| Broker.Subscribe | manager.py:99-109 | a missing topic raises TopicNotFound; otherwise the connection is stored under the client id, replacing any earlier one; the other subscribers, the history, the counter and the other topics are unchanged; the topic name joins the client's index entry, which is created if absent |
| Broker.Unsubscribe | manager.py:119-131 | a missing topic raises TopicNotFound; otherwise the client leaves the topic's table; its index entry loses exactly the name, keeps its other names, and is deleted exactly when it becomes empty; a client without an entry gets none; history, counter, other topics and other clients' entries are unchanged |
| Broker.Publish | manager.py:133-143 | a missing topic raises TopicNotFound; otherwise the counter goes up by one, the history is `Append` of the message, the subscribers kept are exactly those whose connection was connected, and the other topics and the index are unchanged |
| Broker.Disconnect | manager.py:145-154 | the client's index entry is deleted; the client leaves every topic its entry names; a topic its entry does not name is unchanged, even if the client is in its table; histories, counters and other subscribers are unchanged; an unindexed client changes nothing |
| Broker.InitialInv | manager.py:41-43 | the empty broker satisfies the invariant |
| Broker.CreateTopicKeepsInv | manager.py:46-50 | `create_topic` keeps the invariant |
| Broker.DeleteTopicKeepsInv | manager.py:52-72 | `delete_topic` keeps the invariant, including the rule that no index entry is empty |
| Broker.SubscribeKeepsInv | manager.py:99-109 | `subscribe` keeps the invariant: the new subscriber is indexed under the topic |
| Broker.UnsubscribeKeepsInv | manager.py:119-131 | `unsubscribe` keeps the invariant, including the deletion of entries left empty |
| Broker.PublishKeepsInv | manager.py:133-143 | `publish` keeps the invariant across the append, the count and the pruning of disconnected subscribers |
| Broker.DisconnectKeepsInv | manager.py:145-154 | `disconnect_client` keeps the invariant |
| Broker.DeleteTopicForgetsName | manager.py:66-72 | after `delete_topic`, no remaining index entry of a former subscriber names the topic, and publishing to it raises TopicNotFound |
| Broker.SubscribeIdempotent | manager.py:104-109 | subscribing a second time with the same connection changes nothing |
| Broker.SubscribeReplaysNewest | manager.py:112-117 | the events sent on subscribe carry exactly the newest min(last_n, length) history entries, oldest first; `last_n <= 0` sends nothing |
| Broker.UnsubscribeNotSubscribedIsNoOp | manager.py:119-131 | under the invariant, unsubscribing a client that is not subscribed succeeds and leaves the state unchanged |
| Broker.UnsubscribedMissesLaterPublish | manager.py:124-126 | a client that unsubscribed is not among the subscribers of a later publish |
| Broker.DisconnectRemovesEverywhere | manager.py:145-154 | under the invariant, after `disconnect_client` the client is in no topic's table; a second call changes nothing |
| Broker.PrunedClientStaysIndexed | manager.py:27-29 | a subscriber that `broadcast` drops for being disconnected is gone from the topic's table but is still indexed under the topic |
| Broker.PublishCountsEveryMessage | manager.py:139-140 | publishing adds exactly one to the counter; the history stays at most 100 and at most the counter; it ends with the message and, when it was full, loses exactly its oldest entry |
| Stats.SubscribeCountsOnce | manager.py:80 | a new subscriber adds one to the health report's subscriber total; subscribing again adds nothing |
| Stats.UnsubscribeCountsOnce | manager.py:80 | unsubscribing a subscribed client takes one from the total; otherwise the total is unchanged |
| Stats.PublishStats | manager.py:87-96 | publishing adds one to that topic's message count, does not raise its subscriber count, and leaves the other topics' statistics unchanged |
| Stats.StatsCoverHistory | manager.py:91 | under the invariant, a topic's reported message count is at least the number of messages a replay can send |
| Manager.Connection.SendJson | manager.py:23 | the event is appended to the connection's outbox |
| Manager.Connection.Close | manager.py:64 | the connection is no longer connected and its outbox is unchanged |
| Manager.Topic.constructor | manager.py:11-15 | a new topic has the given name, no subscribers, an empty history and count 0 |
| Manager.Topic.Broadcast | manager.py:17-29 | the table becomes exactly the subscribers whose connection was connected; each connected connection is sent the event once per client id stored on it; connections are not closed; history and counter are untouched |
| Manager.Topic.SendToConnected | manager.py:19-25 | the first loop of `broadcast`: returns exactly the client ids whose connection is not connected, and sends each connected connection one copy per client id on it |
| Manager.Topic.DropClients | manager.py:27-29 | the second loop of `broadcast`: the table loses exactly the given client ids |
| Manager.Topic.AppendAndBroadcast | manager.py:139-143 | the history gains the message under the bound of 100, the counter goes up by one, and the event is broadcast |
| Manager.PubSubManager.constructor | manager.py:41-43 | the new manager is the empty broker and is valid |
| Manager.PubSubManager.CreateTopic | manager.py:46-50 | returns the outcome of `Broker.CreateTopic`, leaves exactly its state, and keeps the invariant |
| Manager.PubSubManager.DeleteTopic | manager.py:52-72 | returns the outcome of `Broker.DeleteTopic`, leaves exactly its state, and keeps the invariant; every former subscriber's connection is closed and was sent one `topic_deleted` notice if it was connected |
| Manager.PubSubManager.NotifyAndDiscard | manager.py:61-70 | the loop of `delete_topic`: each connection is closed after getting at most one notice; the index becomes `DiscardTopic` of the subscriber ids |
| Manager.PubSubManager.DiscardOne | manager.py:66-70 | the name leaves the client's index entry, which is deleted once empty |
| Manager.PubSubManager.ListTopics | manager.py:74-76 | returns every topic name, each exactly once, and nothing else |
| Manager.PubSubManager.SumSubscribers | manager.py:80 | the loop's total equals the sum of the subscriber counts over all topics |
| Manager.PubSubManager.GetHealthStats | manager.py:78-85 | returns the number of topics, the total subscriber count and an uptime of 0, and changes nothing |
| Manager.PubSubManager.GetFullStats | manager.py:87-96 | returns, for exactly the existing topics, each counter and subscriber count, and changes nothing |
| Manager.PubSubManager.SendReplay | manager.py:115-117 | the connection's outbox gains one event per replayed message, in order |
| Manager.PubSubManager.Subscribe | manager.py:99-117 | returns the outcome of `Broker.Subscribe`, leaves exactly its state, and keeps the invariant; the connection is sent exactly the events of `Broker.ReplayFor`, in order |
| Manager.PubSubManager.AddSubscriber | manager.py:104-109 | the table updates of `subscribe` give exactly the state of `Broker.Subscribe` and leave the history untouched |
| Manager.PubSubManager.Unsubscribe | manager.py:119-131 | returns the outcome of `Broker.Unsubscribe`, leaves exactly its state, and keeps the invariant |
| Manager.PubSubManager.Publish | manager.py:133-143 | returns the outcome of `Broker.Publish` for the connections connected at the call, leaves exactly its state, and keeps the invariant; each connected subscriber connection is sent the event once per client id on it |
| Manager.PubSubManager.DisconnectClient | manager.py:145-154 | leaves exactly the state of `Broker.Disconnect` and keeps the invariant |
| Manager.PubSubManager.LeaveTopics | manager.py:148-153 | the loop of `disconnect_client`: the client leaves the table of every listed topic that exists, and no other table changes |

## Left out

- The `asyncio.Lock` and all concurrency. Every operation is one atomic,
  sequential step.
- WebSocket transport. `send_json` and `close` are the two methods of
  `Connection`. `client_state == CONNECTED`, read through `getattr`, is the
  `connected` flag. A send never fails and never raises. The close code 1000
  is not recorded.
- Manager.Connection.Close: assumes that closing a connection clears its
  `client_state`, which is up to the WebSocket library and not to
  `manager.py`. If a server-side close leaves `client_state` at CONNECTED,
  a second client id on the same connection in `delete_topic`, or a later
  `broadcast` on another topic the connection is still subscribed to, would
  send to a closed socket and raise. The model does not capture that.
- `HTTPException` status codes and detail strings, and the `ValueError`
  message. They are the error variants `AlreadyExists`, `NotFound` and
  `TopicNotFound`.
- The REST and WebSocket endpoint wiring, the JSON receive loop and the
  clock used for the uptime. `main.py` is not part of this model, so the
  uptime is the 0 that `get_health_stats` returns.
- The pydantic message classes and their validation. `models.py` is not
  part of this model. A message is an opaque pair of id and payload, and the
  events are `Event(topic, message)` and `Info(topic, msg)`.
- Manager.PubSubManager.ListTopics: states the set of names without
  duplicates, not the dict's insertion order, because the model's maps are
  unordered.
- Manager.PubSubManager.GetFullStats: returns a map rather than the ordered
  dict inside a `StatsResponse` wrapper.
- Dict iteration order in `broadcast`, `delete_topic` and
  `disconnect_client`. The loops visit client ids and topic names in an
  unspecified order. The final state, and the events each connection
  receives, do not depend on that order, because every connection is sent
  the same event.
