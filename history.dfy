/** The per-topic message history: a FIFO bounded to `Capacity` entries
    (the source keeps it in a `collections.deque(maxlen=100)`), with the
    append used by publish and the slice used by subscribe's replay. */
module History {

  /** The fixed history depth of every topic. */
  const Capacity: nat := 100

  /** A published message. The core never inspects it: the id is the
      publisher's UUID and the payload its opaque JSON object. */
  datatype Message = Message(id: string, payload: string)

  function Min(a: int, b: int): int
  {
    if a < b then a else b
  }

  /** The newest `n` entries of `s`, oldest first (all of `s` when it is
      shorter): Python's `s[-n:]` for `n > 0`. */
  function Newest<T>(s: seq<T>, n: nat): (r: seq<T>)
    ensures |r| == Min(n, |s|)
    ensures forall i :: 0 <= i < |r| ==> r[i] == s[|s| - |r| + i]
  {
    if n >= |s| then s else s[|s| - n..]
  }

  /** `deque.append` on a deque of maximum length `Capacity`: the new
      message is the last entry; the oldest entry is evicted when the
      history is already full; the other entries keep their order. */
  function Append(h: seq<Message>, m: Message): (r: seq<Message>)
    ensures |r| <= Capacity
    ensures |r| == Min(|h| + 1, Capacity)
    ensures r[|r| - 1] == m
    ensures |h| < Capacity ==> r == h + [m]
    ensures |h| == Capacity ==> r == h[1..] + [m]
  {
    Newest(h + [m], Capacity)
  }

  /** The replay that `subscribe` sends: `list(history)[-last_n:]` when
      `last_n > 0`, nothing otherwise. */
  function Replay(h: seq<Message>, lastN: int): (r: seq<Message>)
    ensures lastN <= 0 ==> r == []
    ensures lastN > 0 ==> |r| == Min(lastN, |h|)
    ensures forall i :: 0 <= i < |r| ==> r[i] == h[|h| - |r| + i]
  {
    if lastN > 0 then Newest(h, lastN) else []
  }

  /** The history after publishing `ms` in order, one `Append` each. */
  function PublishAll(h: seq<Message>, ms: seq<Message>): seq<Message>
    decreases |ms|
  {
    if ms == [] then h else PublishAll(Append(h, ms[0]), ms[1..])
  }

  /** Trimming before appending more entries loses nothing that a later
      trim would keep. */
  lemma NewestOfNewest<T>(s: seq<T>, t: seq<T>, n: nat)
    ensures Newest(Newest(s, n) + t, n) == Newest(s + t, n)
  {
    if n < |s| {
      var a := Newest(s, n);
      assert a == s[|s| - n..];
      assert a + t == (s + t)[|s| - n..];
    }
  }

  /** One publish step: appending the first message and then the rest
      keeps the same newest entries as appending them all at once. */
  lemma AppendThenRest(h: seq<Message>, ms: seq<Message>)
    requires ms != []
    ensures Newest(Append(h, ms[0]) + ms[1..], Capacity) == Newest(h + ms, Capacity)
  {
    NewestOfNewest(h + [ms[0]], ms[1..], Capacity);
    assert h + [ms[0]] + ms[1..] == h + ms;
  }

  /** After any sequence of publishes, the history holds exactly the
      newest `Capacity` messages of the old history followed by the new
      ones, in publish order. */
  lemma {:induction false} PublishAllKeepsNewest(h: seq<Message>, ms: seq<Message>)
    requires |h| <= Capacity
    ensures PublishAll(h, ms) == Newest(h + ms, Capacity)
    decreases |ms|
  {
    if ms == [] {
      assert h + ms == h;
    } else {
      PublishAllKeepsNewest(Append(h, ms[0]), ms[1..]);
      AppendThenRest(h, ms);
    }
  }

  /** A replay of `k` entries of a suffix of `s` that is at least `k`
      long takes the same entries as a replay of `s` itself. */
  lemma ReplayOfSuffix(s: seq<Message>, j: nat, k: nat)
    requires j <= |s| && 0 < k <= |s| - j
    ensures Replay(s[j..], k) == s[|s| - k..]
  {
    var t := s[j..];
    if k < |t| {
      assert Replay(t, k) == t[|t| - k..];
      assert t[|t| - k..] == s[|s| - k..];
    }
  }

  /** Publishing at least `Capacity` messages to a fresh topic leaves
      exactly the last `Capacity` of them (m51..m150 after m1..m150), and
      a replay of `k <= Capacity` then yields exactly the last `k`
      (m141..m150 for k = 10), oldest first. */
  lemma {:induction false} FreshTopicAfterManyPublishes(ms: seq<Message>, k: nat)
    requires |ms| >= Capacity
    requires 0 < k <= Capacity
    ensures PublishAll([], ms) == ms[|ms| - Capacity..]
    ensures Replay(PublishAll([], ms), k) == ms[|ms| - k..]
  {
    var empty: seq<Message> := [];
    PublishAllKeepsNewest(empty, ms);
    assert empty + ms == ms;
    assert PublishAll(empty, ms) == ms[|ms| - Capacity..];
    ReplayOfSuffix(ms, |ms| - Capacity, k);
  }
}
