/**
 The bridge (bridge.go): a ring of the last presentations and channels for its
 subscribers, compared with the full history, and a bounded dedup table compared
 with debouncing that forgets nothing.
 */
module Hub {
  import opened Common

  datatype BridgeEvent = BridgeEvent(id: nat, reader: string, card: string, sig: string)

  const CHANNEL_SIZE: nat := 16

  /** Consecutive identifiers from 1. */
  predicate Numbered(history: seq<BridgeEvent>) {
    forall i :: 0 <= i < |history| ==> history[i].id == i + 1
  }

  /** The last n elements, or all. */
  function Last(history: seq<BridgeEvent>, n: nat): seq<BridgeEvent> {
    if |history| <= n then history else history[|history| - n..]
  }

  /** A send that never blocks: a full channel drops the event. */
  function Offer(channel: seq<BridgeEvent>, ev: BridgeEvent): seq<BridgeEvent> {
    if |channel| < CHANNEL_SIZE then channel + [ev] else channel
  }

  /** What a poll after an identifier answers out of a ring over this history. */
  function SinceSpec(history: seq<BridgeEvent>, capacity: nat, after: int): seq<BridgeEvent> {
    var oldest := |history| - |Last(history, capacity)|;
    var from := Max(oldest, after);
    if from >= |history| then [] else history[from..]
  }

  /** Every channel is offered the event. */
  function Offered(subs: map<nat, seq<BridgeEvent>>, ev: BridgeEvent): (r: map<nat, seq<BridgeEvent>>)
    ensures r.Keys == subs.Keys
  {
    map s | s in subs :: Offer(subs[s], ev)
  }

  /** The hub as a value: all events so far and the channel of each subscriber. */
  datatype HubState = HubState(history: seq<BridgeEvent>, subs: map<nat, seq<BridgeEvent>>)

  datatype HubOp = Add(reader: string, card: string, sig: string) | Subscribe(channel: nat) | Cancel(channel: nat) | Take(channel: nat)

  function HubStep(h: HubState, op: HubOp): HubState {
    match op
    case Add(reader, card, sig) =>
      var ev := BridgeEvent(|h.history| + 1, reader, card, sig);
      HubState(h.history + [ev], Offered(h.subs, ev))
    case Subscribe(c) => h.(subs := h.subs[c := []])
    case Cancel(c) => h.(subs := h.subs - {c})
    case Take(c) => if c in h.subs && h.subs[c] != [] then h.(subs := h.subs[c := h.subs[c][1..]]) else h
  }

  function HubRun(h: HubState, ops: seq<HubOp>): HubState {
    if ops == [] then h else HubStep(HubRun(h, ops[..|ops| - 1]), ops[|ops| - 1])
  }

  predicate Bounded(subs: map<nat, seq<BridgeEvent>>) {
    forall s :: s in subs ==> |subs[s]| <= CHANNEL_SIZE
  }

  lemma OfferedStaysBounded(subs: map<nat, seq<BridgeEvent>>, ev: BridgeEvent)
    requires Bounded(subs)
    ensures Bounded(Offered(subs, ev))
  {}

  lemma SliceGrows(history: seq<BridgeEvent>, a: nat, b: nat)
    requires a <= b < |history|
    ensures history[a..b] + [history[b]] == history[a..b + 1]
  {}

  lemma RingAt(history: seq<BridgeEvent>, capacity: nat, i: nat)
    requires i < |Last(history, capacity)|
    ensures Last(history, capacity)[i] == history[|history| - |Last(history, capacity)| + i]
  {}

  lemma RingGrows(history: seq<BridgeEvent>, capacity: nat, ev: BridgeEvent)
    requires Numbered(history) && ev.id == |history| + 1
    ensures Numbered(history + [ev])
    ensures var buf := Last(history, capacity) + [ev];
            Last(history + [ev], capacity) == if |buf| > capacity then buf[|buf| - capacity..] else buf
  {}

  class BridgeHub {
    var next: nat
    const capacity: nat
    var buf: seq<BridgeEvent>
    var subs: map<nat, seq<BridgeEvent>>
    ghost var history: seq<BridgeEvent>

    ghost function Value(): HubState
      reads this
    {
      HubState(history, subs)
    }

    ghost predicate Valid()
      reads this
    {
      && next == |history| && Numbered(history)
      && buf == Last(history, capacity)
      && Bounded(subs)
    }

    constructor (capacity: nat)
      ensures Valid() && history == [] && subs == map[] && this.capacity == capacity
    {
      this.capacity := capacity;
      next, buf, subs, history := 0, [], map[], [];
    }

    /** Every presentation gets the next identifier, enters the ring and is offered to every subscriber. */
    method Add(reader: string, card: string, sig: string) returns (ev: BridgeEvent)
      requires Valid()
      modifies this
      ensures Valid()
      ensures ev == BridgeEvent(|old(history)| + 1, reader, card, sig) && history == old(history) + [ev]
      ensures subs == Offered(old(subs), ev)
      ensures Value() == HubStep(old(Value()), HubOp.Add(reader, card, sig))
    {
      next := next + 1;
      ev := BridgeEvent(next, reader, card, sig);
      RingGrows(history, capacity, ev);
      buf := buf + [ev];
      if |buf| > capacity {
        buf := buf[|buf| - capacity..];
      }
      history := history + [ev];
      OfferedStaysBounded(subs, ev);
      Broadcast(ev);
    }

    method Broadcast(ev: BridgeEvent)
      modifies this`subs
      ensures subs == Offered(old(subs), ev)
    {
      var todo := subs.Keys;
      while todo != {}
        invariant todo <= old(subs).Keys && subs.Keys == old(subs).Keys
        invariant forall s :: s in subs ==> subs[s] == if s in todo then old(subs)[s] else Offer(old(subs)[s], ev)
        decreases todo
      {
        var s :| s in todo;
        todo := todo - {s};
        if |subs[s]| < CHANNEL_SIZE {
          subs := subs[s := subs[s] + [ev]];
        }
      }
    }

    /** The buffered events after an identifier: the part of the history the ring still holds. */
    method Since(after: int) returns (events: seq<BridgeEvent>)
      requires Valid()
      ensures events == SinceSpec(history, capacity, after)
    {
      events := [];
      ghost var oldest := |history| - |buf|;
      ghost var from := Max(oldest, after);
      for i := 0 to |buf|
        invariant events == if oldest + i <= from then [] else history[from..oldest + i]
      {
        RingAt(history, capacity, i);
        if buf[i].id > after {
          SliceGrows(history, from, oldest + i);
          events := events + [buf[i]];
        }
      }
    }

    method Subscribe(channel: nat)
      requires Valid() && channel !in subs
      modifies this`subs
      ensures Valid() && Value() == HubStep(old(Value()), HubOp.Subscribe(channel))
    {
      subs := subs[channel := []];
    }

    method Cancel(channel: nat)
      requires Valid()
      modifies this`subs
      ensures Valid() && Value() == HubStep(old(Value()), HubOp.Cancel(channel))
    {
      subs := subs - {channel};
    }

    /** A subscriber takes the oldest event of its channel, if there is one. */
    method Take(channel: nat) returns (ev: Option<BridgeEvent>)
      requires Valid() && channel in subs
      modifies this`subs
      ensures Valid() && Value() == HubStep(old(Value()), HubOp.Take(channel))
      ensures ev == if old(subs)[channel] == [] then None else Some(old(subs)[channel][0])
    {
      var queued := subs[channel];
      if |queued| == 0 {
        return None;
      }
      subs := subs[channel := queued[1..]];
      ev := Some(queued[0]);
    }
  }

  // ---------------------------------------------------------------------------
  // A poller that advances its cursor

  /** Polls at growing history lengths, each from the identifier of the last event seen. */
  function Polled(history: seq<BridgeEvent>, capacity: nat, cursor: nat, polls: seq<nat>): seq<BridgeEvent>
    requires Advancing(cursor, polls, |history|)
    decreases |polls|
  {
    if polls == [] then []
    else
      AdvancingBounds(polls[0], polls[1..], |history|);
      SinceSpec(history[..polls[0]], capacity, cursor) + Polled(history, capacity, polls[0], polls[1..])
  }

  /** No more than the capacity arrives between two polls. */
  predicate KeepsUp(capacity: nat, cursor: nat, polls: seq<nat>)
    decreases |polls|
  {
    polls == [] || (polls[0] - cursor <= capacity && KeepsUp(capacity, polls[0], polls[1..]))
  }

  lemma OnePoll(history: seq<BridgeEvent>, capacity: nat, cursor: nat, n: nat)
    requires cursor <= n <= |history|
    ensures var seen := SinceSpec(history[..n], capacity, cursor);
            if n - cursor <= capacity then seen == history[cursor..n] else |seen| < n - cursor
  {
    assert history[..n][cursor..] == history[cursor..n];
  }

  /** Poll positions never go back and stay within the history. */
  predicate Advancing(cursor: nat, polls: seq<nat>, n: nat)
    decreases |polls|
  {
    if polls == [] then cursor <= n else cursor <= polls[0] && Advancing(polls[0], polls[1..], n)
  }

  function End(cursor: nat, polls: seq<nat>): nat {
    if polls == [] then cursor else polls[|polls| - 1]
  }

  lemma {:induction false} AdvancingBounds(cursor: nat, polls: seq<nat>, n: nat)
    requires Advancing(cursor, polls, n)
    ensures cursor <= End(cursor, polls) <= n
    decreases |polls|
  {
    if polls == [] {
    } else {
      AdvancingBounds(polls[0], polls[1..], n);
    }
  }

  lemma OnePollThenTheRest(history: seq<BridgeEvent>, capacity: nat, cursor: nat, polls: seq<nat>)
    requires polls != [] && Advancing(cursor, polls, |history|) && polls[0] <= |history|
    requires polls[0] - cursor <= capacity
    ensures Polled(history, capacity, cursor, polls) == history[cursor..polls[0]] + Polled(history, capacity, polls[0], polls[1..])
  {
    OnePoll(history, capacity, cursor, polls[0]);
  }

  lemma Chain(history: seq<BridgeEvent>, a: nat, b: nat, c: nat, rest: seq<BridgeEvent>, all: seq<BridgeEvent>)
    requires a <= b <= c <= |history|
    requires rest == history[b..c] && all == history[a..b] + rest
    ensures all == history[a..c]
  {}

  lemma PollsAfterTheFirst(capacity: nat, cursor: nat, polls: seq<nat>, n: nat)
    requires polls != [] && Advancing(cursor, polls, n) && KeepsUp(capacity, cursor, polls)
    ensures cursor <= polls[0] <= End(polls[0], polls[1..]) <= n && polls[0] - cursor <= capacity
    ensures Advancing(polls[0], polls[1..], n) && KeepsUp(capacity, polls[0], polls[1..])
    ensures End(cursor, polls) == End(polls[0], polls[1..])
  {
    AdvancingBounds(polls[0], polls[1..], n);
  }

  lemma {:induction false} KeepingUpSeesAll(history: seq<BridgeEvent>, capacity: nat, cursor: nat, polls: seq<nat>, end: nat)
    requires Advancing(cursor, polls, |history|) && KeepsUp(capacity, cursor, polls)
    requires cursor <= end <= |history| && end == End(cursor, polls)
    ensures Polled(history, capacity, cursor, polls) == history[cursor..end]
    decreases |polls|
  {
    if polls == [] {
    } else {
      PollsAfterTheFirst(capacity, cursor, polls, |history|);
      KeepingUpSeesAll(history, capacity, polls[0], polls[1..], end);
      OnePollThenTheRest(history, capacity, cursor, polls);
      Chain(history, cursor, polls[0], end, Polled(history, capacity, polls[0], polls[1..]),
            Polled(history, capacity, cursor, polls));
    }
  }

  lemma {:induction false} FallingBehindMisses(history: seq<BridgeEvent>, capacity: nat, cursor: nat, polls: seq<nat>)
    requires Advancing(cursor, polls, |history|)
    ensures cursor <= End(cursor, polls) <= |history|
    ensures |Polled(history, capacity, cursor, polls)| <= End(cursor, polls) - cursor
    ensures !KeepsUp(capacity, cursor, polls) ==> |Polled(history, capacity, cursor, polls)| < End(cursor, polls) - cursor
    decreases |polls|
  {
    AdvancingBounds(cursor, polls, |history|);
    if polls == [] {
    } else {
      AdvancingBounds(polls[0], polls[1..], |history|);
      OnePoll(history, capacity, cursor, polls[0]);
      FallingBehindMisses(history, capacity, polls[0], polls[1..]);
    }
  }

  /**
   A poller sees every event exactly once and in order if and only if at most the
   capacity arrives between two of its polls.
   */
  lemma PollerSeesAllIff(history: seq<BridgeEvent>, capacity: nat, polls: seq<nat>)
    requires Advancing(0, polls, |history|)
    ensures End(0, polls) <= |history|
    ensures Polled(history, capacity, 0, polls) == history[..End(0, polls)] <==> KeepsUp(capacity, 0, polls)
  {
    FallingBehindMisses(history, capacity, 0, polls);
    if KeepsUp(capacity, 0, polls) {
      KeepingUpSeesAll(history, capacity, 0, polls, End(0, polls));
    }
  }

  // ---------------------------------------------------------------------------
  // A subscriber

  datatype Act = Publish(ev: BridgeEvent) | Receive

  datatype Subscriber = Subscriber(channel: seq<BridgeEvent>, received: seq<BridgeEvent>, missed: seq<BridgeEvent>)

  function Step(s: Subscriber, a: Act): Subscriber {
    match a
    case Publish(ev) =>
      if Offer(s.channel, ev) == s.channel then s.(missed := s.missed + [ev]) else s.(channel := Offer(s.channel, ev))
    case Receive => if s.channel == [] then s
                    else s.(channel := s.channel[1..], received := s.received + [s.channel[0]])
  }

  function Follow(acts: seq<Act>): Subscriber {
    if acts == [] then Subscriber([], [], []) else Step(Follow(acts[..|acts| - 1]), acts[|acts| - 1])
  }

  function Published(acts: seq<Act>): seq<BridgeEvent> {
    if acts == [] then []
    else
      var n := |acts| - 1;
      Published(acts[..n]) + if acts[n].Publish? then [acts[n].ev] else []
  }

  /** Identifiers strictly increase. */
  predicate Increasing(events: seq<BridgeEvent>) {
    forall i, j :: 0 <= i < j < |events| ==> events[i].id < events[j].id
  }

  /** Some publish of the run found the channel full. */
  predicate EverFull(acts: seq<Act>) {
    acts != [] &&
    var n := |acts| - 1;
    EverFull(acts[..n]) || (acts[n].Publish? && |Follow(acts[..n]).channel| == 16)
  }

  lemma QueuedOrMissed(received: seq<BridgeEvent>, channel: seq<BridgeEvent>, missed: seq<BridgeEvent>, ev: BridgeEvent)
    ensures received + (channel + [ev]) == received + channel + [ev]
    ensures multiset(received + (channel + [ev]) + missed) == multiset(received + channel + missed) + multiset{ev}
    ensures multiset(received + channel + (missed + [ev])) == multiset(received + channel + missed) + multiset{ev}
  {
    assert received + channel + (missed + [ev]) == received + channel + missed + [ev];
  }

  lemma TakenFromTheFront(received: seq<BridgeEvent>, channel: seq<BridgeEvent>)
    requires channel != []
    ensures received + [channel[0]] + channel[1..] == received + channel
  {}

  lemma StepConserves(s: Subscriber, a: Act)
    requires |s.channel| <= CHANNEL_SIZE
    ensures var t := Step(s, a);
            && |t.channel| <= CHANNEL_SIZE
            && multiset(t.received + t.channel + t.missed)
               == multiset(s.received + s.channel + s.missed) + (if a.Publish? then multiset{a.ev} else multiset{})
            && t.received + t.channel == s.received + s.channel + (if a.Publish? && |s.channel| < CHANNEL_SIZE then [a.ev] else [])
  {
    if a.Publish? {
      QueuedOrMissed(s.received, s.channel, s.missed, a.ev);
      assert |s.channel| < CHANNEL_SIZE ==> |Offer(s.channel, a.ev)| != |s.channel|;
    } else if s.channel != [] {
      TakenFromTheFront(s.received, s.channel);
    }
  }

  /**
   Every published event is received, still queued, or missed, each exactly once; what
   is received or queued is in publication order; and events are missed exactly when a
   publish found the sixteen slots full.
   */
  lemma {:induction false} SubscriberConserves(acts: seq<Act>)
    requires Increasing(Published(acts))
    ensures var s := Follow(acts);
            && |s.channel| <= CHANNEL_SIZE
            && multiset(s.received + s.channel + s.missed) == multiset(Published(acts))
            && Increasing(s.received + s.channel)
            && (s.missed == [] <==> !EverFull(acts))
            && (!EverFull(acts) ==> s.received + s.channel == Published(acts))
  {
    if acts == [] {
    } else {
      var n := |acts| - 1;
      var before, a := Follow(acts[..n]), acts[n];
      PublishedGrows(acts);
      SubscriberConserves(acts[..n]);
      StepConserves(before, a);
      if a.Publish? {
        OrderKept(before, Published(acts[..n]), a.ev);
      }
    }
  }

  lemma PublishedGrows(acts: seq<Act>)
    requires acts != [] && Increasing(Published(acts))
    ensures var n := |acts| - 1;
            Increasing(Published(acts[..n]))
            && (acts[n].Publish? ==> forall e :: e in Published(acts[..n]) ==> e.id < acts[n].ev.id)
  {
    var n := |acts| - 1;
    var earlier, all := Published(acts[..n]), Published(acts);
    assert all[..|earlier|] == earlier;
    assert forall i :: 0 <= i < |earlier| ==> earlier[i] == all[i];
  }

  lemma OrderKept(s: Subscriber, published: seq<BridgeEvent>, ev: BridgeEvent)
    requires multiset(s.received + s.channel + s.missed) == multiset(published)
    requires Increasing(s.received + s.channel) && forall e :: e in published ==> e.id < ev.id
    ensures Increasing(s.received + s.channel + [ev])
  {
    forall i | 0 <= i < |s.received + s.channel|
      ensures (s.received + s.channel)[i].id < ev.id
    {
      assert (s.received + s.channel + s.missed)[i] == (s.received + s.channel)[i];
      assert (s.received + s.channel)[i] in multiset(published);
    }
  }

  // ---------------------------------------------------------------------------
  // A subscriber in a run of the hub

  /** The channel stays subscribed all through the run. */
  predicate Stays(channel: nat, ops: seq<HubOp>) {
    forall op :: op in ops ==> op != Subscribe(channel) && op != Cancel(channel)
  }

  /** What a run of the hub does to one subscriber. */
  function ActsOf(h: HubState, ops: seq<HubOp>, channel: nat): seq<Act> {
    if ops == [] then []
    else
      var n := |ops| - 1;
      var op := ops[n];
      ActsOf(h, ops[..n], channel) +
      if op.Add? then [Publish(BridgeEvent(|HubRun(h, ops[..n]).history| + 1, op.reader, op.card, op.sig))]
      else if op == Take(channel) then [Receive]
      else []
  }

  /** Some add of the run found the subscriber's sixteen slots full. */
  predicate EverFullIn(h: HubState, ops: seq<HubOp>, channel: nat) {
    ops != [] &&
    var n := |ops| - 1;
    var before := HubRun(h, ops[..n]);
    EverFullIn(h, ops[..n], channel)
    || (ops[n].Add? && channel in before.subs && |before.subs[channel]| == 16)
  }

  lemma FollowOneMore(acts: seq<Act>, a: Act)
    ensures Follow(acts + [a]) == Step(Follow(acts), a)
    ensures Published(acts + [a]) == Published(acts) + if a.Publish? then [a.ev] else []
    ensures EverFull(acts + [a]) <==> EverFull(acts) || (a.Publish? && |Follow(acts).channel| == CHANNEL_SIZE)
  {
    assert (acts + [a])[..|acts|] == acts;
  }

  lemma StepFollows(h: HubState, op: HubOp, channel: nat, s: Subscriber)
    requires channel in h.subs && h.subs[channel] == s.channel && op != Subscribe(channel) && op != Cancel(channel)
    ensures var next := HubStep(h, op);
            && channel in next.subs
            && next.subs[channel] == (if op.Add? then Step(s, Publish(next.history[|h.history|])).channel
                                      else if op == Take(channel) then Step(s, Receive).channel else s.channel)
  {}

  /** The hub's channel is that of the subscriber who follows the run; the events published are the hub's history. */
  lemma {:induction false} RunFollows(h: HubState, ops: seq<HubOp>, channel: nat)
    requires channel in h.subs && h.subs[channel] == [] && Stays(channel, ops)
    ensures var run, acts := HubRun(h, ops), ActsOf(h, ops, channel);
            && channel in run.subs && run.subs[channel] == Follow(acts).channel
            && h.history + Published(acts) == run.history
            && (EverFull(acts) <==> EverFullIn(h, ops, channel))
  {
    if ops == [] {
      assert h.history + [] == h.history;
    } else {
      var n := |ops| - 1;
      var op, before, acts := ops[n], HubRun(h, ops[..n]), ActsOf(h, ops[..n], channel);
      assert op in ops && forall o :: o in ops[..n] ==> o in ops;
      RunFollows(h, ops[..n], channel);
      StepFollows(before, op, channel, Follow(acts));
      if op.Add? {
        var ev := BridgeEvent(|before.history| + 1, op.reader, op.card, op.sig);
        FollowOneMore(acts, Publish(ev));
        Associate(h.history, Published(acts), [ev]);
      } else if op == Take(channel) {
        FollowOneMore(acts, Receive);
        assert Published(acts) + [] == Published(acts);
      } else {
        assert acts + [] == acts;
      }
    }
  }

  lemma {:induction false} RunKeepsNumbers(h: HubState, ops: seq<HubOp>)
    requires Numbered(h.history)
    ensures Numbered(HubRun(h, ops).history)
  {
    if ops == [] {
    } else {
      RunKeepsNumbers(h, ops[..|ops| - 1]);
    }
  }

  lemma LaterNumbersIncrease(history: seq<BridgeEvent>, earlier: seq<BridgeEvent>, later: seq<BridgeEvent>)
    requires Numbered(history) && earlier + later == history
    ensures Increasing(later)
  {
    assert forall i :: 0 <= i < |later| ==> later[i] == history[|earlier| + i];
  }

  /**
   In every run of the hub, whatever other subscribers do, a subscriber has received, has
   queued or has missed each event added since its subscription exactly once, what it
   received and has queued keeps increasing identifiers, and it missed none, so that it
   sees the whole history since, if and only if its slots were never full at an add.
   */
  lemma SubscriberOfHub(h: HubState, ops: seq<HubOp>, channel: nat)
    requires Numbered(h.history) && channel in h.subs && h.subs[channel] == [] && Stays(channel, ops)
    ensures var run, s := HubRun(h, ops), Follow(ActsOf(h, ops, channel));
            && h.history <= run.history && channel in run.subs
            && var since := run.history[|h.history|..];
            && multiset(s.received + run.subs[channel] + s.missed) == multiset(since)
            && Increasing(s.received + run.subs[channel])
            && (s.missed == [] <==> !EverFullIn(h, ops, channel))
            && (!EverFullIn(h, ops, channel) ==> s.received + run.subs[channel] == since)
  {
    var acts, run := ActsOf(h, ops, channel), HubRun(h, ops);
    RunFollows(h, ops, channel);
    RunKeepsNumbers(h, ops);
    LaterNumbersIncrease(run.history, h.history, Published(acts));
    assert run.history[|h.history|..] == Published(acts);
    SubscriberConserves(acts);
  }
}

module Dedup {
  import opened Common

  const MAX_PAIRS: nat := 1024

  /** One accepted or suppressed presentation after the startup grace. */
  datatype Call = Call(now: int, key: string)

  // ---------------------------------------------------------------------------
  // Debouncing that forgets nothing

  /** An earlier presentation of the key less than a window ago. */
  ghost predicate Recent(history: seq<Call>, window: int, now: int, key: string) {
    exists i :: 0 <= i < |history| && history[i].key == key && now - history[i].now < window
  }

  // ---------------------------------------------------------------------------
  // The bounded table

  function Fresh(last: map<string, int>, window: int, now: int): map<string, int> {
    map k | k in last && now - last[k] < window :: last[k]
  }

  /** Room for one more pair: prune the stale ones, and drop all when that does not help. */
  function MakeRoom(last: map<string, int>, window: int, now: int): map<string, int> {
    if |last| < MAX_PAIRS then last
    else if |Fresh(last, window, now)| < MAX_PAIRS then Fresh(last, window, now)
    else map[]
  }

  predicate Suppressed(last: map<string, int>, window: int, now: int, key: string) {
    key in last && now - last[key] < window
  }

  function Remember(last: map<string, int>, window: int, now: int, key: string): map<string, int> {
    (if Suppressed(last, window, now, key) then last else MakeRoom(last, window, now))[key := now]
  }

  /** Every entry is the time of an earlier presentation. */
  ghost predicate Grounded(last: map<string, int>, history: seq<Call>) {
    forall k :: k in last ==> Call(last[k], k) in history
  }

  /** No presentation that still matters is missing or too old in the table. */
  ghost predicate Complete(last: map<string, int>, history: seq<Call>, window: int, now: int) {
    forall c :: c in history && now - c.now < window ==> c.key in last && c.now <= last[c.key]
  }

  /** The distinct keys presented within the last window. */
  ghost function Active(history: seq<Call>, window: int, now: int): set<string> {
    set c | c in history && now - c.now < window :: c.key
  }

  /** A table that misses nothing answers as unbounded debouncing does. */
  lemma CompleteAnswersExactly(last: map<string, int>, history: seq<Call>, window: int, now: int, key: string)
    requires Grounded(last, history)
    ensures Suppressed(last, window, now, key) ==> Recent(history, window, now, key)
    ensures Complete(last, history, window, now) ==>
      (Suppressed(last, window, now, key) <==> Recent(history, window, now, key))
  {
    if Suppressed(last, window, now, key) {
      var i :| 0 <= i < |history| && history[i] == Call(last[key], key);
    }
    if Complete(last, history, window, now) && Recent(history, window, now, key) {
      var i :| 0 <= i < |history| && history[i].key == key && now - history[i].now < window;
      assert history[i] in history;
    }
  }

  lemma FreshIsActive(last: map<string, int>, history: seq<Call>, window: int, now: int, key: string)
    requires Grounded(last, history) && !Suppressed(last, window, now, key)
    ensures |Fresh(last, window, now)| < |Active(history, window, now) + {key}|
  {
    var fresh', active := Fresh(last, window, now).Keys, Active(history, window, now) + {key};
    forall k | k in fresh'
      ensures k in active && k != key
    {
      assert Call(last[k], k) in history;
    }
    assert fresh' + {key} <= active;
    SubsetSize(fresh' + {key}, active);
    assert |fresh' + {key}| == |fresh'| + 1;
    assert |Fresh(last, window, now)| == |fresh'|;
  }

  lemma SubsetSize(a: set<string>, b: set<string>)
    requires a <= b
    ensures |a| <= |b|
  {
    assert b == a + (b - a);
  }

  /** Pruning is invisible while no more than the limit of pairs is active in a window. */
  lemma RememberStaysComplete(last: map<string, int>, history: seq<Call>, window: int, now: int, key: string)
    requires Grounded(last, history) && Complete(last, history, window, now)
    requires |Active(history, window, now) + {key}| <= MAX_PAIRS
    requires forall c :: c in history ==> c.now <= now
    ensures Complete(Remember(last, window, now, key), history + [Call(now, key)], window, now)
  {
    if !Suppressed(last, window, now, key) {
      FreshIsActive(last, history, window, now, key);
    }
  }

  lemma RememberStaysGrounded(last: map<string, int>, history: seq<Call>, window: int, now: int, key: string)
    requires Grounded(last, history)
    ensures Grounded(Remember(last, window, now, key), history + [Call(now, key)])
  {
    forall k | k in Remember(last, window, now, key)
      ensures Call(Remember(last, window, now, key)[k], k) in history + [Call(now, key)]
    {
      assert k != key ==> Call(last[k], k) in history;
    }
  }

  lemma RememberStaysBounded(last: map<string, int>, window: int, now: int, key: string)
    requires |last| <= MAX_PAIRS
    ensures |Remember(last, window, now, key)| <= MAX_PAIRS
  {
    var base := if Suppressed(last, window, now, key) then last else MakeRoom(last, window, now);
    assert base[key := now].Keys == base.Keys + {key};
    if key in base {
      assert base.Keys + {key} == base.Keys;
    }
  }

  // ---------------------------------------------------------------------------
  // Every run of calls

  /** The presentations past the grace, which alone reach the table. */
  function Counted(calls: seq<Call>, grace: int): seq<Call> {
    if calls == [] then []
    else
      var n := |calls| - 1;
      Counted(calls[..n], grace) + if calls[n].now < grace then [] else [calls[n]]
  }

  /** The table after a run of calls, times counted from the start of the bridge. */
  function Table(calls: seq<Call>, window: int, grace: int): map<string, int> {
    if calls == [] then map[]
    else
      var n := |calls| - 1;
      var last := Table(calls[..n], window, grace);
      if calls[n].now < grace then last else Remember(last, window, calls[n].now, calls[n].key)
  }

  /** The answer to one call after a run of earlier ones. */
  predicate Allowed(calls: seq<Call>, window: int, grace: int, call: Call) {
    call.now >= grace && !Suppressed(Table(calls, window, grace), window, call.now, call.key)
  }

  /** The answer of debouncing that forgets nothing. */
  ghost predicate Debounced(calls: seq<Call>, window: int, grace: int, call: Call) {
    call.now >= grace && !Recent(Counted(calls, grace), window, call.now, call.key)
  }

  /** Time never goes back. */
  predicate Ordered(calls: seq<Call>) {
    forall i, j :: 0 <= i < j < |calls| ==> calls[i].now <= calls[j].now
  }

  /** At every call no more than the limit of pairs, its own included, is active in the window. */
  ghost predicate Moderate(calls: seq<Call>, window: int, grace: int) {
    calls != [] ==>
      var n := |calls| - 1;
      && Moderate(calls[..n], window, grace)
      && |Active(Counted(calls[..n], grace), window, calls[n].now) + {calls[n].key}| <= 1024
  }

  lemma {:induction false} CountedAreCalls(calls: seq<Call>, grace: int)
    ensures forall c :: c in Counted(calls, grace) <==> c in calls && c.now >= grace
  {
    if calls == [] {
    } else {
      var n := |calls| - 1;
      CountedAreCalls(calls[..n], grace);
      assert calls == calls[..n] + [calls[n]];
    }
  }

  /** In every run each entry of the table is a presentation, and the table never exceeds its limit. */
  lemma {:induction false} TableIsGroundedAndBounded(calls: seq<Call>, window: int, grace: int)
    ensures Grounded(Table(calls, window, grace), Counted(calls, grace))
    ensures |Table(calls, window, grace)| <= 1024
  {
    if calls == [] {
    } else {
      var n := |calls| - 1;
      TableIsGroundedAndBounded(calls[..n], window, grace);
      RememberStaysGrounded(Table(calls[..n], window, grace), Counted(calls[..n], grace), window, calls[n].now, calls[n].key);
      RememberStaysBounded(Table(calls[..n], window, grace), window, calls[n].now, calls[n].key);
    }
  }

  lemma CompleteLater(last: map<string, int>, history: seq<Call>, window: int, t: int, now: int)
    requires Complete(last, history, window, t) && t <= now
    ensures Complete(last, history, window, now)
  {}

  lemma CallKeepsComplete(last: map<string, int>, history: seq<Call>, window: int, grace: int, call: Call, now: int)
    requires Grounded(last, history) && Complete(last, history, window, call.now) && call.now <= now
    requires |Active(history, window, call.now) + {call.key}| <= MAX_PAIRS
    requires forall c :: c in history ==> c.now <= call.now
    ensures call.now < grace ==> Complete(last, history, window, now)
    ensures call.now >= grace ==> Complete(Remember(last, window, call.now, call.key), history + [call], window, now)
  {
    if call.now < grace {
      CompleteLater(last, history, window, call.now, now);
    } else {
      RememberStaysComplete(last, history, window, call.now, call.key);
      CompleteLater(Remember(last, window, call.now, call.key), history + [call], window, call.now, now);
    }
  }

  lemma LastCallKeepsComplete(calls: seq<Call>, window: int, grace: int, now: int)
    requires calls != []
    requires var n := |calls| - 1;
             var last, history := Table(calls[..n], window, grace), Counted(calls[..n], grace);
             && Grounded(last, history) && Complete(last, history, window, calls[n].now) && calls[n].now <= now
             && |Active(history, window, calls[n].now) + {calls[n].key}| <= 1024
             && forall c :: c in history ==> c.now <= calls[n].now
    ensures Complete(Table(calls, window, grace), Counted(calls, grace), window, now)
  {
    var n := |calls| - 1;
    var history := Counted(calls[..n], grace);
    CallKeepsComplete(Table(calls[..n], window, grace), history, window, grace, calls[n], now);
    assert history + [] == history;
  }

  lemma {:induction false} TableIsComplete(calls: seq<Call>, window: int, grace: int, now: int)
    requires Ordered(calls) && Moderate(calls, window, grace)
    requires forall c :: c in calls ==> c.now <= now
    ensures Complete(Table(calls, window, grace), Counted(calls, grace), window, now)
  {
    if calls != [] {
      var n := |calls| - 1;
      CountedAreCalls(calls[..n], grace);
      assert forall c :: c in calls[..n] ==> c.now <= calls[n].now;
      TableIsComplete(calls[..n], window, grace, calls[n].now);
      TableIsGroundedAndBounded(calls[..n], window, grace);
      LastCallKeepsComplete(calls, window, grace, now);
    }
  }

  /**
   In every run with non-decreasing times and no more than 1024 active pairs a window,
   the bounded table answers as unbounded debouncing does.
   */
  lemma PruningIsInvisible(calls: seq<Call>, window: int, grace: int, call: Call)
    requires Ordered(calls + [call]) && Moderate(calls, window, grace)
    ensures Allowed(calls, window, grace, call) <==> Debounced(calls, window, grace, call)
  {
    forall c | c in calls
      ensures c.now <= call.now
    {
      var i :| 0 <= i < |calls| && calls[i] == c;
      assert (calls + [call])[i] == c && (calls + [call])[|calls|] == call;
    }
    assert Ordered(calls) by {
      assert calls == (calls + [call])[..|calls|];
    }
    TableIsComplete(calls, window, grace, call.now);
    TableIsGroundedAndBounded(calls, window, grace);
    CompleteAnswersExactly(Table(calls, window, grace), Counted(calls, grace), window, call.now, call.key);
  }

  /** Without any bound on the pairs, whatever debouncing lets through is let through. */
  lemma SuppressionIsNeverInvented(calls: seq<Call>, window: int, grace: int, call: Call)
    ensures Debounced(calls, window, grace, call) ==> Allowed(calls, window, grace, call)
  {
    TableIsGroundedAndBounded(calls, window, grace);
    CompleteAnswersExactly(Table(calls, window, grace), Counted(calls, grace), window, call.now, call.key);
  }

  /** An active pair survives the call of another pair exactly when the table need not be cleared. */
  lemma ForgottenIff(last: map<string, int>, window: int, now: int, key: string, other: string)
    requires other != key && Suppressed(last, window, now, other)
    ensures Suppressed(Remember(last, window, now, key), window, now, other)
      <==> Suppressed(last, window, now, key) || |last| < MAX_PAIRS || |Fresh(last, window, now)| < MAX_PAIRS
  {
    assert other in Fresh(last, window, now);
  }

  // ---------------------------------------------------------------------------
  // Exactly when the answers are those of unbounded debouncing

  /** At every point of the run, every further call would be answered as unbounded debouncing answers it. */
  ghost predicate AnswersExactly(calls: seq<Call>, window: int, grace: int) {
    forall n: nat, call :: n <= |calls| && Ordered(calls[..n] + [call]) ==>
      (Allowed(calls[..n], window, grace, call) <==> Debounced(calls[..n], window, grace, call))
  }

  lemma {:induction false} ModeratePrefix(calls: seq<Call>, window: int, grace: int, n: nat)
    requires Moderate(calls, window, grace) && n <= |calls|
    ensures Moderate(calls[..n], window, grace)
  {
    if n == |calls| {
      assert calls[..n] == calls;
    } else {
      ModeratePrefix(calls[..|calls| - 1], window, grace, n);
      assert calls[..|calls| - 1][..n] == calls[..n];
    }
  }

  /** After moderate calls one more finds more pairs than the limit active. */
  ghost predicate Overflows(earlier: seq<Call>, call: Call, window: int, grace: int) {
    && Moderate(earlier, window, grace)
    && |Active(Counted(earlier, grace), window, call.now) + {call.key}| > 1024
  }

  lemma {:induction false} FirstOverflow(calls: seq<Call>, window: int, grace: int) returns (n: nat)
    requires !Moderate(calls, window, grace)
    ensures n < |calls| && Overflows(calls[..n], calls[n], window, grace)
  {
    n := |calls| - 1;
    if !Moderate(calls[..n], window, grace) {
      var earlier := calls[..n];
      n := FirstOverflow(earlier, window, grace);
      assert earlier[..n] == calls[..n];
    }
  }

  lemma ActiveIsFresh(last: map<string, int>, history: seq<Call>, window: int, now: int)
    requires Complete(last, history, window, now)
    ensures |Active(history, window, now)| <= |Fresh(last, window, now)| <= |last|
  {
    assert Active(history, window, now) <= Fresh(last, window, now).Keys;
    SubsetSize(Active(history, window, now), Fresh(last, window, now).Keys);
    assert Fresh(last, window, now).Keys <= last.Keys;
    SubsetSize(Fresh(last, window, now).Keys, last.Keys);
  }

  lemma SuppressedIsActive(last: map<string, int>, history: seq<Call>, window: int, now: int, key: string)
    requires Grounded(last, history) && Suppressed(last, window, now, key)
    ensures key in Active(history, window, now)
  {
    assert Call(last[key], key) in history;
  }

  /** A full table of active pairs is dropped for one more pair. */
  lemma FullTableIsCleared(last: map<string, int>, history: seq<Call>, window: int, now: int, key: string)
    requires Grounded(last, history) && Complete(last, history, window, now) && |last| <= MAX_PAIRS
    requires |Active(history, window, now) + {key}| > MAX_PAIRS
    ensures Remember(last, window, now, key) == map[key := now] && Active(history, window, now) - {key} != {}
  {
    var active := Active(history, window, now);
    ActiveIsFresh(last, history, window, now);
    assert key in active ==> active + {key} == active;
    assert |active + {key}| == |active| + 1;
    if Suppressed(last, window, now, key) {
      SuppressedIsActive(last, history, window, now, key);
      assert false;
    }
    assert active - {key} == active && active != {};
  }

  lemma OrderedPrefix(calls: seq<Call>, n: nat)
    requires Ordered(calls) && n <= |calls|
    ensures Ordered(calls[..n])
  {}

  lemma LastIsLatest(earlier: seq<Call>, call: Call)
    requires Ordered(earlier + [call])
    ensures Ordered(earlier) && forall c :: c in earlier ==> c.now <= call.now
  {
    var calls := earlier + [call];
    forall i | 0 <= i < |earlier|
      ensures earlier[i].now <= call.now && calls[i] == earlier[i]
    {
      assert calls[i].now <= calls[|earlier|].now;
    }
  }

  lemma OrderedAppend(calls: seq<Call>, call: Call)
    requires Ordered(calls) && forall c :: c in calls ==> c.now <= call.now
    ensures Ordered(calls + [call])
  {
    forall i, j | 0 <= i < j < |calls + [call]|
      ensures (calls + [call])[i].now <= (calls + [call])[j].now
    {
      assert calls[i] in calls;
    }
  }

  lemma CallReachesTable(earlier: seq<Call>, call: Call, window: int, grace: int)
    requires call.now >= grace
    ensures Table(earlier + [call], window, grace) == Remember(Table(earlier, window, grace), window, call.now, call.key)
    ensures Counted(earlier + [call], grace) == Counted(earlier, grace) + [call]
  {
    assert (earlier + [call])[..|earlier|] == earlier;
  }

  lemma ActiveIsPastGrace(earlier: seq<Call>, window: int, grace: int, now: int, key: string)
    requires key in Active(Counted(earlier, grace), window, now) && forall c :: c in earlier ==> c.now <= now
    ensures now >= grace
  {
    CountedAreCalls(earlier, grace);
  }

  lemma ActiveIsRecent(history: seq<Call>, later: seq<Call>, window: int, now: int, key: string)
    requires key in Active(history, window, now)
    ensures Recent(history + later, window, now, key)
  {
    var c :| c in history && now - c.now < window && c.key == key;
    var i :| 0 <= i < |history| && history[i] == c;
    assert (history + later)[i] == c;
  }

  /** At the first overflow the table is left with its last pair alone, and other pairs are active. */
  lemma OverflowClears(earlier: seq<Call>, call: Call, window: int, grace: int)
    requires Ordered(earlier + [call]) && Overflows(earlier, call, window, grace)
    ensures call.now >= grace
    ensures Table(earlier + [call], window, grace) == map[call.key := call.now]
    ensures Active(Counted(earlier, grace), window, call.now) - {call.key} != {}
  {
    var last, history := Table(earlier, window, grace), Counted(earlier, grace);
    LastIsLatest(earlier, call);
    TableIsComplete(earlier, window, grace, call.now);
    TableIsGroundedAndBounded(earlier, window, grace);
    FullTableIsCleared(last, history, window, call.now, call.key);
    var key :| key in Active(history, window, call.now) - {call.key};
    ActiveIsPastGrace(earlier, window, grace, call.now, key);
    CallReachesTable(earlier, call, window, grace);
  }

  /** Then every other active pair is let through once more, though it was presented within the window. */
  lemma OverflowForgets(earlier: seq<Call>, call: Call, window: int, grace: int, key: string)
    requires Ordered(earlier + [call]) && Overflows(earlier, call, window, grace)
    requires key in Active(Counted(earlier, grace), window, call.now) && key != call.key
    ensures var calls, again := earlier + [call], Call(call.now, key);
            && Ordered(calls + [again])
            && Allowed(calls, window, grace, again) && !Debounced(calls, window, grace, again)
  {
    LastIsLatest(earlier, call);
    OrderedAppend(earlier + [call], Call(call.now, key));
    OverflowClears(earlier, call, window, grace);
    CallReachesTable(earlier, call, window, grace);
    ActiveIsRecent(Counted(earlier, grace), [call], window, call.now, key);
  }

  lemma OverflowBreaksExactness(calls: seq<Call>, n: nat, window: int, grace: int)
    requires Ordered(calls) && n < |calls| && Overflows(calls[..n], calls[n], window, grace)
    ensures !AnswersExactly(calls, window, grace)
  {
    OrderedPrefix(calls, n + 1);
    assert calls[..n + 1] == calls[..n] + [calls[n]];
    OverflowClears(calls[..n], calls[n], window, grace);
    var key :| key in Active(Counted(calls[..n], grace), window, calls[n].now) - {calls[n].key};
    OverflowForgets(calls[..n], calls[n], window, grace, key);
    var again := Call(calls[n].now, key);
    assert Ordered(calls[..n + 1] + [again]) && Allowed(calls[..n + 1], window, grace, again);
  }

  /**
   The bounded table answers as unbounded debouncing does, at every point of a run and
   for every further call, if and only if the run never has more than 1024 active pairs.
   */
  lemma AnswersExactlyIffModerate(calls: seq<Call>, window: int, grace: int)
    requires Ordered(calls)
    ensures AnswersExactly(calls, window, grace) <==> Moderate(calls, window, grace)
  {
    if Moderate(calls, window, grace) {
      forall n: nat, call | n <= |calls| && Ordered(calls[..n] + [call])
        ensures Allowed(calls[..n], window, grace, call) <==> Debounced(calls[..n], window, grace, call)
      {
        ModeratePrefix(calls, window, grace, n);
        PruningIsInvisible(calls[..n], window, grace, call);
      }
    } else {
      var n := FirstOverflow(calls, window, grace);
      OverflowBreaksExactness(calls, n, window, grace);
    }
  }

  // ---------------------------------------------------------------------------
  // A burst

  function KeysOf(calls: seq<Call>): set<string> {
    set c | c in calls :: c.key
  }

  ghost predicate DistinctKeys(calls: seq<Call>) {
    forall i, j :: 0 <= i < j < |calls| ==> calls[i].key != calls[j].key
  }

  lemma {:induction false} KeysAreCounted(calls: seq<Call>)
    ensures |KeysOf(calls)| <= |calls|
    ensures DistinctKeys(calls) ==> |KeysOf(calls)| == |calls|
  {
    if calls == [] {
    } else {
      var n := |calls| - 1;
      KeysAreCounted(calls[..n]);
      assert calls == calls[..n] + [calls[n]];
      assert KeysOf(calls) == KeysOf(calls[..n]) + {calls[n].key};
      if DistinctKeys(calls) {
        assert calls[n].key !in KeysOf(calls[..n]);
      }
    }
  }

  lemma {:induction false} CountedIsShorter(calls: seq<Call>, grace: int)
    ensures |Counted(calls, grace)| <= |calls|
    ensures (forall c :: c in calls ==> c.now >= grace) ==> Counted(calls, grace) == calls
  {
    if calls == [] {
    } else {
      var n := |calls| - 1;
      CountedIsShorter(calls[..n], grace);
      assert calls == calls[..n] + [calls[n]];
    }
  }

  /** No run of at most as many calls as the limit can overflow. */
  lemma {:induction false} FewAreModerate(calls: seq<Call>, window: int, grace: int)
    requires |calls| <= MAX_PAIRS
    ensures Moderate(calls, window, grace)
  {
    if calls == [] {
    } else {
      var n := |calls| - 1;
      var history := Counted(calls[..n], grace);
      FewAreModerate(calls[..n], window, grace);
      CountedIsShorter(calls[..n], grace);
      KeysAreCounted(history);
      var active := Active(history, window, calls[n].now);
      SubsetSize(active, KeysOf(history));
      assert |active + {calls[n].key}| <= |active| + 1;
    }
  }

  lemma DistinctSplit(earlier: seq<Call>, call: Call)
    requires DistinctKeys(earlier + [call])
    ensures DistinctKeys(earlier) && call.key !in KeysOf(earlier)
  {
    var calls := earlier + [call];
    assert forall i :: 0 <= i < |earlier| ==> calls[i] == earlier[i];
    assert calls[|earlier|] == call;
    forall c | c in earlier
      ensures c.key != call.key
    {
      var i :| 0 <= i < |earlier| && earlier[i] == c;
    }
  }

  lemma BurstIsActive(earlier: seq<Call>, call: Call, window: int, grace: int)
    requires forall c :: c in earlier ==> c.now >= grace && call.now - c.now < window
    requires |earlier| == MAX_PAIRS && DistinctKeys(earlier + [call])
    ensures Active(Counted(earlier, grace), window, call.now) == KeysOf(earlier) && call.key !in KeysOf(earlier)
    ensures |KeysOf(earlier) + {call.key}| == MAX_PAIRS + 1
  {
    CountedIsShorter(earlier, grace);
    assert Active(earlier, window, call.now) == KeysOf(earlier);
    DistinctSplit(earlier, call);
    KeysAreCounted(earlier);
  }

  /**
   Whenever a pair more than the limit is presented within one window, at whatever times,
   every earlier pair is let through again at once.
   */
  lemma BurstIsForgotten(earlier: seq<Call>, call: Call, window: int, grace: int, again: Call)
    requires |earlier| == 1024 && Ordered(earlier + [call]) && DistinctKeys(earlier + [call])
    requires forall c :: c in earlier ==> c.now >= grace && call.now - c.now < window
    requires again.now == call.now && again.key in KeysOf(earlier)
    ensures Allowed(earlier + [call], window, grace, again) && !Debounced(earlier + [call], window, grace, again)
  {
    FewAreModerate(earlier, window, grace);
    BurstIsActive(earlier, call, window, grace);
    OverflowForgets(earlier, call, window, grace, again.key);
  }

  // ---------------------------------------------------------------------------
  // The table itself

  /** The table as updated in place; times are counted from the start of the bridge. */
  class BridgeDedup {
    const window: int
    const grace: int
    var last: map<string, int>
    ghost var calls: seq<Call>

    ghost predicate Valid()
      reads this
    {
      last == Table(calls, window, grace)
    }

    constructor (window: int, grace: int)
      ensures Valid() && calls == [] && this.window == window && this.grace == grace
    {
      this.window, this.grace := window, grace;
      last, calls := map[], [];
    }

    /** Whether the pair is forwarded now: past the grace, and not within a window of its last presentation. */
    method Allow(now: int, reader: string, card: string) returns (ok: bool)
      requires Valid()
      modifies this
      ensures Valid()
      ensures calls == old(calls) + [Call(now, Join(reader, card))]
      ensures ok == Allowed(old(calls), window, grace, Call(now, Join(reader, card)))
    {
      var key := Join(reader, card);
      calls := calls + [Call(now, key)];
      assert calls[..|calls| - 1] == old(calls);
      if now < grace {
        return false;
      }
      if key in last && now - last[key] < window {
        last := last[key := now];
        return false;
      }
      if |last| >= MAX_PAIRS {
        DropStale(now);
        if |last| >= MAX_PAIRS {
          last := map[];
        }
      }
      last := last[key := now];
      ok := true;
    }

    method DropStale(now: int)
      modifies this`last
      ensures last == Fresh(old(last), window, now)
    {
      var todo := last.Keys;
      while todo != {}
        invariant todo <= last.Keys <= old(last).Keys
        invariant forall k :: k in old(last) ==> (k in last <==> k in todo || now - old(last)[k] < window)
        invariant forall k :: k in last ==> last[k] == old(last)[k]
        decreases todo
      {
        var k :| k in todo;
        todo := todo - {k};
        if now - last[k] >= window {
          last := last - {k};
        }
      }
    }
  }
}

/** Watch events fed through the dedup guard into the hub. */
module Feeding {
  import opened Common
  import opened Hub
  import opened Dedup

  datatype FedEvent =
    | Insertion(reader: string, readerTag: string, serial: string, port: string, card: Option<string>)
    | Removal(reader: string)

  /** An insertion with an identified card, as it reaches the guard. */
  datatype Presentation = Presentation(now: int, reader: string, card: string)

  /** What the bridge is given: the tag derivation and, if any, the line signer. */
  datatype Services = Services(derive: (string, string, string) -> string, signer: Option<string -> string>)

  function CallOf(p: Presentation): Call {
    Call(p.now, Join(p.reader, p.card))
  }

  function CallsOf(ps: seq<Presentation>): seq<Call> {
    seq(|ps|, i requires 0 <= i < |ps| => CallOf(ps[i]))
  }

  /** The presentation an event stands for; removals and insertions without a card stand for none. */
  function Presented(services: Services, now: int, ev: FedEvent): seq<Presentation> {
    match ev
    case Removal(_) => []
    case Insertion(reader, tag, serial, port, card) =>
      if card.None? then []
      else [Presentation(now, if tag != "" then tag else services.derive(reader, serial, port), card.value)]
  }

  function SignedLine(services: Services, reader: string, card: string): string {
    if services.signer.None? then "" else (services.signer.value)("#" + reader + ":" + card)
  }

  /** The presentations the guard lets through. */
  function Forwarded(ps: seq<Presentation>, window: int, grace: int): seq<Presentation> {
    if ps == [] then []
    else
      var n := |ps| - 1;
      Forwarded(ps[..n], window, grace)
      + if Allowed(CallsOf(ps[..n]), window, grace, CallOf(ps[n])) then [ps[n]] else []
  }

  /** The events that record the presentations, each with the signature of its own line. */
  predicate Records(services: Services, history: seq<BridgeEvent>, ps: seq<Presentation>) {
    && |history| == |ps|
    && forall i :: 0 <= i < |ps| ==>
         history[i] == BridgeEvent(i + 1, ps[i].reader, ps[i].card, SignedLine(services, ps[i].reader, ps[i].card))
  }

  lemma CallsGrow(ps: seq<Presentation>, p: Presentation)
    ensures CallsOf(ps + [p]) == CallsOf(ps) + [CallOf(p)]
  {}

  lemma ForwardedGrows(ps: seq<Presentation>, p: Presentation, window: int, grace: int)
    ensures Forwarded(ps + [p], window, grace)
         == Forwarded(ps, window, grace) + if Allowed(CallsOf(ps), window, grace, CallOf(p)) then [p] else []
  {
    assert (ps + [p])[..|ps|] == ps;
  }

  lemma RecordsGrow(services: Services, history: seq<BridgeEvent>, ps: seq<Presentation>, p: Presentation, ev: BridgeEvent)
    requires Records(services, history, ps)
    requires ev == BridgeEvent(|history| + 1, p.reader, p.card, SignedLine(services, p.reader, p.card))
    ensures Records(services, history + [ev], ps + [p])
  {}

  /** What one more presentation does to calls and record, by what the guard answers. */
  lemma FeedGrows(services: Services, history: seq<BridgeEvent>, ps: seq<Presentation>, p: Presentation, window: int, grace: int)
    requires Records(services, history, Forwarded(ps, window, grace))
    ensures CallsOf(ps + [p]) == CallsOf(ps) + [CallOf(p)]
    ensures var ev := BridgeEvent(|history| + 1, p.reader, p.card, SignedLine(services, p.reader, p.card));
            Records(services, if Allowed(CallsOf(ps), window, grace, CallOf(p)) then history + [ev] else history,
                    Forwarded(ps + [p], window, grace))
  {
    CallsGrow(ps, p);
    ForwardedGrows(ps, p, window, grace);
    assert Forwarded(ps, window, grace) + [] == Forwarded(ps, window, grace);
    RecordsGrow(services, history, Forwarded(ps, window, grace), p,
                BridgeEvent(|history| + 1, p.reader, p.card, SignedLine(services, p.reader, p.card)));
  }

  lemma FeedServes(services: Services, history: seq<BridgeEvent>, ps: seq<Presentation>, p: Presentation, window: int, grace: int)
    requires Records(services, history, Forwarded(ps, window, grace)) && Allowed(CallsOf(ps), window, grace, CallOf(p))
    ensures CallsOf(ps + [p]) == CallsOf(ps) + [CallOf(p)]
    ensures Records(services,
                    history + [BridgeEvent(|history| + 1, p.reader, p.card, SignedLine(services, p.reader, p.card))],
                    Forwarded(ps + [p], window, grace))
  {
    FeedGrows(services, history, ps, p, window, grace);
  }

  lemma FeedHolds(services: Services, history: seq<BridgeEvent>, ps: seq<Presentation>, p: Presentation, window: int, grace: int)
    requires Records(services, history, Forwarded(ps, window, grace)) && !Allowed(CallsOf(ps), window, grace, CallOf(p))
    ensures CallsOf(ps + [p]) == CallsOf(ps) + [CallOf(p)]
    ensures Records(services, history, Forwarded(ps + [p], window, grace))
  {
    FeedGrows(services, history, ps, p, window, grace);
  }

  /**
   The record of one more watch event, in full: an insertion with a card is served under its
   own tag, or under the derived one when it has none, with the signature of the text made
   of tag and card; one the guard holds back, or any other event, leaves the record as it was.
   */
  lemma RecordInFull(services: Services, history: seq<BridgeEvent>, ps: seq<Presentation>, window: int, grace: int,
                     now: int, ev: FedEvent)
    requires Records(services, history, Forwarded(ps, window, grace))
    ensures var after :=
              if ev.Removal? || ev.card.None? then history
              else
                var tag := if ev.readerTag != "" then ev.readerTag else services.derive(ev.reader, ev.serial, ev.port);
                var card := ev.card.value;
                if !Allowed(CallsOf(ps), window, grace, Call(now, tag + "|" + card)) then history
                else
                  var sig := if services.signer.None? then "" else (services.signer.value)("#" + tag + ":" + card);
                  history + [BridgeEvent(|history| + 1, tag, card, sig)];
            Records(services, after, Forwarded(ps + Presented(services, now, ev), window, grace))
  {
    if ev.Removal? || ev.card.None? {
      assert ps + [] == ps;
    } else {
      var tag := if ev.readerTag != "" then ev.readerTag else services.derive(ev.reader, ev.serial, ev.port);
      FeedGrows(services, history, ps, Presentation(now, tag, ev.card.value), window, grace);
    }
  }

  /** A record is decided by what was forwarded: there is no other one. */
  lemma OneRecord(services: Services, h1: seq<BridgeEvent>, h2: seq<BridgeEvent>, ps: seq<Presentation>)
    requires Records(services, h1, ps) && Records(services, h2, ps)
    ensures h1 == h2
  {}

  class Bridge {
    const hub: BridgeHub
    const dd: BridgeDedup
    const services: Services
    ghost var presented: seq<Presentation>

    /** The hub's history is exactly the record of what the guard lets through of everything presented. */
    ghost predicate Valid()
      reads this, hub, dd
    {
      && hub.Valid() && dd.Valid()
      && dd.calls == CallsOf(presented)
      && Records(services, hub.history, Forwarded(presented, dd.window, dd.grace))
    }

    constructor (services: Services, capacity: nat, window: int, grace: int)
      ensures Valid() && fresh(hub) && fresh(dd) && presented == []
      ensures hub.capacity == capacity && dd.window == window && dd.grace == grace && this.services == services
    {
      this.services := services;
      hub := new BridgeHub(capacity);
      dd := new BridgeDedup(window, grace);
      presented := [];
    }

    /** Signs the text of a tag and a card, and hands the event to the hub. */
    method Serve(reader: string, card: string)
      requires hub.Valid()
      modifies hub
      ensures hub.Valid() && hub.subs.Keys == old(hub.subs).Keys
      ensures hub.history == old(hub.history)
           + [BridgeEvent(|old(hub.history)| + 1, reader, card, SignedLine(services, reader, card))]
    {
      var line := SignedLine(services, reader, card);
      var _ := hub.Add(reader, card, line);
    }

    method Feed(now: int, ev: FedEvent)
      requires Valid()
      modifies this, hub, dd
      ensures Valid() && presented == old(presented) + Presented(services, now, ev)
      ensures hub.subs.Keys == old(hub.subs).Keys
    {
      if ev.Removal? || ev.card.None? {
        return;
      }
      var reader := ev.readerTag;
      if reader == "" {
        reader := services.derive(ev.reader, ev.serial, ev.port);
      }
      var card := ev.card.value;
      ghost var p := Presentation(now, reader, card);
      ghost var ps, history := presented, hub.history;
      presented := presented + [p];
      var ok := dd.Allow(now, reader, card);
      if ok {
        FeedServes(services, history, ps, p, dd.window, dd.grace);
        Serve(reader, card);
      } else {
        FeedHolds(services, history, ps, p, dd.window, dd.grace);
      }
    }
  }

  lemma {:induction false} ForwardedAreCalls(ps: seq<Presentation>, window: int, grace: int, p: Presentation)
    requires p in Forwarded(ps, window, grace)
    ensures CallOf(p) in Counted(CallsOf(ps), grace)
  {
    var n := |ps| - 1;
    CallsGrow(ps[..n], ps[n]);
    assert ps == ps[..n] + [ps[n]];
    CountedAreCalls(CallsOf(ps), grace);
    assert CallsOf(ps)[n] == CallOf(ps[n]);
    if p in Forwarded(ps[..n], window, grace) {
      ForwardedAreCalls(ps[..n], window, grace, p);
      CountedAreCalls(CallsOf(ps[..n]), grace);
    }
  }

  ghost predicate Apart(ps: seq<Presentation>, window: int) {
    forall i, j :: 0 <= i < j < |ps| && CallOf(ps[i]).key == CallOf(ps[j]).key ==> ps[j].now - ps[i].now >= window
  }

  lemma ServedLater(ps: seq<Presentation>, window: int, grace: int, p: Presentation, call: Call)
    requires p in Forwarded(ps, window, grace) && CallOf(p).key == call.key
    requires Debounced(CallsOf(ps), window, grace, call)
    ensures call.now - p.now >= window
  {
    ForwardedAreCalls(ps, window, grace, p);
    var history := Counted(CallsOf(ps), grace);
    var i :| 0 <= i < |history| && history[i] == CallOf(p);
  }

  lemma ApartGrows(earlier: seq<Presentation>, window: int, p: Presentation)
    requires Apart(earlier, window)
    requires forall q :: q in earlier && CallOf(q).key == CallOf(p).key ==> p.now - q.now >= window
    ensures Apart(earlier + [p], window)
  {}

  lemma ForwardedAtEnd(ps: seq<Presentation>, window: int, grace: int)
    requires ps != []
    ensures var n := |ps| - 1;
            && Forwarded(ps, window, grace) == Forwarded(ps[..n], window, grace)
                 + (if Allowed(CallsOf(ps[..n]), window, grace, CallOf(ps[n])) then [ps[n]] else [])
            && CallsOf(ps) == CallsOf(ps[..n]) + [CallOf(ps[n])]
  {
    var n := |ps| - 1;
    assert ps == ps[..n] + [ps[n]];
    ForwardedGrows(ps[..n], ps[n], window, grace);
    CallsGrow(ps[..n], ps[n]);
  }

  /** Two served presentations of one pair are at least a window apart, at most 1024 pairs being active. */
  lemma {:induction false} ServedAreApart(ps: seq<Presentation>, window: int, grace: int)
    requires Ordered(CallsOf(ps)) && Moderate(CallsOf(ps), window, grace)
    ensures Apart(Forwarded(ps, window, grace), window)
  {
    if ps == [] {
    } else {
      var n := |ps| - 1;
      var earlier, calls, call := Forwarded(ps[..n], window, grace), CallsOf(ps[..n]), CallOf(ps[n]);
      ForwardedAtEnd(ps, window, grace);
      assert CallsOf(ps)[..n] == calls;
      OrderedPrefix(CallsOf(ps), n);
      ServedAreApart(ps[..n], window, grace);
      if Allowed(calls, window, grace, call) {
        PruningIsInvisible(calls, window, grace, call);
        forall p | p in earlier && CallOf(p).key == call.key
          ensures call.now - p.now >= window
        {
          ServedLater(ps[..n], window, grace, p, call);
        }
        ApartGrows(earlier, window, ps[n]);
      }
    }
  }
}
