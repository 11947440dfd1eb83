/**
 The conversation after the handshake, reader states and card commands over the same
 connection: the client and the daemon, joined by two FIFO streams, as a state machine
 over its atomic steps.

 Client steps follow states, waitChangeNew, waitChangeOld and the card commands
 (pcsc/ipc.go): a card command past its deadline, or one whose response is too long,
 fails and the connection goes on, its reply still owed. Daemon
 steps follow dispatch, register, registerAndDump, unregister, writeStates and
 wakeWaiters (internal/pcscfake/pcscfake.go). A daemon step that holds the server
 lock across its write is one step; one that writes after releasing the lock is two.

 Every request and reply carries the number of the client call it belongs to, and
 snapshots and signals carry the version of the reader set. Neither is on the wire:
 they exist so that the properties can be stated.
 */
module WaitProtocol {
  import opened Common

  datatype Request =
    | GetStates(call: nat)
    | Wait(call: nat, bodyLen: nat)
    | Stop(call: nat, bodyLen: nat)
    | Command(call: nat, size: nat, refused: nat) // connect, transmit, attribute or disconnect

  datatype Reply =
    | States(call: nat, version: nat)
    | Dump(call: nat, version: nat)
    | Signal(call: nat, version: nat)
    | Ack(call: nat)
    | Result(call: nat, size: nat, refused: nat) // refused: bytes the client will not read
    | Rest(call: nat, size: nat)                 // those bytes, once the client has read the others

  const STATES_SIZE := 16 * 184
  const WAIT_SIZE := 8

  /** Bytes of a reply the client is to read. */
  function Size(r: Reply): nat {
    match r
    case States(_, _) => STATES_SIZE
    case Dump(_, _) => STATES_SIZE
    case Signal(_, _) => WAIT_SIZE
    case Ack(_) => WAIT_SIZE
    case Result(_, n, _) => n
    case Rest(_, n) => n
  }

  /** How the last completed call of the client ended. */
  datatype Outcome = Fresh | GotStates | Changed | TimedOut | CardCalled

  datatype Phase =
    | Idle(last: Outcome)
    | AwaitStates
    | AwaitDump
    | AwaitSignal
    | Draining
    | AwaitCard(size: nat)
    | Desynced      // a read consumed a reply that was not its own
    | Closed        // the deadline of a states or wait command fired: the connection is torn down

  datatype Client = Client(
    minor: nat,
    phase: Phase,
    call: nat,          // number of the current or last call
    consumed: nat,       // call of the last reply read
    abandoned: seq<Debt>, // replies the client went on without: past a deadline, or refused for their length
    floor: nat,         // version when the current call sent its first request
    heard: nat,         // newest version a consumed signal was written at
    seen: nat)          // version of the last States result

  /** What a reply settles. A signal and a stop answer settle the same debt. */
  datatype Debt =
    | StatesOf(call: nat)
    | DumpOf(call: nat)
    | AnswerOf(call: nat)
    | ResultOf(call: nat, size: nat)
    | RestOf(call: nat)

  datatype Daemon = Daemon(
    minor: nat,
    registered: Option<nat>, // the waiter entry, with the call that made it
    registeredAt: nat,       // version at that registration
    busy: Option<Reply>,     // computed under the lock, not written yet
    version: nat,            // changes of the reader set so far
    wakesDue: nat,           // changes whose wakeWaiters has not run yet
    hungUp: bool)            // dispatch refused a request

  datatype System = System(client: Client, daemon: Daemon, requests: seq<Request>, replies: seq<Reply>)

  function Init(minor: nat): System {
    System(Client(minor, Idle(Fresh), 0, 0, [], 0, 0, 0),
           Daemon(minor, None, 0, None, 0, 0, false), [], [])
  }

  datatype Step =
    | Change | Wake | Serve | FinishWrite
    | CallStates | CallWait | CallCard(size: nat, refused: nat)
    | Read | ReadTooLong | SignalTimeout | DrainTimeout | CardTimeout | CommandTimeout

  predicate Awaiting(p: Phase) {
    p.AwaitStates? || p.AwaitDump? || p.AwaitSignal? || p.Draining? || p.AwaitCard?
  }

  /** The client's own card result is next, with more bytes than the client takes. */
  predicate TooLong(s: System) {
    && s.client.phase.AwaitCard? && s.replies != []
    && s.replies[0].Result? && s.replies[0].call == s.client.call && s.replies[0].refused > 0
  }

  predicate DaemonHasWork(s: System) {
    s.daemon.busy.Some? || (s.requests != [] && !s.daemon.hungUp)
  }

  predicate Enabled(s: System, a: Step) {
    match a
    case Change => true
    case Wake => s.daemon.wakesDue > 0
    case Serve => s.daemon.busy.None? && s.requests != [] && !s.daemon.hungUp
    case FinishWrite => s.daemon.busy.Some?
    case CallStates => s.client.phase.Idle?
    case CallWait => s.client.phase.Idle?
    case CallCard(_, _) => s.client.phase.Idle?
    case Read => Awaiting(s.client.phase) && s.replies != [] && !TooLong(s)
    case ReadTooLong => TooLong(s)
    case SignalTimeout => s.client.phase.AwaitSignal?
    case DrainTimeout => s.client.phase.Draining?
    case CardTimeout => s.client.phase.AwaitCard?
    case CommandTimeout => s.client.phase.AwaitStates? || s.client.phase.AwaitDump?
  }

  function WaitBody(minor: nat): nat {
    if minor >= 4 then 0 else WAIT_SIZE
  }

  /** dispatch: one request of the stream, up to the point where the server lock is released. */
  function Dispatch(s: System): System
    requires s.requests != []
  {
    var d, rest := s.daemon, s.requests[1..];
    match s.requests[0]
    case GetStates(c) =>
      s.(requests := rest, daemon := d.(busy := Some(States(c, d.version))))
    case Wait(c, n) =>
      if d.minor < 4 then
        if n != WAIT_SIZE then s.(requests := rest, daemon := d.(hungUp := true))
        else s.(requests := rest, daemon := d.(registered := Some(c), registeredAt := d.version))
      else
        s.(requests := rest, daemon := d.(registered := Some(c), registeredAt := d.version),
           replies := s.replies + [Dump(c, d.version)])
    case Stop(c, n) =>
      if d.minor < 4 && n != WAIT_SIZE then s.(requests := rest, daemon := d.(hungUp := true))
      else if d.registered.Some? then
        s.(requests := rest, daemon := d.(registered := None, busy := Some(Ack(d.registered.value))))
      else s.(requests := rest)
    case Command(c, n, refused) =>
      s.(requests := rest, daemon := d.(busy := Some(Result(c, n, refused))))
  }

  /** A blocking fixed-size read takes the oldest reply, whatever it is. */
  function Consume(s: System): System
    requires s.replies != []
  {
    var c, r := s.client, s.replies[0];
    var c' := c.(consumed := r.call);
    var next :=
      match c.phase
      case AwaitStates => if r.States? && r.call == c.call
                          then c'.(phase := Idle(GotStates), seen := r.version)
                          else c'.(phase := Desynced)
      case AwaitDump => if r.Dump? && r.call == c.call then c'.(phase := AwaitSignal)
                        else c'.(phase := Desynced)
      case AwaitSignal => if r.Signal? && r.call == c.call
                          then c'.(phase := Idle(Changed), heard := Max(c.heard, r.version))
                          else c'.(phase := Desynced)
      case Draining => if r.Signal? && r.call == c.call
                       then c'.(phase := Idle(TimedOut), heard := Max(c.heard, r.version))
                       else if r.Ack? && r.call == c.call then c'.(phase := Idle(TimedOut))
                       else c'.(phase := Desynced)
      case AwaitCard(_) => if r.Result? && r.call == c.call then c'.(phase := Idle(CardCalled))
                           else c'.(phase := Desynced)
      case _ => c;
    s.(client := next, replies := s.replies[1..])
  }

  function Apply(s: System, a: Step): System
    requires Enabled(s, a)
  {
    var c, d := s.client, s.daemon;
    match a
    case Change => s.(daemon := d.(version := d.version + 1, wakesDue := d.wakesDue + 1))
    case Wake =>
      if d.registered.Some? then
        s.(daemon := d.(wakesDue := d.wakesDue - 1, registered := None),
           replies := s.replies + [Signal(d.registered.value, d.version)])
      else s.(daemon := d.(wakesDue := d.wakesDue - 1))
    case Serve => Dispatch(s)
    case FinishWrite => s.(daemon := d.(busy := None), replies := s.replies + [d.busy.value])
    case CallStates =>
      s.(client := c.(phase := AwaitStates, call := c.call + 1, floor := d.version),
         requests := s.requests + [GetStates(c.call + 1)])
    case CallWait =>
      s.(client := c.(phase := if c.minor >= 4 then AwaitDump else AwaitSignal,
                      call := c.call + 1, floor := d.version),
         requests := s.requests + [Wait(c.call + 1, WaitBody(c.minor))])
    case CallCard(n, refused) =>
      s.(client := c.(phase := AwaitCard(n), call := c.call + 1, floor := d.version),
         requests := s.requests + [Command(c.call + 1, n, refused)])
    case Read => Consume(s)
    case ReadTooLong =>
      s.(client := c.(phase := Idle(CardCalled), consumed := c.call, abandoned := c.abandoned + [RestOf(c.call)]),
         replies := [Rest(c.call, s.replies[0].refused)] + s.replies[1..])
    case SignalTimeout =>
      s.(client := c.(phase := Draining), requests := s.requests + [Stop(c.call, WaitBody(c.minor))])
    case DrainTimeout =>
      s.(client := c.(phase := Idle(TimedOut), abandoned := c.abandoned + [AnswerOf(c.call)]))
    case CardTimeout =>
      s.(client := c.(phase := Idle(CardCalled), abandoned := c.abandoned + [ResultOf(c.call, c.phase.size)]))
    case CommandTimeout => s.(client := c.(phase := Closed))
  }

  /** The steps of a run, taken in order from a state; None when one is not enabled. */
  function Run(s: System, steps: seq<Step>): Option<System>
    decreases |steps|
  {
    if steps == [] then Some(s)
    else if Enabled(s, steps[0]) then Run(Apply(s, steps[0]), steps[1..])
    else None
  }

  // ---------------------------------------------------------------------------
  // The ledger of replies owed to the client

  function Settles(r: Reply): Debt {
    match r
    case States(c, _) => StatesOf(c)
    case Dump(c, _) => DumpOf(c)
    case Signal(c, _) => AnswerOf(c)
    case Ack(c) => AnswerOf(c)
    case Result(c, n, _) => ResultOf(c, n)
    case Rest(c, _) => RestOf(c)
  }

  function SettledBy(rs: seq<Reply>): (ds: seq<Debt>)
    ensures |ds| == |rs| && forall i :: 0 <= i < |rs| ==> ds[i] == Settles(rs[i])
  {
    seq(|rs|, i requires 0 <= i < |rs| => Settles(rs[i]))
  }

  /** An open registration owes exactly one answer: a signal or the answer to its stop. */
  function Open(reg: Option<nat>): seq<Debt> {
    if reg.Some? then [AnswerOf(reg.value)] else []
  }

  /** What serving one request settles or promises at once. */
  function Yields(reg: Option<nat>, r: Request, dumps: bool): seq<Debt> {
    match r
    case GetStates(c) => [StatesOf(c)]
    case Wait(c, _) => if dumps then [DumpOf(c)] else []
    case Stop(_, _) => Open(reg)
    case Command(c, n, _) => [ResultOf(c, n)]
  }

  function Registers(reg: Option<nat>, r: Request): Option<nat> {
    match r
    case GetStates(_) => reg
    case Wait(c, _) => Some(c)
    case Stop(_, _) => None
    case Command(_, _, _) => reg
  }

  /** Only the stop of a registration may follow it. */
  predicate Allowed(reg: Option<nat>, r: Request) {
    reg.None? || (r.Stop? && r.call == reg.value)
  }

  /** The replies of the unread requests, without the answer of a registration left open. */
  function Promised(reg: Option<nat>, reqs: seq<Request>, dumps: bool): seq<Debt>
    decreases |reqs|
  {
    if reqs == [] then []
    else Yields(reg, reqs[0], dumps) + Promised(Registers(reg, reqs[0]), reqs[1..], dumps)
  }

  /** The registration left open once every unread request is served. */
  function OpenAfter(reg: Option<nat>, reqs: seq<Request>): Option<nat>
    decreases |reqs|
  {
    if reqs == [] then reg else OpenAfter(Registers(reg, reqs[0]), reqs[1..])
  }

  predicate Disciplined(reg: Option<nat>, reqs: seq<Request>)
    decreases |reqs|
  {
    reqs == [] || (Allowed(reg, reqs[0]) && Disciplined(Registers(reg, reqs[0]), reqs[1..]))
  }

  lemma {:induction false} AppendRequest(reg: Option<nat>, reqs: seq<Request>, r: Request, dumps: bool)
    ensures OpenAfter(reg, reqs + [r]) == Registers(OpenAfter(reg, reqs), r)
    ensures Disciplined(reg, reqs + [r]) == (Disciplined(reg, reqs) && Allowed(OpenAfter(reg, reqs), r))
    ensures Promised(reg, reqs + [r], dumps) == Promised(reg, reqs, dumps) + Yields(OpenAfter(reg, reqs), r, dumps)
    decreases |reqs|
  {
    if reqs == [] {
      assert [r][1..] == [] && reqs + [r] == [r];
    } else {
      AppendRequest(Registers(reg, reqs[0]), reqs[1..], r, dumps);
      assert (reqs + [r])[1..] == reqs[1..] + [r];
    }
  }

  /** The replies the client's phase still has to read. */
  function Due(c: Client): seq<Debt> {
    match c.phase
    case AwaitStates => [StatesOf(c.call)]
    case AwaitDump => [DumpOf(c.call), AnswerOf(c.call)]
    case AwaitSignal => [AnswerOf(c.call)]
    case Draining => [AnswerOf(c.call)]
    case AwaitCard(n) => [ResultOf(c.call, n)]
    case _ => []
  }

  /** Every reply still to be read: written, computed, promised, and the open answer. */
  function Owed(s: System): seq<Debt> {
    var reg, dumps := s.daemon.registered, s.daemon.minor >= 4;
    SettledBy(s.replies) + SettledBy(Pending(s.daemon))
    + Promised(reg, s.requests, dumps) + Open(OpenAfter(reg, s.requests))
  }

  function Pending(d: Daemon): seq<Reply> {
    if d.busy.Some? then [d.busy.value] else []
  }

  // ---------------------------------------------------------------------------
  // The invariant

  predicate Live(p: Phase) {
    !p.Desynced? && !p.Closed?
  }

  /** The stop request of the current call has been sent. */
  predicate StopSent(p: Phase) {
    p.Draining? || p == Idle(TimedOut)
  }

  function Rank(r: Request): nat {
    2 * r.call + if r.Stop? then 1 else 0
  }

  /** A reply on the stream, or computed and not written yet. */
  predicate Produced(s: System, p: Reply) {
    p in s.replies || s.daemon.busy == Some(p)
  }

  /** Every reply is covered by exactly one debt, in stream order. */
  predicate Balanced(s: System) {
    Owed(s) == s.client.abandoned + Due(s.client)
  }

  predicate RegistrationInv(s: System) {
    var reg := s.daemon.registered;
    && (s.daemon.busy.Some? ==> reg.None?)
    && Disciplined(reg, s.requests)
    && (OpenAfter(reg, s.requests).Some? ==>
          OpenAfter(reg, s.requests).value == s.client.call
          && (s.client.phase.AwaitDump? || s.client.phase.AwaitSignal?))
  }

  /** Requests are unread in call order, none older than anything already produced. */
  ghost predicate OrderInv(s: System) {
    && s.client.consumed <= s.client.call
    && (forall i, j :: 0 <= i < j < |s.requests| ==> Rank(s.requests[i]) < Rank(s.requests[j]))
    && (forall r :: r in s.requests ==> s.client.consumed <= r.call <= s.client.call)
    && (forall r, p :: r in s.requests && Produced(s, p) ==> p.call <= r.call)
    && (forall p :: Produced(s, p) ==> p.call <= s.client.call)
    && (s.daemon.registered.Some? ==>
          && s.daemon.registered.value <= s.client.call
          && forall r :: r in s.requests ==> s.daemon.registered.value <= r.call)
    && (forall c :: c in s.client.abandoned ==>
          if Awaiting(s.client.phase) then c.call < s.client.call else c.call <= s.client.call)
    && (s.client.phase.Idle? && s.client.abandoned == [] ==> s.client.consumed == s.client.call)
  }

  /** A stop of the current call, and the answer to one, exist only once it was sent. */
  ghost predicate StopInv(s: System) {
    !StopSent(s.client.phase) ==>
      && (forall r :: r in s.requests && r.Stop? ==> r.call < s.client.call)
      && (forall p :: Produced(s, p) && p.Ack? ==> p.call < s.client.call)
  }

  /** Replies that tell of the reader set. */
  predicate Versioned(p: Reply) {
    p.States? || p.Dump? || p.Signal?
  }

  ghost predicate FreshInv(s: System) {
    && (forall p :: Produced(s, p) && Versioned(p) ==> p.version <= s.daemon.version)
    && (forall p :: Produced(s, p) && p.States? && p.call == s.client.call ==> s.client.floor <= p.version)
    && (s.client.phase.AwaitStates? ==> s.client.heard <= s.client.floor)
    && (s.client.phase == Idle(GotStates) ==> s.client.heard <= s.client.floor <= s.client.seen <= s.daemon.version)
  }

  ghost predicate Inv(s: System) {
    && s.client.minor == s.daemon.minor
    && !s.daemon.hungUp
    && BodiesFit(s)
    && s.client.floor <= s.daemon.version && s.client.heard <= s.daemon.version
    && (s.daemon.registered.Some? ==>
          s.daemon.registeredAt <= s.daemon.version <= s.daemon.registeredAt + s.daemon.wakesDue)
    && (s.client.phase.Desynced? ==> s.client.abandoned != [])
    && (Live(s.client.phase) ==>
          Balanced(s) && RegistrationInv(s) && OrderInv(s) && StopInv(s) && FreshInv(s))
  }

  predicate SendsOne(a: Step) {
    a.CallStates? || a.CallWait? || a.CallCard? || a.SignalTimeout?
  }

  /** The request a client step sends. */
  function Sends(c: Client, a: Step): Request
    requires SendsOne(a)
  {
    match a
    case CallStates => GetStates(c.call + 1)
    case CallWait => Wait(c.call + 1, WaitBody(c.minor))
    case CallCard(n, refused) => Command(c.call + 1, n, refused)
    case _ => Stop(c.call, WaitBody(c.minor))
  }

  lemma Regroup(before: seq<Debt>, now: seq<Debt>, later: seq<Debt>, open: seq<Debt>, stale: seq<Debt>,
                due: seq<Debt>, due': seq<Debt>)
    requires before + open == stale + due
    requires (now + later == open && due' == due) || (open == [] && due == [] && now + later == due')
    ensures before + now + later == stale + due'
  {
    assert before + now + later == before + (now + later);
    if open == [] && due == [] {
      assert before + open == before && stale + due == stale;
    }
  }

  lemma CallKeepsBalance(s: System, a: Step)
    requires s.client.minor == s.daemon.minor && Live(s.client.phase)
    requires Balanced(s) && RegistrationInv(s)
    requires SendsOne(a) && Enabled(s, a)
    ensures Balanced(Apply(s, a)) && RegistrationInv(Apply(s, a))
  {
    var s', r := Apply(s, a), Sends(s.client, a);
    var reg, dumps := s.daemon.registered, s.daemon.minor >= 4;
    AppendRequest(reg, s.requests, r, dumps);
    var written, promised := SettledBy(s.replies) + SettledBy(Pending(s.daemon)), Promised(reg, s.requests, dumps);
    var open := OpenAfter(reg, s.requests);
    Regroup(written + promised, Yields(open, r, dumps), Open(Registers(open, r)), Open(open),
            s.client.abandoned, Due(s.client), Due(s'.client));
    assert written + (promised + Yields(open, r, dumps)) == written + promised + Yields(open, r, dumps);
  }

  lemma CallKeepsOrder(s: System, a: Step)
    requires OrderInv(s)
    requires SendsOne(a) && Enabled(s, a)
    requires StopInv(s)
    ensures OrderInv(Apply(s, a))
  {
    var s', r := Apply(s, a), Sends(s.client, a);
    assert s'.requests == s.requests + [r];
    assert forall q :: q in s'.requests ==> q in s.requests || q == r;
    assert forall p :: Produced(s', p) <==> Produced(s, p);
  }

  lemma CallKeepsStop(s: System, a: Step)
    requires OrderInv(s) && StopInv(s)
    requires SendsOne(a) && Enabled(s, a)
    ensures StopInv(Apply(s, a))
  {
    var s', r := Apply(s, a), Sends(s.client, a);
    assert s'.requests == s.requests + [r];
    assert forall q :: q in s'.requests ==> q in s.requests || q == r;
    assert forall p :: Produced(s', p) <==> Produced(s, p);
  }

  lemma CallKeepsFresh(s: System, a: Step)
    requires OrderInv(s) && FreshInv(s) && s.client.heard <= s.daemon.version
    requires SendsOne(a) && Enabled(s, a)
    ensures FreshInv(Apply(s, a))
  {
    assert forall p :: Produced(Apply(s, a), p) <==> Produced(s, p);
  }

  /** Every wait and stop request carries the body its dialect asks for. */
  predicate BodiesFit(s: System) {
    forall r :: r in s.requests && (r.Wait? || r.Stop?) ==> r.bodyLen == WaitBody(s.client.minor)
  }

  lemma CallKeepsBodies(s: System, a: Step)
    requires BodiesFit(s) && SendsOne(a) && Enabled(s, a)
    ensures BodiesFit(Apply(s, a))
  {
    assert forall r :: r in Apply(s, a).requests ==> r in s.requests || r == Sends(s.client, a);
  }

  lemma CallKeepsInv(s: System, a: Step)
    requires Inv(s) && SendsOne(a) && Enabled(s, a)
    ensures Inv(Apply(s, a))
  {
    CallKeepsBalance(s, a);
    CallKeepsOrder(s, a);
    CallKeepsStop(s, a);
    CallKeepsFresh(s, a);
    CallKeepsBodies(s, a);
  }

  lemma OpenComesFirst(reg: Option<nat>, reqs: seq<Request>, dumps: bool)
    requires reg.Some? && Disciplined(reg, reqs)
    ensures Promised(reg, reqs, dumps) + Open(OpenAfter(reg, reqs))
         == Open(reg) + (Promised(None, reqs, dumps) + Open(OpenAfter(None, reqs)))
    ensures Disciplined(None, reqs) && (reqs == [] || OpenAfter(None, reqs) == OpenAfter(reg, reqs))
  {
    if reqs != [] {
      var later := Promised(None, reqs[1..], dumps);
      assert Promised(None, reqs, dumps) == [] + later == later;
      assert Promised(reg, reqs, dumps) == Open(reg) + later;
    }
  }

  lemma AssociateAll(a: seq<Debt>, b: seq<Debt>, c: seq<Debt>, d: seq<Debt>)
    ensures a + b + c + d == a + b + (c + d) == a + (b + c) + d == a + (b + (c + d))
  {}

  lemma WakeKeepsBalance(s: System)
    requires Balanced(s) && RegistrationInv(s) && Enabled(s, Wake) && s.daemon.registered.Some?
    ensures Balanced(Apply(s, Wake)) && RegistrationInv(Apply(s, Wake))
  {
    var s', reg, dumps := Apply(s, Wake), s.daemon.registered, s.daemon.minor >= 4;
    OpenComesFirst(reg, s.requests, dumps);
    var written, promised', open' := SettledBy(s.replies), Promised(None, s.requests, dumps), Open(OpenAfter(None, s.requests));
    assert SettledBy(s'.replies) == written + Open(reg);
    assert SettledBy(Pending(s.daemon)) == [];
    AssociateAll(written, [], Promised(reg, s.requests, dumps), Open(OpenAfter(reg, s.requests)));
    assert written + [] == written;
    assert Owed(s) == written + (Open(reg) + (promised' + open'));
    AssociateAll(written, Open(reg), promised', open');
    assert written + Open(reg) + [] == written + Open(reg);
  }

  lemma WakeKeepsInv(s: System)
    requires Inv(s) && Enabled(s, Wake)
    ensures Inv(Apply(s, Wake))
  {
    var s' := Apply(s, Wake);
    if s.daemon.registered.Some? && Live(s.client.phase) {
      WakeKeepsBalance(s);
      var signal := Signal(s.daemon.registered.value, s.daemon.version);
      assert forall p :: Produced(s', p) ==> Produced(s, p) || p == signal;
    }
  }

  lemma FinishWriteKeepsInv(s: System)
    requires Inv(s) && Enabled(s, FinishWrite)
    ensures Inv(Apply(s, FinishWrite))
  {
    var s' := Apply(s, FinishWrite);
    if Live(s.client.phase) {
      assert SettledBy(s'.replies) == SettledBy(s.replies) + SettledBy(Pending(s.daemon));
      assert Owed(s') == Owed(s);
      assert forall p :: Produced(s', p) <==> Produced(s, p);
    }
  }

  lemma ServeKeepsBalance(s: System)
    requires Balanced(s) && RegistrationInv(s) && Enabled(s, Serve)
    requires !Dispatch(s).daemon.hungUp
    ensures Balanced(Apply(s, Serve)) && RegistrationInv(Apply(s, Serve))
  {
    var s', head, reg, dumps := Apply(s, Serve), s.requests[0], s.daemon.registered, s.daemon.minor >= 4;
    var written, now := SettledBy(s.replies), Yields(reg, head, dumps);
    ServeWrites(s);
    AssociateAll(written, now, Promised(Registers(reg, head), s'.requests, dumps), Open(OpenAfter(reg, s.requests)));
    assert SettledBy(Pending(s.daemon)) == [] && written + [] == written;
  }

  lemma ServeWrites(s: System)
    requires RegistrationInv(s) && Enabled(s, Serve) && !Dispatch(s).daemon.hungUp
    ensures SettledBy(Dispatch(s).replies) + SettledBy(Pending(Dispatch(s).daemon))
         == SettledBy(s.replies) + Yields(s.daemon.registered, s.requests[0], s.daemon.minor >= 4)
    ensures Dispatch(s).daemon.registered == Registers(s.daemon.registered, s.requests[0])
  {
  }

  lemma ServeKeepsRequestOrder(s: System)
    requires OrderInv(s) && Enabled(s, Serve)
    ensures forall i, j :: 0 <= i < j < |s.requests| - 1 ==> Rank(s.requests[1..][i]) < Rank(s.requests[1..][j])
    ensures forall r :: r in s.requests[1..] ==> r in s.requests && s.requests[0].call <= r.call
  {
    var rest := s.requests[1..];
    forall i | 0 <= i < |rest|
      ensures s.requests[0].call <= rest[i].call && rest[i] in s.requests
    {
      assert rest[i] == s.requests[i + 1] && Rank(s.requests[0]) < Rank(s.requests[i + 1]);
    }
  }

  lemma ServeProduces(s: System, p: Reply)
    requires Enabled(s, Serve) && Produced(Apply(s, Serve), p)
    ensures Produced(s, p) || (p.Ack? && s.requests[0].Stop? && s.daemon.registered == Some(p.call))
      || (!p.Ack? && p.call == s.requests[0].call && (Versioned(p) ==> p.version == s.daemon.version))
  {
  }

  lemma ServeProducesInOrder(s: System, p: Reply)
    requires OrderInv(s) && Enabled(s, Serve) && Produced(Apply(s, Serve), p)
    ensures p.call <= s.client.call && forall r :: r in s.requests[1..] ==> p.call <= r.call
  {
    ServeProduces(s, p);
    ServeKeepsRequestOrder(s);
    assert s.requests[0] in s.requests;
  }

  lemma ServeRegistersInOrder(s: System)
    requires OrderInv(s) && Enabled(s, Serve)
    ensures var reg := Apply(s, Serve).daemon.registered;
            reg.Some? ==> reg.value <= s.client.call && forall r :: r in s.requests[1..] ==> reg.value <= r.call
  {
    ServeKeepsRequestOrder(s);
    assert s.requests[0] in s.requests;
  }

  lemma ServeKeepsOrder(s: System)
    requires OrderInv(s) && Enabled(s, Serve)
    ensures OrderInv(Apply(s, Serve))
  {
    ServeKeepsRequestOrder(s);
    ServeRegistersInOrder(s);
    forall p | Produced(Apply(s, Serve), p)
      ensures p.call <= s.client.call && forall r :: r in s.requests[1..] ==> p.call <= r.call
    {
      ServeProducesInOrder(s, p);
    }
    ServedInOrder(s, Apply(s, Serve));
  }

  lemma ServedInOrder(s: System, s': System)
    requires OrderInv(s) && s.requests != [] && s'.client == s.client && s'.requests == s.requests[1..]
    requires forall i, j :: 0 <= i < j < |s.requests| - 1 ==> Rank(s.requests[1..][i]) < Rank(s.requests[1..][j])
    requires forall r :: r in s'.requests ==> r in s.requests
    requires forall p :: Produced(s', p) ==> p.call <= s.client.call && forall r :: r in s'.requests ==> p.call <= r.call
    requires var reg := s'.daemon.registered;
             reg.Some? ==> reg.value <= s.client.call && forall r :: r in s'.requests ==> reg.value <= r.call
    ensures OrderInv(s')
  {}

  lemma ServeKeepsInv(s: System)
    requires Inv(s) && Enabled(s, Serve)
    ensures Inv(Apply(s, Serve))
  {
    var s', head := Apply(s, Serve), s.requests[0];
    assert head in s.requests;
    assert forall r :: r in s'.requests ==> r in s.requests;
    if Live(s.client.phase) {
      ServeKeepsBalance(s);
      ServeKeepsOrder(s);
      forall p | Produced(s', p)
        ensures p.Ack? && !StopSent(s.client.phase) ==> p.call < s.client.call
        ensures Versioned(p) ==> p.version <= s.daemon.version
        ensures p.States? && p.call == s.client.call ==> s.client.floor <= p.version
      {
        ServeProduces(s, p);
      }
    }
  }

  /** The reply a read takes is its own exactly when no drain was abandoned before. */
  lemma ReadMatches(s: System)
    requires Inv(s) && Enabled(s, Read)
    ensures Apply(s, Read).client.phase.Desynced? <==> s.client.abandoned != []
    ensures s.client.abandoned == [] ==> Settles(s.replies[0]) == Due(s.client)[0]
  {
    var head := s.replies[0];
    assert Owed(s)[0] == Settles(head);
    assert Produced(s, head);
    if s.client.abandoned != [] {
      assert Settles(head) == s.client.abandoned[0];
      assert s.client.abandoned[0] in s.client.abandoned;
    }
  }

  lemma FirstOfFour(a: seq<Debt>, b: seq<Debt>, c: seq<Debt>, d: seq<Debt>)
    requires a != []
    ensures (a + b + c + d)[1..] == a[1..] + b + c + d
  {}

  lemma SettledByTheRest(rs: seq<Reply>)
    requires rs != []
    ensures SettledBy(rs)[1..] == SettledBy(rs[1..])
  {}

  lemma ReadTakesTheFirstDebt(s: System)
    requires Enabled(s, Read)
    ensures Owed(Apply(s, Read)) == Owed(s)[1..]
  {
    SettledByTheRest(s.replies);
    FirstOfFour(SettledBy(s.replies), SettledBy(Pending(s.daemon)),
                Promised(s.daemon.registered, s.requests, s.daemon.minor >= 4),
                Open(OpenAfter(s.daemon.registered, s.requests)));
  }

  lemma ReadKeepsBalance(s: System)
    requires Balanced(s) && RegistrationInv(s) && Enabled(s, Read) && s.client.abandoned == []
    requires !Apply(s, Read).client.phase.Desynced?
    ensures Balanced(Apply(s, Read)) && RegistrationInv(Apply(s, Read))
  {
    ReadTakesTheFirstDebt(s);
    assert Owed(s) == Due(s.client);
  }

  lemma ReadKeepsOrder(s: System)
    requires OrderInv(s) && Enabled(s, Read) && s.client.abandoned == []
    requires s.replies[0].call == s.client.call
    ensures OrderInv(Apply(s, Read))
  {
    var s', head := Apply(s, Read), s.replies[0];
    assert Produced(s, head);
    assert forall p :: Produced(s', p) ==> Produced(s, p);
  }

  lemma ReadKeepsStop(s: System)
    requires StopInv(s) && Enabled(s, Read) && s.replies[0].call == s.client.call
    requires s.replies[0].Ack? ==> StopSent(s.client.phase)
    ensures StopInv(Apply(s, Read)) || Apply(s, Read).client.phase.Desynced?
  {
    assert forall p :: Produced(Apply(s, Read), p) ==> Produced(s, p);
  }

  lemma ReadKeepsFresh(s: System)
    requires OrderInv(s) && FreshInv(s) && Enabled(s, Read) && s.replies[0].call == s.client.call
    ensures FreshInv(Apply(s, Read))
  {
    assert Produced(s, s.replies[0]);
    assert forall p :: Produced(Apply(s, Read), p) ==> Produced(s, p);
  }

  lemma ReadKeepsInv(s: System)
    requires Inv(s) && Enabled(s, Read)
    ensures Inv(Apply(s, Read))
  {
    ReadMatches(s);
    assert Produced(s, s.replies[0]);
    if s.client.abandoned == [] {
      assert s.replies[0].call == s.client.call;
      ReadKeepsBalance(s);
      ReadKeepsOrder(s);
      ReadKeepsStop(s);
      ReadKeepsFresh(s);
    }
  }

  lemma TimeoutKeepsLedger(s: System, a: Step)
    requires Balanced(s) && RegistrationInv(s) && (a.DrainTimeout? || a.CardTimeout?) && Enabled(s, a)
    ensures Balanced(Apply(s, a)) && RegistrationInv(Apply(s, a))
  {
    var s' := Apply(s, a);
    assert s'.client.abandoned == s.client.abandoned + Due(s.client);
    assert Owed(s') == Owed(s);
  }

  lemma TimeoutKeepsOrder(s: System, a: Step)
    requires OrderInv(s) && (a.DrainTimeout? || a.CardTimeout?) && Enabled(s, a)
    ensures OrderInv(Apply(s, a))
  {
    var s', stale := Apply(s, a), s.client.abandoned;
    assert forall c :: c in s'.client.abandoned ==> c in stale || c == Due(s.client)[0];
    assert forall p :: Produced(s', p) <==> Produced(s, p);
  }

  /** Past the deadline of a drain or a card command the reply is still owed, to nobody. */
  lemma TimeoutKeepsInv(s: System, a: Step)
    requires Inv(s) && (a.DrainTimeout? || a.CardTimeout?) && Enabled(s, a)
    ensures Inv(Apply(s, a))
  {
    TimeoutKeepsLedger(s, a);
    TimeoutKeepsOrder(s, a);
    assert forall p :: Produced(Apply(s, a), p) <==> Produced(s, p);
  }

  lemma FirstIsStale(stale: seq<Debt>, due: seq<Debt>)
    requires stale != []
    ensures (stale + due)[0] == stale[0] && stale[0] in stale
  {}

  lemma OwnResultIsNotStale(s: System)
    requires OrderInv(s) && Balanced(s) && Enabled(s, ReadTooLong)
    ensures s.client.abandoned == []
  {
    assert Owed(s)[0] == Settles(s.replies[0]);
    if s.client.abandoned != [] {
      FirstIsStale(s.client.abandoned, Due(s.client));
    }
  }

  lemma TooLongKeepsOrder(s: System)
    requires OrderInv(s) && Enabled(s, ReadTooLong) && s.client.abandoned == []
    ensures OrderInv(Apply(s, ReadTooLong))
  {
    var s' := Apply(s, ReadTooLong);
    assert Produced(s, s.replies[0]);
    assert forall p :: Produced(s', p) ==> Produced(s, p) || p == s'.replies[0];
  }

  /** A result read up to the bytes the client refuses: those are what is still owed. */
  lemma TooLongKeepsInv(s: System)
    requires Inv(s) && Enabled(s, ReadTooLong)
    ensures Inv(Apply(s, ReadTooLong)) && s.client.abandoned == []
  {
    OwnResultIsNotStale(s);
    TooLongKeepsLedger(s);
    assert Owed(s) == Due(s.client);
    TooLongKeepsOrder(s);
    assert forall p :: Produced(Apply(s, ReadTooLong), p) ==> Produced(s, p) || p.Rest?;
  }

  lemma TooLongKeepsLedger(s: System)
    requires Enabled(s, ReadTooLong)
    ensures Owed(Apply(s, ReadTooLong)) == [RestOf(s.client.call)] + Owed(s)[1..]
  {
    var s' := Apply(s, ReadTooLong);
    SettledByTheRest(s.replies);
    assert SettledBy(s'.replies) == [RestOf(s.client.call)] + SettledBy(s.replies)[1..];
    FirstOfFour(SettledBy(s.replies), SettledBy(Pending(s.daemon)),
                Promised(s.daemon.registered, s.requests, s.daemon.minor >= 4),
                Open(OpenAfter(s.daemon.registered, s.requests)));
  }

  lemma ChangeKeepsInv(s: System)
    requires Inv(s)
    ensures Inv(Apply(s, Change))
  {
    assert Owed(Apply(s, Change)) == Owed(s);
    assert forall p :: Produced(Apply(s, Change), p) <==> Produced(s, p);
  }

  lemma StepKeepsInv(s: System, a: Step)
    requires Inv(s) && Enabled(s, a)
    ensures Inv(Apply(s, a))
  {
    match a
    case Change => ChangeKeepsInv(s);
    case Wake => WakeKeepsInv(s);
    case Serve => ServeKeepsInv(s);
    case FinishWrite => FinishWriteKeepsInv(s);
    case CallStates => CallKeepsInv(s, a);
    case CallWait => CallKeepsInv(s, a);
    case CallCard(_, _) => CallKeepsInv(s, a);
    case Read => ReadKeepsInv(s);
    case ReadTooLong => TooLongKeepsInv(s);
    case SignalTimeout => CallKeepsInv(s, a);
    case DrainTimeout => TimeoutKeepsInv(s, a);
    case CardTimeout => TimeoutKeepsInv(s, a);
    case CommandTimeout =>
  }

  // ---------------------------------------------------------------------------
  // What every run guarantees

  /** The client goes on without the whole of a reply. */
  predicate Abandons(a: Step) {
    a.DrainTimeout? || a.CardTimeout? || a.ReadTooLong?
  }

  /** Every drain and card reply of the run was read to its end. */
  ghost predicate AllRead(steps: seq<Step>) {
    forall a :: a in steps ==> !Abandons(a)
  }

  lemma StepAbandons(s: System, a: Step)
    requires Enabled(s, a)
    ensures Apply(s, a).client.abandoned == [] <==> s.client.abandoned == [] && !Abandons(a)
  {}

  lemma {:induction false} RunAbandons(s: System, steps: seq<Step>)
    requires Run(s, steps).Some?
    ensures Run(s, steps).value.client.abandoned == [] <==> s.client.abandoned == [] && AllRead(steps)
    decreases |steps|
  {
    if steps == [] {
    } else {
      StepAbandons(s, steps[0]);
      RunAbandons(Apply(s, steps[0]), steps[1..]);
      assert steps == [steps[0]] + steps[1..];
    }
  }

  lemma {:induction false} RunKeepsInv(s: System, steps: seq<Step>)
    requires Inv(s) && Run(s, steps).Some?
    ensures Inv(Run(s, steps).value)
    decreases |steps|
  {
    if steps == [] {
    } else {
      StepKeepsInv(s, steps[0]);
      RunKeepsInv(Apply(s, steps[0]), steps[1..]);
    }
  }

  lemma ReachedState(minor: nat, steps: seq<Step>, s: System)
    requires Run(Init(minor), steps) == Some(s)
    ensures Inv(s) && (s.client.abandoned == [] <==> AllRead(steps))
  {
    RunKeepsInv(Init(minor), steps);
    RunAbandons(Init(minor), steps);
  }

  /** The bytes the client asks for in a phase. */
  function ReadSize(p: Phase): nat {
    match p
    case AwaitStates => 2944
    case AwaitDump => 2944
    case AwaitCard(n) => n
    case _ => 8
  }

  /**
   After any run, the reply a read takes is the reply to its own call, of the size
   it asked for, exactly when every earlier drain was read to its end.
   */
  lemma EveryReadTakesItsOwnReply(minor: nat, steps: seq<Step>, s: System)
    requires Run(Init(minor), steps) == Some(s) && Enabled(s, Read)
    ensures Apply(s, Read).client.phase.Desynced? <==> !AllRead(steps)
    ensures AllRead(steps) ==>
      s.replies[0].call == s.client.call && Size(s.replies[0]) == ReadSize(s.client.phase)
  {
    ReachedState(minor, steps, s);
    ReadMatches(s);
  }

  lemma NeverDesynced(minor: nat, steps: seq<Step>, s: System)
    requires Run(Init(minor), steps) == Some(s) && AllRead(steps)
    ensures !s.client.phase.Desynced? && !s.daemon.hungUp
  {
    ReachedState(minor, steps, s);
  }

  lemma {:induction false} SilentRequestsAreStops(reg: Option<nat>, reqs: seq<Request>, dumps: bool)
    requires Disciplined(reg, reqs) && reg.None?
    requires Promised(reg, reqs, dumps) == [] && OpenAfter(reg, reqs).None?
    ensures forall r :: r in reqs ==> r.Stop?
    decreases |reqs|
  {
    if reqs == [] {
    } else {
      if reqs[0].Wait? {
        OpenComesFirst(Some(reqs[0].call), reqs[1..], dumps);
        assert false;
      }
      SilentRequestsAreStops(None, reqs[1..], dumps);
    }
  }

  /**
   Between calls nothing is in flight: no reply, no computed answer, no registration;
   only after a timeout may one stop be unread, and it will be answered by nothing.
   */
  lemma QuietBetweenCalls(s: System)
    requires Inv(s) && s.client.phase.Idle? && s.client.abandoned == []
    ensures s.replies == [] && s.daemon.busy.None? && s.daemon.registered.None?
    ensures s.requests == [] || (s.client.phase == Idle(TimedOut)
                                 && s.requests == [Stop(s.client.call, WaitBody(s.client.minor))])
  {
    assert |Owed(s)| == 0;
    assert SettledBy(Pending(s.daemon)) == [];
    var reg := s.daemon.registered;
    if reg.Some? {
      OpenComesFirst(reg, s.requests, s.daemon.minor >= 4);
      assert false;
    }
    SilentRequestsAreStops(reg, s.requests, s.daemon.minor >= 4);
    forall i | 0 <= i < |s.requests|
      ensures Rank(s.requests[i]) == 2 * s.client.call + 1
    {
      assert s.requests[i] in s.requests;
    }
  }

  lemma QuietAfterEveryCall(minor: nat, steps: seq<Step>, s: System)
    requires Run(Init(minor), steps) == Some(s) && AllRead(steps) && s.client.phase.Idle?
    ensures s.replies == [] && s.daemon.busy.None? && s.daemon.registered.None?
    ensures |s.requests| <= 1 && (s.requests != [] ==> s.client.phase == Idle(TimedOut) && s.requests[0].Stop?)
  {
    ReachedState(minor, steps, s);
    QuietBetweenCalls(s);
  }

  /**
   A States result reflects every change made before it was requested, so also every
   change made before any signal read so far, the ones a drain swallowed included.
   */
  lemma StatesReflectEverySignal(minor: nat, steps: seq<Step>, s: System)
    requires Run(Init(minor), steps) == Some(s) && s.client.phase == Idle(GotStates)
    ensures s.client.heard <= s.client.floor <= s.client.seen <= s.daemon.version
  {
    ReachedState(minor, steps, s);
  }

  /** While registered, every change not signalled yet has its wake still to run. */
  lemma RegistrationMissesNothing(minor: nat, steps: seq<Step>, s: System)
    requires Run(Init(minor), steps) == Some(s) && s.daemon.registered.Some?
    ensures s.daemon.version - s.daemon.registeredAt <= s.daemon.wakesDue
    ensures s.daemon.wakesDue == 0 ==> s.daemon.version == s.daemon.registeredAt
  {
    ReachedState(minor, steps, s);
  }

  /** Steps the daemon still has to take for the requests sent so far. */
  function Work(s: System): nat {
    2 * |s.requests| + |Pending(s.daemon)|
  }

  /** The daemon runs until it has nothing left to serve or write. */
  function Settle(s: System): System
    decreases Work(s)
  {
    if Enabled(s, FinishWrite) then Settle(Apply(s, FinishWrite))
    else if Enabled(s, Serve) then Settle(Apply(s, Serve))
    else s
  }

  lemma {:induction false} SettleKeepsInv(s: System)
    requires Inv(s)
    ensures Inv(Settle(s)) && Settle(s).client == s.client && !DaemonHasWork(Settle(s))
    decreases Work(s)
  {
    if Enabled(s, FinishWrite) {
      StepKeepsInv(s, FinishWrite);
      SettleKeepsInv(Apply(s, FinishWrite));
    } else if Enabled(s, Serve) {
      StepKeepsInv(s, Serve);
      SettleKeepsInv(Apply(s, Serve));
    }
  }

  /** After the stop request the daemon writes exactly one answer: the signal it owes or that of the stop. */
  lemma ExactlyOneAnswer(s: System)
    requires Inv(s) && s.client.phase.Draining? && s.client.abandoned == []
    ensures var s' := Settle(s);
            && |s'.replies| == 1 && s'.replies[0].call == s.client.call && (s'.replies[0].Ack? || s'.replies[0].Signal?)
            && s'.requests == [] && s'.daemon.busy.None? && s'.daemon.registered.None?
    ensures s.replies != [] ==> s.replies == Settle(s).replies
  {
    var s' := Settle(s);
    SettleKeepsInv(s);
    SettleKeepsWritten(s);
    assert Owed(s') == Due(s.client) && Owed(s') == SettledBy(s'.replies) + Open(s'.daemon.registered);
    assert Owed(s')[0] == Settles(s'.replies[0]);
  }

  /** What is written stays in front. */
  lemma {:induction false} SettleKeepsWritten(s: System)
    ensures s.replies <= Settle(s).replies
    decreases Work(s)
  {
    if Enabled(s, FinishWrite) {
      SettleKeepsWritten(Apply(s, FinishWrite));
    } else if Enabled(s, Serve) {
      SettleKeepsWritten(Apply(s, Serve));
    }
  }

  lemma OwedIsWritten(s: System)
    requires Inv(s) && !DaemonHasWork(s) && s.client.abandoned == []
    requires Awaiting(s.client.phase) && !s.client.phase.AwaitSignal?
    ensures s.replies != [] && Settles(s.replies[0]) == Due(s.client)[0]
  {
    assert s.requests == [] && SettledBy(Pending(s.daemon)) == [];
    assert Owed(s) == SettledBy(s.replies) + Open(s.daemon.registered);
    if s.replies != [] {
      assert Owed(s)[0] == Settles(s.replies[0]);
    }
  }

  /** No read the daemon owes a reply to can block forever: the reply is there once the daemon settles. */
  lemma NoReadBlocksForever(minor: nat, steps: seq<Step>, s: System)
    requires Run(Init(minor), steps) == Some(s) && AllRead(steps)
    requires Awaiting(s.client.phase) && !s.client.phase.AwaitSignal?
    ensures Settle(s).replies != [] && Settles(Settle(s).replies[0]) == Due(s.client)[0]
  {
    ReachedState(minor, steps, s);
    SettleKeepsInv(s);
    OwedIsWritten(Settle(s));
  }

  lemma ConfirmedWaitTimesOut()
    ensures var s := Run(Init(4), [CallWait, Serve, Read, SignalTimeout]); s.Some? && Enabled(s.value, DrainTimeout)
  {
    var s1 := Apply(Init(4), CallWait);
    var s2 := Apply(s1, Serve);
    var s3 := Apply(s2, Read);
    var s4 := Apply(s3, SignalTimeout);
    OneMore(s3, SignalTimeout, [], s4);
    OneMore(s2, Read, [SignalTimeout], s4);
    OneMore(s1, Serve, [Read, SignalTimeout], s4);
    OneMore(Init(4), CallWait, [Serve, Read, SignalTimeout], s4);
  }

  /** Drains are reached in both dialects: a wait whose registration was confirmed, or only sent, times out. */
  lemma DrainsAreReached()
    ensures var s := Run(Init(4), [CallWait, Serve, Read, SignalTimeout]); s.Some? && Enabled(s.value, DrainTimeout)
    ensures var s := Run(Init(3), [CallWait, SignalTimeout]); s.Some? && Enabled(s.value, DrainTimeout)
  {
    ConfirmedWaitTimesOut();
    var t1 := Apply(Init(3), CallWait);
    OneMore(t1, SignalTimeout, [], Apply(t1, SignalTimeout));
    OneMore(Init(3), CallWait, [SignalTimeout], Apply(t1, SignalTimeout));
  }

  /** So are card replies that can come late or be refused for their length. */
  lemma LateAndLongAreReached()
    ensures var s := Run(Init(4), [CallCard(32, 302), Serve, FinishWrite]);
            s.Some? && Enabled(s.value, CardTimeout) && Enabled(s.value, ReadTooLong)
  {
    var c1 := Apply(Init(4), CallCard(32, 302));
    var c2 := Apply(c1, Serve);
    var c3 := Apply(c2, FinishWrite);
    OneMore(c2, FinishWrite, [], c3);
    OneMore(c1, Serve, [FinishWrite], c3);
    OneMore(Init(4), CallCard(32, 302), [Serve, FinishWrite], c3);
  }

  lemma OneMore(s: System, a: Step, later: seq<Step>, end: System)
    requires Enabled(s, a) && Run(Apply(s, a), later) == Some(end)
    ensures Run(s, [a] + later) == Some(end)
  {
    assert ([a] + later)[1..] == later;
  }

  /**
   The hypothesis on reads is needed: whenever a drain or card deadline passes, or a
   result is refused for its length, the States call that follows reads the stale reply first.
   */
  lemma AbandonedReplyDesyncs(minor: nat, steps: seq<Step>, s: System, a: Step)
    requires Run(Init(minor), steps) == Some(s) && Abandons(a) && Enabled(s, a)
    ensures var settled := Settle(Apply(Apply(s, a), CallStates));
            Enabled(settled, Read) && Apply(settled, Read).client.phase.Desynced?
  {
    ReachedState(minor, steps, s);
    StepKeepsInv(s, a);
    StepAbandons(s, a);
    StaleReplyIsReadFirst(Apply(s, a));
  }

  lemma StaleReplyIsReadFirst(s: System)
    requires Inv(s) && s.client.phase.Idle? && s.client.abandoned != []
    ensures var settled := Settle(Apply(s, CallStates));
            Enabled(settled, Read) && Apply(settled, Read).client.phase.Desynced?
  {
    var called := Apply(s, CallStates);
    StepKeepsInv(s, CallStates);
    SettleKeepsInv(called);
    SettledIsWritten(Settle(called));
    ReadMatches(Settle(called));
  }

  /** A settled daemon has written all but the answer of an open registration. */
  lemma SettledIsWritten(s: System)
    requires Balanced(s) && RegistrationInv(s) && !DaemonHasWork(s) && !s.daemon.hungUp
    requires s.client.phase.AwaitStates? && s.client.abandoned != []
    ensures s.replies != []
  {
    assert |Owed(s)| >= 2;
  }
}
