/**
 The insistence on a card's UID (uid.go) and the card connections it opens on the way,
 over the client's byte stream (pcsc/ipc.go).

 A card service answers connects, UID exchanges and disconnects by a Behaviour, a
 deterministic function of a state of any type: quantifying over behaviours and states
 covers every sequence of answers. Each answer says how many of its bytes arrive before
 the command's deadline; the others arrive later and stay on the stream, and so does the
 payload of an answer the client refuses for its length. The next command then reads
 those bytes first. The fake daemon's reader (internal/pcscfake) is one behaviour.
 */
module Card {
  import opened Common
  import Wire

  /** An answer and how many of its bytes arrive in time. */
  datatype Timed<+T> = Timed(value: T, prompt: nat)

  /** The result code of a command that failed. */
  type ErrorCode = rv: u32 | rv != 0 witness 1

  datatype ConnectAnswer = Connected(protocol: u32) | Denied(rv: ErrorCode)

  /** A result code without payload, or the card's response. */
  datatype ExchangeAnswer = Refused(rv: ErrorCode) | Answered(bytes: seq<byte>)

  datatype Disposition = LeaveCard | ResetCard

  datatype Behaviour<!S> = Behaviour(
    connect: (S, bool) -> (S, Timed<ConnectAnswer>),  // true asks for the raw protocol
    exchange: (S, nat) -> (S, Timed<ExchangeAnswer>), // the UID request on an open handle
    close: (S, Disposition) -> (S, nat),              // how much of the answer arrives in time
    echo: (S, nat) -> seq<byte>,                      // leading bytes of an answer, which the client ignores
    read: Reading)                                    // how the client reads answers off its stream

  /** What the client makes of a connect: a handle as decoded, not necessarily the daemon's. */
  datatype Outcome = Opened(c: Connection) | Mismatch | Failed

  /** Lost stands for every failed exchange: a deadline, a result code, a refused length. */
  datatype Reply = Lost | Response(bytes: seq<byte>)

  /**
   From the unread bytes, the ignored bytes and the answer: what the client makes of it, and
   what is unread afterwards.
   */
  datatype Reading = Reading(
    connect: (seq<byte>, seq<byte>, nat, Timed<ConnectAnswer>) -> (Outcome, seq<byte>),
    exchange: (seq<byte>, seq<byte>, Timed<ExchangeAnswer>) -> (Reply, seq<byte>),
    close: (seq<byte>, seq<byte>, nat) -> seq<byte>)

  /** What happened to handles and stream so far. */
  datatype Account = Account(
    exchanges: nat,
    resets: nat,
    connects: nat,     // successful ones
    disconnects: nat,
    misuses: nat,      // exchanges or disconnects on a handle that is not open
    futile: nat,       // exchanges on a handle that already answered 63 00
    wedged: set<nat>,
    peak: nat,         // most handles open at once
    last: Reply,       // answer of the last exchange
    left: nat,         // answers that left bytes behind
    foreign: nat)      // commands that began with bytes of an earlier answer

  const NEW_ACCOUNT := Account(0, 0, 0, 0, 0, 0, {}, 0, Lost, 0, 0)

  /** The service side: card state, handle counter and handle table, the unread bytes, and the account. */
  datatype World<S> = World(state: S, handles: nat, open: set<nat>, leftover: seq<byte>, account: Account)

  datatype Connection = Connection(handle: nat, protocol: u32)

  const ATTEMPTS: nat := 3
  const ROUNDS: nat := 3
  const REOPEN_ATTEMPTS: nat := 8

  // ---------------------------------------------------------------------------
  // Answers on the stream

  const CONNECT_SIZE: nat := 152
  const HEADER_SIZE: nat := 32
  const CLOSE_SIZE: nat := 12
  const MAX_RESPONSE: nat := 264
  const INVALID_HANDLE: ErrorCode := 0x80100003
  const NO_SMARTCARD: ErrorCode := 0x8010000C
  const PROTO_MISMATCH: ErrorCode := 0x8010000F
  const COMM_DATA_LOST: ErrorCode := 0x8010002F

  /** Exactly n bytes, padded with zeros. */
  function Fit(b: seq<byte>, n: nat): (r: seq<byte>)
    ensures |r| == n
    decreases n
  {
    if n == 0 then [] else if b == [] then [0] + Fit(b, n - 1) else [b[0]] + Fit(b[1..], n - 1)
  }

  const CONNECT_HEAD: nat := 140
  const CONNECT_PARTS: seq<nat> := [140, 12]
  const HEADER_HEAD: nat := 24
  const HEADER_PARTS: seq<nat> := [24, 8]

  /** What the client ignores, then handle, protocol and result code. */
  function ConnectBytes(echo: seq<byte>, handle: nat, protocol: u32, rv: u32): seq<byte> {
    Wire.Joined([Fit(echo, CONNECT_HEAD), Wire.PackLE([handle % 0x1_0000_0000, protocol, rv])])
  }

  /** What the client ignores, then the length of the payload and the result code. */
  function HeaderBytes(echo: seq<byte>, length: u32, rv: u32): seq<byte> {
    Wire.Joined([Fit(echo, HEADER_HEAD), Wire.PackLE([length, rv])])
  }

  /** The header of a transmit answer, and its payload. */
  function ExchangeBytes(echo: seq<byte>, answer: ExchangeAnswer): seq<byte> {
    HeaderBytes(echo, Length(answer), if answer.Refused? then answer.rv else 0) + Payload(answer)
  }

  /** The announced length is a uint32 conversion. */
  function Length(answer: ExchangeAnswer): u32 {
    |Payload(answer)| % 0x1_0000_0000
  }

  function Payload(answer: ExchangeAnswer): seq<byte> {
    if answer.Refused? then [] else answer.bytes
  }

  function InTime(own: seq<byte>, prompt: nat): seq<byte> {
    if prompt >= |own| then own else own[..prompt]
  }

  function TooLate(own: seq<byte>, prompt: nat): seq<byte> {
    if prompt >= |own| then [] else own[prompt..]
  }

  /** A connect answer by its result code. */
  function OutcomeOf(handle: nat, protocol: u32, rv: u32): Outcome {
    if rv == 0 then Opened(Connection(handle, protocol)) else if rv == PROTO_MISMATCH then Mismatch else Failed
  }

  function ReadConnect(arrived: seq<byte>): (Outcome, seq<byte>) {
    var r := Wire.ReadParts(arrived, CONNECT_PARTS);
    if |r.parts| < 2 then (Failed, r.rest)
    else var words := Wire.Words(r.parts[1]); (OutcomeOf(words[0], words[1], words[2]), r.rest)
  }

  /** The payload a header announces; an announced length above the buffer is refused unread. */
  function ReadPayload(length: u32, rv: u32, arrived: seq<byte>): (Reply, seq<byte>) {
    if rv != 0 || length > MAX_RESPONSE then (Lost, arrived)
    else
      var p := Wire.ReadParts(arrived, [length]);
      (if p.parts == [] then Lost else Response(p.parts[0]), p.rest)
  }

  function ReadExchange(arrived: seq<byte>): (Reply, seq<byte>) {
    var r := Wire.ReadParts(arrived, HEADER_PARTS);
    if |r.parts| < 2 then (Lost, r.rest)
    else var words := Wire.Words(r.parts[1]); ReadPayload(words[0], words[1], r.rest)
  }

  function ReadClose(arrived: seq<byte>): seq<byte> {
    Wire.ReadParts(arrived, [CLOSE_SIZE]).rest
  }

  function RvOf(answer: ConnectAnswer): u32 {
    match answer
    case Connected(_) => 0
    case Denied(rv) => rv
  }

  /** Part of the answer is still to come, or too long to be read. */
  predicate ConnectLeaves(answer: Timed<ConnectAnswer>) {
    answer.prompt < CONNECT_SIZE
  }

  predicate ExchangeLeaves(answer: Timed<ExchangeAnswer>) {
    answer.prompt < HEADER_SIZE + |Payload(answer.value)| || |Payload(answer.value)| > MAX_RESPONSE
  }

  /** The client's side of a connect: on an empty stream it reads the answer it was given. */
  function ConnectRead(leftover: seq<byte>, echo: seq<byte>, handle: nat, answer: Timed<ConnectAnswer>): (Outcome, seq<byte>) {
    var protocol := if answer.value.Connected? then answer.value.protocol else 0;
    if leftover == [] && !ConnectLeaves(answer) then (OwnOutcome(handle, answer.value), [])
    else
      var own := ConnectBytes(echo, handle, protocol, RvOf(answer.value));
      var (outcome, rest) := ReadConnect(leftover + InTime(own, answer.prompt));
      (outcome, rest + TooLate(own, answer.prompt))
  }

  /** The client's side of an exchange: on an empty stream it reads the answer it was given. */
  function ExchangeRead(leftover: seq<byte>, echo: seq<byte>, answer: Timed<ExchangeAnswer>): (Reply, seq<byte>) {
    if leftover == [] && !ExchangeLeaves(answer) then
      (OwnReply(answer.value), [])
    else
      var own := ExchangeBytes(echo, answer.value);
      var (reply, rest) := ReadExchange(leftover + InTime(own, answer.prompt));
      (reply, rest + TooLate(own, answer.prompt))
  }

  function CloseRead(leftover: seq<byte>, echo: seq<byte>, prompt: nat): seq<byte> {
    if leftover == [] && prompt >= CLOSE_SIZE then []
    else
      var own := Fit(echo, CLOSE_SIZE);
      ReadClose(leftover + InTime(own, prompt)) + TooLate(own, prompt)
  }

  /** The client's reads of pcsc/ipc.go. */
  const BYTES := Reading(ConnectRead, ExchangeRead, CloseRead)

  /**
   On an empty stream an answer that came whole and fits is read as given and leaves the
   stream empty; every other one leaves bytes there.
   */
  ghost predicate Faithful(read: Reading) {
    && (forall echo: seq<byte>, handle: nat, answer: Timed<ConnectAnswer>
          {:trigger ConnectRight(read.connect([], echo, handle, answer), handle, answer)} ::
          ConnectRight(read.connect([], echo, handle, answer), handle, answer))
    && (forall echo: seq<byte>, answer: Timed<ExchangeAnswer>
          {:trigger ExchangeRight(read.exchange([], echo, answer), answer)} ::
          ExchangeRight(read.exchange([], echo, answer), answer))
    && (forall echo: seq<byte>, prompt: nat
          {:trigger CloseRight(read.close([], echo, prompt), prompt)} ::
          CloseRight(read.close([], echo, prompt), prompt))
  }

  predicate ConnectRight(seen: (Outcome, seq<byte>), handle: nat, answer: Timed<ConnectAnswer>) {
    if ConnectLeaves(answer) then seen.1 != [] else seen == (OwnOutcome(handle, answer.value), [])
  }

  predicate ExchangeRight(seen: (Reply, seq<byte>), answer: Timed<ExchangeAnswer>) {
    if ExchangeLeaves(answer) then seen.1 != [] else seen == (OwnReply(answer.value), [])
  }

  predicate CloseRight(left: seq<byte>, prompt: nat) {
    left == [] <==> prompt >= CLOSE_SIZE
  }

  function OwnOutcome(handle: nat, answer: ConnectAnswer): Outcome {
    match answer
    case Connected(protocol) => Opened(Connection(handle, protocol))
    case Denied(rv) => if rv == PROTO_MISMATCH then Mismatch else Failed
  }

  function OwnReply(answer: ExchangeAnswer): Reply {
    match answer
    case Refused(_) => Lost
    case Answered(bytes) => Response(bytes)
  }

  // ---------------------------------------------------------------------------
  // Single service operations

  /** One more command on the stream. */
  function Noted<S>(w: World<S>, leaves: bool): Account {
    w.account.(left := w.account.left + if leaves then 1 else 0,
               foreign := w.account.foreign + if w.leftover != [] then 1 else 0)
  }

  function Connect<S>(b: Behaviour<S>, w: World<S>, raw: bool): (World<S>, Outcome) {
    var (s, answer) := b.connect(w.state, raw);
    var handle := if answer.value.Connected? then w.handles + 1 else 0;
    var (outcome, left) := b.read.connect(w.leftover, b.echo(s, CONNECT_HEAD), handle, answer);
    var acct := Noted(w, ConnectLeaves(answer));
    if answer.value.Connected? then
      (World(s, handle, w.open + {handle}, left,
             acct.(connects := acct.connects + 1, peak := Max(acct.peak, |w.open + {handle}|))), outcome)
    else (World(s, w.handles, w.open, left, acct), outcome)
  }

  /** A connect, asked again with the raw protocol when the card negotiates none. */
  function Attempt<S>(b: Behaviour<S>, w: World<S>, raw: bool): (World<S>, Option<Connection>)
    decreases !raw
  {
    var (w', outcome) := Connect(b, w, raw);
    if outcome.Mismatch? && !raw then Attempt(b, w', true)
    else (w', if outcome.Opened? then Some(outcome.c) else None)
  }

  predicate IsWedgedReply(r: Reply) {
    r.Response? && |r.bytes| >= 2 && r.bytes[|r.bytes| - 2..] == [0x63, 0x00]
  }

  function Exchange<S>(b: Behaviour<S>, w: World<S>, h: nat): (World<S>, Reply) {
    var (s, answer) := if h in w.open then b.exchange(w.state, h) else (w.state, Timed(Refused(INVALID_HANDLE), HEADER_SIZE));
    var (reply, left) := b.read.exchange(w.leftover, b.echo(s, HEADER_HEAD), answer);
    var acct := Noted(w, ExchangeLeaves(answer));
    (w.(state := s, leftover := left,
        account := acct.(exchanges := acct.exchanges + 1,
                         misuses := acct.misuses + if h in w.open then 0 else 1,
                         futile := acct.futile + if h in acct.wedged then 1 else 0,
                         wedged := acct.wedged + (if IsWedgedReply(reply) then {h} else {}),
                         last := reply)),
     reply)
  }

  function Disconnect<S>(b: Behaviour<S>, w: World<S>, h: nat, d: Disposition): World<S> {
    var (s, prompt) := if h in w.open then b.close(w.state, d) else (w.state, CLOSE_SIZE);
    var acct := Noted(w, prompt < CLOSE_SIZE);
    w.(state := s,
       open := w.open - {h},
       leftover := b.read.close(w.leftover, b.echo(s, CLOSE_SIZE), prompt),
       account := acct.(resets := acct.resets + if d.ResetCard? then 1 else 0,
                        disconnects := acct.disconnects + 1,
                        misuses := acct.misuses + if h in w.open then 0 else 1))
  }

  // ---------------------------------------------------------------------------
  // The policy

  /** A fresh random UID per activation, ISO/IEC 14443-3: it identifies nothing. */
  predicate IsRandomUID(uid: seq<byte>) {
    |uid| == 4 && uid[0] == 0x08
  }

  datatype Verdict = Final(uid: seq<byte>) | Wedged | Suspect

  function Classify(r: Reply): Verdict {
    if r.Lost? || |r.bytes| < 2 then Suspect
    else
      var n := |r.bytes| - 2;
      if r.bytes[n..] != [0x90, 0x00] then if IsWedgedReply(r) then Wedged else Suspect
      else if n == 0 then Suspect
      else if IsRandomUID(r.bytes[..n]) then Final([])
      else Final(r.bytes[..n])
  }

  function OpenWithin<S>(b: Behaviour<S>, w: World<S>, attempts: nat): (World<S>, Option<Connection>)
    requires attempts > 0
    decreases attempts
  {
    var (w', c) := Attempt(b, w, false);
    if c.Some? || attempts == 1 then (w', c) else OpenWithin(b, w', attempts - 1)
  }

  /** None: the connection gave no final answer. */
  function TransmitWithin<S>(b: Behaviour<S>, w: World<S>, h: nat, attempts: nat): (World<S>, Option<seq<byte>>)
    requires attempts > 0
    decreases attempts
  {
    var (w', reply) := Exchange(b, w, h);
    match Classify(reply)
    case Final(uid) => (w', Some(uid))
    case Wedged => (w', None)
    case Suspect => if attempts == 1 then (w', None) else TransmitWithin(b, w', h, attempts - 1)
  }

  datatype Insisted = Insisted(uid: seq<byte>, protocol: u32, live: Option<Connection>)

  function InsistWithin<S>(b: Behaviour<S>, w: World<S>, c: Connection, rounds: nat): (World<S>, Insisted)
    requires rounds > 0
    decreases rounds
  {
    var (w1, uid) := TransmitWithin(b, w, c.handle, ATTEMPTS);
    if uid.Some? then (w1, Insisted(uid.value, c.protocol, Some(c)))
    else if rounds == 1 then (w1, Insisted([], c.protocol, Some(c)))
    else
      var (w2, next) := OpenWithin(b, Disconnect(b, w1, c.handle, ResetCard), REOPEN_ATTEMPTS);
      if next.None? then (w2, Insisted([], c.protocol, None))
      else InsistWithin(b, w2, next.value, rounds - 1)
  }

  /** Exchanges that only make USB traffic: their answers are ignored. */
  function Pin<S>(b: Behaviour<S>, w: World<S>, h: nat, n: nat): World<S>
    decreases n
  {
    if n == 0 then w else Pin(b, Exchange(b, w, h).0, h, n - 1)
  }

  /** The card side of one probe; None when the card could not be connected at all. */
  function ProbeCard<S>(b: Behaviour<S>, w: World<S>, pins: nat): (World<S>, Option<Insisted>) {
    var (w1, c) := OpenWithin(b, w, ATTEMPTS);
    if c.None? then (w1, None)
    else
      var (w2, r) := InsistWithin(b, w1, c.value, ROUNDS);
      if r.live.None? then (w2, Some(r))
      else
        var h := r.live.value.handle;
        (Disconnect(b, Pin(b, w2, h, pins), h, LeaveCard), Some(r))
  }

  // ---------------------------------------------------------------------------
  // The client code over a service object

  class Service<S> {
    const behaviour: Behaviour<S>
    var state: S
    var handles: nat
    var open: set<nat>
    var stream: seq<byte>
    ghost var account: Account

    ghost function Value(): World<S>
      reads this
    {
      World(state, handles, open, stream, account)
    }

    constructor (behaviour: Behaviour<S>, state: S)
      ensures this.behaviour == behaviour
      ensures Value() == World(state, 0, {}, [], NEW_ACCOUNT)
    {
      this.behaviour, this.state := behaviour, state;
      handles, open, stream := 0, {}, [];
      account := NEW_ACCOUNT;
    }

    /** A new connection to the daemon: nothing is on its stream. */
    method Redial()
      modifies this`stream
      ensures Value() == old(Value()).(leftover := [])
    {
      stream := [];
    }

    /** One connect command: the daemon opens a handle if it can, the client reads what comes. */
    method ConnectOnce(raw: bool) returns (outcome: Outcome)
      modifies this
      ensures (Value(), outcome) == Connect(behaviour, old(Value()), raw)
    {
      var (s, answer) := behaviour.connect(state, raw);
      account := Noted(Value(), ConnectLeaves(answer));
      state := s;
      var handle := 0;
      if answer.value.Connected? {
        handles := handles + 1;
        handle := handles;
        open := open + {handle};
        account := account.(connects := account.connects + 1, peak := Max(account.peak, |open|));
      }
      var (o, left) := behaviour.read.connect(stream, behaviour.echo(s, CONNECT_HEAD), handle, answer);
      outcome, stream := o, left;
    }

    method ConnectCard() returns (c: Option<Connection>)
      modifies this
      ensures (Value(), c) == Attempt(behaviour, old(Value()), false)
    {
      var outcome := ConnectOnce(false);
      if outcome.Mismatch? {
        outcome := ConnectOnce(true);
      }
      if outcome.Opened? {
        return Some(outcome.c);
      }
      return None;
    }

    method Transmit(h: nat) returns (reply: Reply)
      modifies this
      ensures (Value(), reply) == Exchange(behaviour, old(Value()), h)
    {
      var known := h in open;
      var (s, answer) := if known then behaviour.exchange(state, h) else (state, Timed(Refused(INVALID_HANDLE), HEADER_SIZE));
      account := Noted(Value(), ExchangeLeaves(answer));
      state := s;
      var (r, left) := behaviour.read.exchange(stream, behaviour.echo(s, HEADER_HEAD), answer);
      reply, stream := r, left;
      account := account.(exchanges := account.exchanges + 1,
                          misuses := account.misuses + if known then 0 else 1,
                          futile := account.futile + if h in account.wedged then 1 else 0,
                          wedged := account.wedged + (if IsWedgedReply(reply) then {h} else {}), last := reply);
    }

    method Close(h: nat, d: Disposition)
      modifies this
      ensures Value() == Disconnect(behaviour, old(Value()), h, d)
    {
      var known := h in open;
      var (s, prompt) := if known then behaviour.close(state, d) else (state, CLOSE_SIZE);
      account := Noted(Value(), prompt < CLOSE_SIZE);
      state := s;
      stream := behaviour.read.close(stream, behaviour.echo(s, CLOSE_SIZE), prompt);
      open := open - {h};
      account := account.(resets := account.resets + if d.ResetCard? then 1 else 0,
                          disconnects := account.disconnects + 1,
                          misuses := account.misuses + if known then 0 else 1);
    }

    /** openCard, and reopenCardAfterReset with its larger budget. */
    method OpenCard(attempts: nat) returns (c: Option<Connection>)
      requires attempts > 0
      modifies this
      ensures (Value(), c) == OpenWithin(behaviour, old(Value()), attempts)
    {
      var attempt := 1;
      while true
        invariant 1 <= attempt <= attempts
        invariant OpenWithin(behaviour, Value(), attempts - attempt + 1)
               == OpenWithin(behaviour, old(Value()), attempts)
        decreases attempts - attempt
      {
        c := ConnectCard();
        if c.Some? {
          return;
        }
        if attempt >= attempts {
          return None;
        }
        attempt := attempt + 1;
      }
    }

    method UidExchange(h: nat) returns (uid: seq<byte>, done: bool, wedged: bool)
      modifies this
      ensures var (w, reply) := Exchange(behaviour, old(Value()), h);
              Value() == w &&
              match Classify(reply)
              case Final(u) => done && !wedged && uid == u
              case Wedged => !done && wedged
              case Suspect => !done && !wedged
    {
      var resp := Transmit(h);
      if resp.Lost? {
        return [], false, false;
      }
      if |resp.bytes| < 2 {
        return [], false, false;
      }
      var sw1, sw2 := resp.bytes[|resp.bytes| - 2], resp.bytes[|resp.bytes| - 1];
      assert resp.bytes[|resp.bytes| - 2..] == [sw1, sw2];
      if sw1 != 0x90 || sw2 != 0x00 {
        return [], false, sw1 == 0x63 && sw2 == 0x00;
      }
      uid := resp.bytes[..|resp.bytes| - 2];
      if |uid| == 0 {
        return [], false, false;
      }
      if IsRandomUID(uid) {
        return [], true, false;
      }
      return uid, true, false;
    }

    method TransmitUID(c: Connection) returns (uid: seq<byte>, done: bool)
      modifies this
      ensures var (w, final) := TransmitWithin(behaviour, old(Value()), c.handle, ATTEMPTS);
              Value() == w && done == final.Some? && uid == if done then final.value else []
    {
      var attempt := 1;
      while true
        invariant 1 <= attempt <= ATTEMPTS
        invariant TransmitWithin(behaviour, Value(), c.handle, ATTEMPTS - attempt + 1)
               == TransmitWithin(behaviour, old(Value()), c.handle, ATTEMPTS)
        decreases ATTEMPTS - attempt
      {
        var answer, final, wedged := UidExchange(c.handle);
        if final {
          return answer, true;
        }
        if wedged {
          return [], false;
        }
        if attempt >= ATTEMPTS {
          return [], false;
        }
        attempt := attempt + 1;
      }
    }

    method InsistUID(c: Connection) returns (r: Insisted)
      modifies this
      ensures (Value(), r) == InsistWithin(behaviour, old(Value()), c, ROUNDS)
    {
      var live := c;
      var round := 1;
      while true
        invariant 1 <= round <= ROUNDS
        invariant InsistWithin(behaviour, Value(), live, ROUNDS - round + 1)
               == InsistWithin(behaviour, old(Value()), c, ROUNDS)
        decreases ROUNDS - round
      {
        var uid, done := TransmitUID(live);
        if done {
          return Insisted(uid, live.protocol, Some(live));
        }
        if round >= ROUNDS {
          return Insisted([], live.protocol, Some(live));
        }
        Close(live.handle, ResetCard);
        var next := OpenCard(REOPEN_ATTEMPTS);
        if next.None? {
          return Insisted([], live.protocol, None);
        }
        live := next.value;
        round := round + 1;
      }
    }

    /** Exchanges whose only purpose is the USB traffic they make. */
    method PinTraffic(h: nat, exchanges: nat)
      modifies this
      ensures Value() == Pin(behaviour, old(Value()), h, exchanges)
    {
      for pinned := 0 to exchanges
        invariant Pin(behaviour, Value(), h, exchanges - pinned) == Pin(behaviour, old(Value()), h, exchanges)
      {
        var _ := Transmit(h);
      }
    }
  }
}
