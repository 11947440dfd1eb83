/** What holds of a probe against any card, and exactly when it succeeds against the fake reader. */
module CardRuns {
  import opened Common
  import opened Card
  import Wire

  // ---------------------------------------------------------------------------
  // The stream stays in step

  lemma ConnectReadsBack(echo: seq<byte>, handle: nat, protocol: u32, rv: u32)
    ensures ReadConnect(ConnectBytes(echo, handle, protocol, rv)) == (OutcomeOf(handle % 0x1_0000_0000, protocol, rv), [])
    ensures |ConnectBytes(echo, handle, protocol, rv)| == CONNECT_SIZE
  {
    var words: seq<u32> := [handle % 0x1_0000_0000, protocol, rv];
    var parts := [Fit(echo, CONNECT_HEAD), Wire.PackLE(words)];
    Wire.PackedWords(words);
    Wire.PartsReadBack(parts, []);
    Wire.JoinedLength(parts);
    assert Wire.Sizes(parts) == CONNECT_PARTS;
    assert Wire.Joined(parts) + [] == Wire.Joined(parts);
  }

  lemma HeaderReadsBack(echo: seq<byte>, length: u32, rv: u32, payload: seq<byte>)
    ensures var r := Wire.ReadParts(HeaderBytes(echo, length, rv) + payload, HEADER_PARTS);
            |r.parts| == 2 && Wire.Words(r.parts[1]) == [length, rv] && r.rest == payload
    ensures |HeaderBytes(echo, length, rv)| == HEADER_SIZE
  {
    var head := [Fit(echo, HEADER_HEAD), Wire.PackLE([length, rv])];
    Wire.PackedWords([length, rv]);
    Wire.PartsReadBack(head, payload);
    Wire.JoinedLength(head);
    assert Wire.Sizes(head) == HEADER_PARTS;
  }

  lemma PayloadLeavesNothingIff(payload: seq<byte>, length: u32)
    requires length == |payload| % 0x1_0000_0000
    ensures var (reply, rest) := ReadPayload(length, 0, payload);
            (rest == [] <==> |payload| <= MAX_RESPONSE) && (rest == [] ==> reply == Response(payload))
  {
    Wire.OnePart(payload, length);
  }

  /**
   A transmit answer read off the stream leaves nothing there if and only if it carries a
   result code or a payload of at most 264 bytes; then the client has read it as given.
   */
  lemma TransmitLeavesNothingIff(echo: seq<byte>, answer: ExchangeAnswer)
    ensures var (reply, rest) := ReadExchange(ExchangeBytes(echo, answer));
            && (rest == [] <==> answer.Refused? || |answer.bytes| <= MAX_RESPONSE)
            && (rest == [] ==> reply == OwnReply(answer))
  {
    var length, rv := Length(answer), if answer.Refused? then answer.rv else 0;
    HeaderReadsBack(echo, length, rv, Payload(answer));
    assert ReadExchange(ExchangeBytes(echo, answer)) == ReadPayload(length, rv, Payload(answer));
    PayloadLeavesNothingIff(Payload(answer), length);
  }

  /** The shortcut of an empty stream is what reading the bytes of the answer gives. */
  lemma OwnConnectReadsBack(echo: seq<byte>, handle: nat, answer: Timed<ConnectAnswer>)
    requires !ConnectLeaves(answer) && handle < U32_RANGE
    ensures var protocol := if answer.value.Connected? then answer.value.protocol else 0;
            ConnectRead([], echo, handle, answer) == ReadConnect(ConnectBytes(echo, handle, protocol, RvOf(answer.value)))
  {
    ConnectReadsBack(echo, handle, if answer.value.Connected? then answer.value.protocol else 0, RvOf(answer.value));
  }

  lemma OwnExchangeReadsBack(echo: seq<byte>, answer: Timed<ExchangeAnswer>)
    requires !ExchangeLeaves(answer)
    ensures ExchangeRead([], echo, answer) == ReadExchange(ExchangeBytes(echo, answer.value))
  {
    TransmitLeavesNothingIff(echo, answer.value);
  }

  lemma BytesTellConnects(echo: seq<byte>, handle: nat, answer: Timed<ConnectAnswer>)
    requires ConnectLeaves(answer)
    ensures ConnectRead([], echo, handle, answer).1 != []
  {
    ConnectReadsBack(echo, handle, if answer.value.Connected? then answer.value.protocol else 0, RvOf(answer.value));
  }

  lemma BytesTellExchanges(echo: seq<byte>, response: Timed<ExchangeAnswer>)
    requires ExchangeLeaves(response)
    ensures ExchangeRead([], echo, response).1 != []
  {
    HeaderReadsBack(echo, Length(response.value), if response.value.Refused? then response.value.rv else 0, []);
    TransmitLeavesNothingIff(echo, response.value);
    var own := ExchangeBytes(echo, response.value);
    if response.prompt >= |own| {
      assert [] + InTime(own, response.prompt) == own;
      assert ReadExchange(own).1 + [] == ReadExchange(own).1;
    }
  }

  /** The client's reads take the answer they were given off an empty stream, and leave bytes exactly of a late or oversized one. */
  lemma BytesAreFaithful()
    ensures Faithful(BYTES)
  {
    forall echo: seq<byte>, handle: nat, answer: Timed<ConnectAnswer>
      ensures ConnectRight(BYTES.connect([], echo, handle, answer), handle, answer)
    {
      ConnectsReadRight(echo, handle, answer);
    }
    forall echo: seq<byte>, answer: Timed<ExchangeAnswer>
      ensures ExchangeRight(BYTES.exchange([], echo, answer), answer)
    {
      ExchangesReadRight(echo, answer);
    }
    forall echo: seq<byte>, prompt: nat
      ensures CloseRight(BYTES.close([], echo, prompt), prompt)
    {
      ClosesReadRight(echo, prompt);
    }
  }

  lemma ConnectsReadRight(echo: seq<byte>, handle: nat, answer: Timed<ConnectAnswer>)
    ensures ConnectRight(ConnectRead([], echo, handle, answer), handle, answer)
  {
    if ConnectLeaves(answer) {
      BytesTellConnects(echo, handle, answer);
    }
  }

  lemma ExchangesReadRight(echo: seq<byte>, answer: Timed<ExchangeAnswer>)
    ensures ExchangeRight(ExchangeRead([], echo, answer), answer)
  {
    if ExchangeLeaves(answer) {
      BytesTellExchanges(echo, answer);
    }
  }

  lemma ClosesReadRight(echo: seq<byte>, prompt: nat)
    ensures CloseRight(CloseRead([], echo, prompt), prompt)
  {}

  lemma RightConnect(read: Reading, echo: seq<byte>, handle: nat, answer: Timed<ConnectAnswer>)
    requires Faithful(read)
    ensures ConnectRight(read.connect([], echo, handle, answer), handle, answer)
  {}

  lemma RightExchange(read: Reading, echo: seq<byte>, answer: Timed<ExchangeAnswer>)
    requires Faithful(read)
    ensures ExchangeRight(read.exchange([], echo, answer), answer)
  {}

  lemma RightClose(read: Reading, echo: seq<byte>, prompt: nat)
    requires Faithful(read)
    ensures CloseRight(read.close([], echo, prompt), prompt)
  {}

  /**
   Since the account was a0 nothing was taken back; and if the stream was empty then, as
   long as no answer left bytes behind every command read its own answer and the stream is
   empty, while once one did a command began with foreign bytes or bytes are on the stream.
   */
  ghost predicate Accounted<S>(w: World<S>, a0: Account, empty: bool) {
    && w.account.left >= a0.left && w.account.foreign >= a0.foreign
    && (empty ==>
          && (w.account.left == a0.left ==> w.account.foreign == a0.foreign && w.leftover == [])
          && (w.account.left > a0.left ==> w.account.foreign > a0.foreign || w.leftover != []))
  }

  lemma ConnectAccounted<S>(b: Behaviour<S>, w: World<S>, raw: bool, a0: Account, empty: bool)
    requires Faithful(b.read)
    requires Accounted(w, a0, empty)
    ensures Accounted(Connect(b, w, raw).0, a0, empty)
  {
    var (s, answer) := b.connect(w.state, raw);
    RightConnect(b.read, b.echo(s, CONNECT_HEAD), if answer.value.Connected? then w.handles + 1 else 0, answer);
  }

  lemma {:induction false} AttemptAccounted<S>(b: Behaviour<S>, w: World<S>, raw: bool, a0: Account, empty: bool)
    requires Faithful(b.read)
    requires Accounted(w, a0, empty)
    ensures Accounted(Attempt(b, w, raw).0, a0, empty)
    decreases !raw
  {
    ConnectAccounted(b, w, raw, a0, empty);
    var (w', outcome) := Connect(b, w, raw);
    if outcome.Mismatch? && !raw {
      AttemptAccounted(b, w', true, a0, empty);
    }
  }

  lemma ExchangeAccounted<S>(b: Behaviour<S>, w: World<S>, h: nat, a0: Account, empty: bool)
    requires Faithful(b.read)
    requires Accounted(w, a0, empty)
    ensures Accounted(Exchange(b, w, h).0, a0, empty)
  {
    var (s, answer) := if h in w.open then b.exchange(w.state, h) else (w.state, Timed(Refused(INVALID_HANDLE), HEADER_SIZE));
    RightExchange(b.read, b.echo(s, HEADER_HEAD), answer);
  }

  lemma DisconnectAccounted<S>(b: Behaviour<S>, w: World<S>, h: nat, d: Disposition, a0: Account, empty: bool)
    requires Faithful(b.read)
    requires Accounted(w, a0, empty)
    ensures Accounted(Disconnect(b, w, h, d), a0, empty)
  {
    var (s, prompt) := if h in w.open then b.close(w.state, d) else (w.state, CLOSE_SIZE);
    RightClose(b.read, b.echo(s, CLOSE_SIZE), prompt);
  }

  lemma {:induction false} OpenAccounted<S>(b: Behaviour<S>, w: World<S>, attempts: nat, a0: Account, empty: bool)
    requires Faithful(b.read)
    requires attempts > 0 && Accounted(w, a0, empty)
    ensures Accounted(OpenWithin(b, w, attempts).0, a0, empty)
    decreases attempts
  {
    AttemptAccounted(b, w, false, a0, empty);
    var (w', c) := Attempt(b, w, false);
    if c.None? && attempts > 1 {
      OpenAccounted(b, w', attempts - 1, a0, empty);
    }
  }

  lemma {:induction false} TransmitAccounted<S>(b: Behaviour<S>, w: World<S>, h: nat, attempts: nat, a0: Account, empty: bool)
    requires Faithful(b.read)
    requires attempts > 0 && Accounted(w, a0, empty)
    ensures Accounted(TransmitWithin(b, w, h, attempts).0, a0, empty)
    decreases attempts
  {
    ExchangeAccounted(b, w, h, a0, empty);
    var (w', reply) := Exchange(b, w, h);
    if Classify(reply).Suspect? && attempts > 1 {
      TransmitAccounted(b, w', h, attempts - 1, a0, empty);
    }
  }

  lemma {:induction false} InsistAccounted<S>(b: Behaviour<S>, w: World<S>, c: Connection, rounds: nat, a0: Account, empty: bool)
    requires Faithful(b.read)
    requires rounds > 0 && Accounted(w, a0, empty)
    ensures Accounted(InsistWithin(b, w, c, rounds).0, a0, empty)
    decreases rounds
  {
    TransmitAccounted(b, w, c.handle, ATTEMPTS, a0, empty);
    var (w1, uid) := TransmitWithin(b, w, c.handle, ATTEMPTS);
    if uid.None? && rounds > 1 {
      DisconnectAccounted(b, w1, c.handle, ResetCard, a0, empty);
      OpenAccounted(b, Disconnect(b, w1, c.handle, ResetCard), REOPEN_ATTEMPTS, a0, empty);
      var (w2, next) := OpenWithin(b, Disconnect(b, w1, c.handle, ResetCard), REOPEN_ATTEMPTS);
      if next.Some? {
        InsistAccounted(b, w2, next.value, rounds - 1, a0, empty);
      }
    }
  }

  lemma {:induction false} PinAccounted<S>(b: Behaviour<S>, w: World<S>, h: nat, n: nat, a0: Account, empty: bool)
    requires Faithful(b.read)
    requires Accounted(w, a0, empty)
    ensures Accounted(Pin(b, w, h, n), a0, empty)
    decreases n
  {
    if n == 0 {
    } else {
      ExchangeAccounted(b, w, h, a0, empty);
      PinAccounted(b, Exchange(b, w, h).0, h, n - 1, a0, empty);
    }
  }

  lemma ProbeAccounted<S>(b: Behaviour<S>, w: World<S>, pins: nat, a0: Account, empty: bool)
    requires Faithful(b.read)
    requires Accounted(w, a0, empty)
    ensures Accounted(ProbeCard(b, w, pins).0, a0, empty)
  {
    OpenAccounted(b, w, ATTEMPTS, a0, empty);
    var (w1, c) := OpenWithin(b, w, ATTEMPTS);
    if c.Some? {
      InsistAccounted(b, w1, c.value, ROUNDS, a0, empty);
      var (w2, r) := InsistWithin(b, w1, c.value, ROUNDS);
      if r.live.Some? {
        var h := r.live.value.handle;
        PinAccounted(b, w2, h, pins, a0, empty);
        DisconnectAccounted(b, Pin(b, w2, h, pins), h, LeaveCard, a0, empty);
      }
    }
  }

  /** Every answer of the probe was read to its end. */
  ghost predicate AllRead<S>(b: Behaviour<S>, w: World<S>, pins: nat) {
    ProbeCard(b, w, pins).0.account.left == w.account.left
  }

  /**
   Against any card every command of a probe reads its own answer, and the stream is empty
   after it, if and only if every answer came before its deadline and fitted the buffer.
   */
  lemma ProbeInStepIff<S>(b: Behaviour<S>, w: World<S>, pins: nat)
    requires Faithful(b.read)
    requires w.leftover == []
    ensures var w' := ProbeCard(b, w, pins).0;
            AllRead(b, w, pins) <==> w'.account.foreign == w.account.foreign && w'.leftover == []
  {
    ProbeAccounted(b, w, pins, w.account, true);
  }

  // ---------------------------------------------------------------------------
  // Any card behaviour, in step

  /** Handles are numbered in order, so a new one is never one seen before. */
  ghost predicate Sane<S>(w: World<S>) {
    forall h :: h in w.open || h in w.account.wedged ==> h <= w.handles
  }

  /** Nothing was left behind between two worlds. */
  predicate InStep<S>(w: World<S>, w': World<S>) {
    w'.account.left == w.account.left
  }

  /** The world after a connection was opened, all answers read. */
  ghost predicate OneMoreOpen<S>(w: World<S>, w': World<S>, conn: Connection) {
    && conn.handle == w.handles + 1
    && w' == World(w'.state, conn.handle, w.open + {conn.handle}, [],
                   w.account.(connects := w.account.connects + 1,
                              peak := Max(w.account.peak, |w.open + {conn.handle}|)))
  }

  ghost predicate OpenedAtMostOne<S>(w: World<S>, w': World<S>, c: Option<Connection>) {
    if c.None? then w' == w.(state := w'.state) else OneMoreOpen(w, w', c.value)
  }

  lemma ConnectInStep<S>(b: Behaviour<S>, w: World<S>, raw: bool)
    requires Faithful(b.read)
    requires w.leftover == []
    ensures var (w', outcome) := Connect(b, w, raw);
            InStep(w, w') ==> OpenedAtMostOne(w, w', if outcome.Opened? then Some(outcome.c) else None)
  {
    var (s, answer) := b.connect(w.state, raw);
    RightConnect(b.read, b.echo(s, CONNECT_HEAD), if answer.value.Connected? then w.handles + 1 else 0, answer);
  }

  lemma {:induction false} AttemptInStep<S>(b: Behaviour<S>, w: World<S>, raw: bool)
    requires Faithful(b.read)
    requires w.leftover == []
    ensures var (w', c) := Attempt(b, w, raw); InStep(w, w') ==> OpenedAtMostOne(w, w', c)
    decreases !raw
  {
    ConnectInStep(b, w, raw);
    ConnectAccounted(b, w, raw, w.account, false);
    var (w', outcome) := Connect(b, w, raw);
    if outcome.Mismatch? && !raw {
      AttemptAccounted(b, w', true, w'.account, false);
      if InStep(w, w') {
        AttemptInStep(b, w', true);
      }
    }
  }

  lemma {:induction false} OpeningAccount<S>(b: Behaviour<S>, w: World<S>, attempts: nat)
    requires Faithful(b.read)
    requires attempts > 0 && w.leftover == []
    ensures var (w', c) := OpenWithin(b, w, attempts); InStep(w, w') ==> OpenedAtMostOne(w, w', c)
    decreases attempts
  {
    AttemptInStep(b, w, false);
    AttemptAccounted(b, w, false, w.account, false);
    var (w', c) := Attempt(b, w, false);
    if c.None? && attempts > 1 {
      OpenAccounted(b, w', attempts - 1, w'.account, false);
      if InStep(w, w') {
        OpeningAccount(b, w', attempts - 1);
      }
    }
  }

  /** Some exchanges on one open handle, all answers read. */
  ghost predicate Exchanged<S>(w: World<S>, w': World<S>, h: nat, most: nat) {
    && w'.open == w.open && w'.handles == w.handles && w'.leftover == []
    && w'.account == w.account.(exchanges := w'.account.exchanges, wedged := w'.account.wedged,
                                last := w'.account.last)
    && w.account.exchanges < w'.account.exchanges <= w.account.exchanges + most
    && w.account.wedged <= w'.account.wedged <= w.account.wedged + {h}
  }

  /** A UID is the payload of the last answer. */
  ghost predicate PayloadOf<S>(w: World<S>, uid: seq<byte>) {
    uid != [] ==> !(|uid| == 4 && uid[0] == 0x08) && w.account.last == Response(uid + [0x90, 0x00])
  }

  lemma ExchangeInStep<S>(b: Behaviour<S>, w: World<S>, h: nat)
    requires Faithful(b.read)
    requires w.leftover == [] && h in w.open && h !in w.account.wedged
    ensures var (w', reply) := Exchange(b, w, h);
            InStep(w, w') ==> Exchanged(w, w', h, 1) && w'.account.last == reply
                              && (h in w'.account.wedged <==> IsWedgedReply(reply))
  {
    var (s, answer) := if h in w.open then b.exchange(w.state, h) else (w.state, Timed(Refused(INVALID_HANDLE), HEADER_SIZE));
    RightExchange(b.read, b.echo(s, HEADER_HEAD), answer);
  }

  lemma FinalIsPayload(reply: Reply)
    requires Classify(reply).Final?
    ensures var uid := Classify(reply).uid; uid != [] ==> !(|uid| == 4 && uid[0] == 0x08) && reply == Response(uid + [0x90, 0x00])
  {
    var n := |reply.bytes| - 2;
    assert reply.bytes == reply.bytes[..n] + reply.bytes[n..];
  }

  lemma {:induction false} TransmittingAccount<S>(b: Behaviour<S>, w: World<S>, h: nat, attempts: nat)
    requires Faithful(b.read)
    requires attempts > 0 && w.leftover == [] && h in w.open && h !in w.account.wedged
    ensures var (w', uid) := TransmitWithin(b, w, h, attempts);
            InStep(w, w') ==> Exchanged(w, w', h, attempts) && (uid.Some? ==> PayloadOf(w', uid.value))
    decreases attempts
  {
    ExchangeInStep(b, w, h);
    ExchangeAccounted(b, w, h, w.account, false);
    var (w', reply) := Exchange(b, w, h);
    if Classify(reply).Suspect? && attempts > 1 {
      TransmitAccounted(b, w', h, attempts - 1, w'.account, false);
      if InStep(w, w') {
        TransmittingAccount(b, w', h, attempts - 1);
      }
    } else if Classify(reply).Final? {
      FinalIsPayload(reply);
    }
  }

  lemma DisconnectInStep<S>(b: Behaviour<S>, w: World<S>, h: nat, d: Disposition)
    requires Faithful(b.read)
    requires w.leftover == [] && h in w.open
    ensures var w' := Disconnect(b, w, h, d);
            InStep(w, w') ==>
              w' == w.(state := w'.state, open := w.open - {h},
                       account := w.account.(resets := w.account.resets + if d.ResetCard? then 1 else 0,
                                             disconnects := w.account.disconnects + 1))
  {
    var (s, prompt) := if h in w.open then b.close(w.state, d) else (w.state, CLOSE_SIZE);
    RightClose(b.read, b.echo(s, CLOSE_SIZE), prompt);
  }

  function Reopen<S>(b: Behaviour<S>, w: World<S>, h: nat): (World<S>, Option<Connection>) {
    OpenWithin(b, Disconnect(b, w, h, ResetCard), REOPEN_ATTEMPTS)
  }

  /** The world after a round without final answer, a reset and the reopen. */
  function NextRound<S>(b: Behaviour<S>, w: World<S>, c: Connection): (World<S>, Option<Connection>) {
    Reopen(b, TransmitWithin(b, w, c.handle, ATTEMPTS).0, c.handle)
  }

  lemma NextRoundGrows<S>(b: Behaviour<S>, w: World<S>, c: Connection)
    requires Faithful(b.read)
    ensures var w1 := TransmitWithin(b, w, c.handle, ATTEMPTS).0;
            var w2 := Disconnect(b, w1, c.handle, ResetCard);
            w.account.left <= w1.account.left <= w2.account.left <= NextRound(b, w, c).0.account.left
  {
    var w1 := TransmitWithin(b, w, c.handle, ATTEMPTS).0;
    var w2 := Disconnect(b, w1, c.handle, ResetCard);
    TransmitAccounted(b, w, c.handle, ATTEMPTS, w.account, false);
    DisconnectAccounted(b, w1, c.handle, ResetCard, w1.account, false);
    OpenAccounted(b, w2, REOPEN_ATTEMPTS, w2.account, false);
  }

  /** What one round without a final answer comes to, all answers read. */
  ghost predicate RoundMade<S>(w: World<S>, c: Connection, w': World<S>, next: Option<Connection>) {
    var acct, acct' := w.account, w'.account;
    && acct.exchanges < acct'.exchanges <= acct.exchanges + ATTEMPTS
    && acct'.resets == acct.resets + 1 && acct'.disconnects == acct.disconnects + 1
    && acct'.futile == acct.futile && acct'.misuses == acct.misuses
    && Sane(w') && w'.leftover == []
    && match next
       case None => w'.open == w.open - {c.handle} && acct'.connects == acct.connects && acct'.peak == acct.peak
       case Some(n) =>
         && n.handle > w.handles && n.handle !in acct'.wedged && n.handle in w'.open
         && w'.open == w.open - {c.handle} + {n.handle} && |w'.open| == |w.open|
         && w'.handles == n.handle
         && acct'.connects == acct.connects + 1 && acct'.peak == Max(acct.peak, |w.open|)
  }

  /** The three parts of a round put together. */
  lemma RoundOfParts<S>(w: World<S>, c: Connection, w1: World<S>, w2: World<S>, w3: World<S>, next: Option<Connection>)
    requires Sane(w) && c.handle in w.open && Exchanged(w, w1, c.handle, ATTEMPTS)
    requires w2 == w1.(state := w2.state, open := w1.open - {c.handle},
                       account := w1.account.(resets := w1.account.resets + 1, disconnects := w1.account.disconnects + 1))
    requires OpenedAtMostOne(w2, w3, next)
    ensures RoundMade(w, c, w3, next)
  {
    var n := w.handles + 1;
    assert n !in w.open && |w.open - {c.handle} + {n}| == |w.open|;
  }

  lemma NextRoundAccount<S>(b: Behaviour<S>, w: World<S>, c: Connection)
    requires Faithful(b.read)
    requires Sane(w) && w.leftover == [] && c.handle in w.open && c.handle !in w.account.wedged
    ensures var (w', next) := NextRound(b, w, c); InStep(w, w') ==> RoundMade(w, c, w', next)
  {
    NextRoundGrows(b, w, c);
    var w1 := TransmitWithin(b, w, c.handle, ATTEMPTS).0;
    var w2 := Disconnect(b, w1, c.handle, ResetCard);
    var (w3, next) := NextRound(b, w, c);
    if InStep(w, w3) {
      TransmittingAccount(b, w, c.handle, ATTEMPTS);
      DisconnectInStep(b, w1, c.handle, ResetCard);
      OpeningAccount(b, w2, REOPEN_ATTEMPTS);
      RoundOfParts(w, c, w1, w2, w3, next);
    }
  }

  /** What an insistence may cost, all answers read. */
  ghost predicate Bounded<S>(w: World<S>, w': World<S>, r: Insisted, rounds: nat) {
    var acct, acct' := w.account, w'.account;
    && acct'.exchanges <= acct.exchanges + ATTEMPTS * rounds
    && acct'.resets + 1 <= acct.resets + rounds
    && acct'.futile == acct.futile && acct'.misuses == acct.misuses && w'.leftover == []
    && (r.uid != [] ==> r.live.Some? && PayloadOf(w', r.uid))
  }

  lemma InsistGrows<S>(b: Behaviour<S>, w: World<S>, c: Connection, rounds: nat)
    requires Faithful(b.read)
    requires rounds > 0
    ensures w.account.left <= InsistWithin(b, w, c, rounds).0.account.left
  {
    InsistAccounted(b, w, c, rounds, w.account, false);
  }

  /** An insistence is a final answer or spent rounds on this connection, or a round and the rest. */
  lemma InsistSplits<S>(b: Behaviour<S>, w: World<S>, c: Connection, rounds: nat)
    requires rounds > 0
    ensures var (w1, uid) := TransmitWithin(b, w, c.handle, ATTEMPTS);
            var (w2, next) := NextRound(b, w, c);
            InsistWithin(b, w, c, rounds) ==
            if uid.Some? || rounds == 1 then (w1, Insisted(if uid.Some? then uid.value else [], c.protocol, Some(c)))
            else if next.None? then (w2, Insisted([], c.protocol, None))
            else InsistWithin(b, w2, next.value, rounds - 1)
  {}

  /**
   The insistence is bounded and leaves a wedged connection alone: no exchange follows a
   63 00 on the same handle. A UID it returns is the payload of the card's last answer.
   */
  lemma {:induction false} InsistenceIsBounded<S>(b: Behaviour<S>, w: World<S>, c: Connection, rounds: nat)
    requires Faithful(b.read)
    requires rounds > 0 && Sane(w) && w.leftover == [] && c.handle in w.open && c.handle !in w.account.wedged
    ensures var (w', r) := InsistWithin(b, w, c, rounds); InStep(w, w') ==> Bounded(w, w', r, rounds)
    decreases rounds
  {
    InsistSplits(b, w, c, rounds);
    if TransmitWithin(b, w, c.handle, ATTEMPTS).1.Some? || rounds == 1 {
      TransmittingAccount(b, w, c.handle, ATTEMPTS);
    } else {
      NextRoundAccount(b, w, c);
      NextRoundGrows(b, w, c);
      var (w', next) := NextRound(b, w, c);
      if next.Some? {
        InsistGrows(b, w', next.value, rounds - 1);
        if InStep(w, w') {
          InsistenceIsBounded(b, w', next.value, rounds - 1);
        }
      }
    }
  }

  /** The handle the insistence hands on. */
  function Held(r: Insisted): set<nat> {
    if r.live.Some? then {r.live.value.handle} else {}
  }

  /** From one open connection to at most one, every connection given up in between closed. */
  ghost predicate Owns<S>(w: World<S>, c: Connection, w': World<S>, r: Insisted) {
    && w'.account.peak <= Max(w.account.peak, |w.open|)
    && w'.open == (w.open - {c.handle}) + Held(r)
    && w'.account.connects + w.account.disconnects + (if r.live.Some? then 0 else 1)
       == w.account.connects + w'.account.disconnects
    && (forall h :: h in Held(r) ==> h == c.handle || h > w.handles)
    && Sane(w') && w'.leftover == []
  }

  lemma OwnsAcrossRound<S>(w: World<S>, c: Connection, w1: World<S>, next: Option<Connection>, w': World<S>, r: Insisted)
    requires Sane(w) && c.handle in w.open && RoundMade(w, c, w1, next)
    requires if next.None? then w' == w1 && r.live.None? else Owns(w1, next.value, w', r)
    ensures Owns(w, c, w', r)
  {
    if next.Some? {
      assert w1.open - {next.value.handle} == w.open - {c.handle};
    }
  }

  lemma OwnsStill<S>(w: World<S>, c: Connection, w': World<S>, r: Insisted)
    requires Sane(w) && c.handle in w.open && Exchanged(w, w', c.handle, ATTEMPTS) && r.live == Some(c)
    ensures Owns(w, c, w', r)
  {
    assert w.open == w.open - {c.handle} + {c.handle};
  }

  lemma {:induction false} InsistenceOwnsHandles<S>(b: Behaviour<S>, w: World<S>, c: Connection, rounds: nat)
    requires Faithful(b.read)
    requires rounds > 0 && Sane(w) && w.leftover == [] && c.handle in w.open && c.handle !in w.account.wedged
    ensures var (w', r) := InsistWithin(b, w, c, rounds); InStep(w, w') ==> Owns(w, c, w', r)
    decreases rounds
  {
    InsistSplits(b, w, c, rounds);
    var (w', r) := InsistWithin(b, w, c, rounds);
    if TransmitWithin(b, w, c.handle, ATTEMPTS).1.Some? || rounds == 1 {
      TransmittingAccount(b, w, c.handle, ATTEMPTS);
      if InStep(w, w') {
        OwnsStill(w, c, w', r);
      }
    } else {
      NextRoundAccount(b, w, c);
      NextRoundGrows(b, w, c);
      var (w1, next) := NextRound(b, w, c);
      if next.Some? {
        InsistGrows(b, w1, next.value, rounds - 1);
      }
      if InStep(w, w') {
        if next.Some? {
          InsistenceOwnsHandles(b, w1, next.value, rounds - 1);
        }
        OwnsAcrossRound(w, c, w1, next, w', r);
      }
    }
  }

  ghost predicate PinnedTimes<S>(w: World<S>, w': World<S>, n: nat) {
    && w'.open == w.open && w'.handles == w.handles && w'.leftover == []
    && w'.account.exchanges == w.account.exchanges + n
    && w'.account.resets == w.account.resets
    && w'.account.connects == w.account.connects && w'.account.disconnects == w.account.disconnects
    && w'.account.misuses == w.account.misuses && w'.account.peak == w.account.peak
  }

  lemma PinInStep<S>(b: Behaviour<S>, w: World<S>, h: nat)
    requires Faithful(b.read)
    requires w.leftover == [] && h in w.open
    ensures var w' := Exchange(b, w, h).0; InStep(w, w') ==> PinnedTimes(w, w', 1)
  {
    var (s, answer) := if h in w.open then b.exchange(w.state, h) else (w.state, Timed(Refused(INVALID_HANDLE), HEADER_SIZE));
    RightExchange(b.read, b.echo(s, HEADER_HEAD), answer);
  }

  lemma {:induction false} PinningAccount<S>(b: Behaviour<S>, w: World<S>, h: nat, n: nat)
    requires Faithful(b.read)
    requires w.leftover == [] && h in w.open
    ensures var w' := Pin(b, w, h, n); InStep(w, w') ==> PinnedTimes(w, w', n)
    decreases n
  {
    if n == 0 {
    } else {
      var w' := Exchange(b, w, h).0;
      PinInStep(b, w, h);
      ExchangeAccounted(b, w, h, w.account, false);
      PinAccounted(b, w', h, n - 1, w'.account, false);
      if InStep(w, w') {
        PinningAccount(b, w', h, n - 1);
      }
    }
  }

  ghost predicate Conserved<S>(w: World<S>, w': World<S>, pins: nat) {
    var acct, acct' := w.account, w'.account;
    && w'.open == w.open
    && acct'.connects - acct.connects == acct'.disconnects - acct.disconnects
    && acct'.misuses == acct.misuses
    && acct'.peak <= Max(acct.peak, |w.open| + 1)
    && acct'.exchanges <= acct.exchanges + ATTEMPTS * ROUNDS + pins
    && acct'.resets <= acct.resets + ROUNDS - 1
  }

  /** The end of a probe: pins and the last disconnect on the connection the insistence handed on. */
  lemma EndingConserves<S>(b: Behaviour<S>, w: World<S>, h: nat, pins: nat)
    requires Faithful(b.read)
    requires w.leftover == [] && h in w.open
    ensures var w' := Disconnect(b, Pin(b, w, h, pins), h, LeaveCard);
            && w.account.left <= w'.account.left
            && (InStep(w, w') ==>
                  && w'.open == w.open - {h} && w'.account.peak == w.account.peak && w'.account.misuses == w.account.misuses
                  && w'.account.connects == w.account.connects && w'.account.disconnects == w.account.disconnects + 1
                  && w'.account.exchanges == w.account.exchanges + pins && w'.account.resets == w.account.resets)
  {
    var pinned := Pin(b, w, h, pins);
    PinAccounted(b, w, h, pins, w.account, false);
    DisconnectAccounted(b, pinned, h, LeaveCard, pinned.account, false);
    PinningAccount(b, w, h, pins);
    if InStep(w, pinned) {
      DisconnectInStep(b, pinned, h, LeaveCard);
    }
  }

  lemma EndingGrows<S>(b: Behaviour<S>, w: World<S>, h: nat, pins: nat)
    requires Faithful(b.read)
    ensures w.account.left <= Disconnect(b, Pin(b, w, h, pins), h, LeaveCard).account.left
  {
    PinAccounted(b, w, h, pins, w.account, false);
    DisconnectAccounted(b, Pin(b, w, h, pins), h, LeaveCard, Pin(b, w, h, pins).account, false);
  }

  /** A probe is an open, an insistence and its end. */
  lemma ProbeSplits<S>(b: Behaviour<S>, w: World<S>, pins: nat)
    requires OpenWithin(b, w, ATTEMPTS).1.Some?
    ensures var (w1, c) := OpenWithin(b, w, ATTEMPTS);
            var (w2, r) := InsistWithin(b, w1, c.value, ROUNDS);
            ProbeCard(b, w, pins).0
            == if r.live.None? then w2 else Disconnect(b, Pin(b, w2, r.live.value.handle, pins), r.live.value.handle, LeaveCard)
  {}

  lemma PartsOfProbeInStep<S>(b: Behaviour<S>, w: World<S>, pins: nat)
    requires Faithful(b.read)
    requires AllRead(b, w, pins) && OpenWithin(b, w, ATTEMPTS).1.Some?
    ensures var (w1, c) := OpenWithin(b, w, ATTEMPTS);
            InStep(w, w1) && InStep(w1, InsistWithin(b, w1, c.value, ROUNDS).0)
  {
    var (w1, c) := OpenWithin(b, w, ATTEMPTS);
    var (w2, r) := InsistWithin(b, w1, c.value, ROUNDS);
    ProbeSplits(b, w, pins);
    OpenAccounted(b, w, ATTEMPTS, w.account, false);
    InsistGrows(b, w1, c.value, ROUNDS);
    if r.live.Some? {
      EndingGrows(b, w2, r.live.value.handle, pins);
    }
  }

  /** An open, a bounded insistence that owns its handles, and its end, put together. */
  lemma ConservedOfParts<S>(w: World<S>, w1: World<S>, c: Connection, w2: World<S>, r: Insisted, w': World<S>, pins: nat)
    requires Sane(w) && OneMoreOpen(w, w1, c) && Bounded(w1, w2, r, ROUNDS) && Owns(w1, c, w2, r)
    requires if r.live.None? then w' == w2
             else w'.open == w2.open - {r.live.value.handle} && w'.account.peak == w2.account.peak
                  && w'.account.misuses == w2.account.misuses && w'.account.connects == w2.account.connects
                  && w'.account.disconnects == w2.account.disconnects + 1
                  && w'.account.exchanges == w2.account.exchanges + pins && w'.account.resets == w2.account.resets
    ensures Conserved(w, w', pins)
  {
    assert w1.open - {c.handle} == w.open;
    if r.live.Some? {
      assert w2.open - {r.live.value.handle} == w.open;
    }
  }

  lemma ConnectedProbeConserves<S>(b: Behaviour<S>, w: World<S>, pins: nat)
    requires Faithful(b.read)
    requires Sane(w) && w.leftover == [] && AllRead(b, w, pins) && OpenWithin(b, w, ATTEMPTS).1.Some?
    ensures Conserved(w, ProbeCard(b, w, pins).0, pins)
  {
    var (w1, c) := OpenWithin(b, w, ATTEMPTS);
    var (w2, r) := InsistWithin(b, w1, c.value, ROUNDS);
    PartsOfProbeInStep(b, w, pins);
    ProbeSplits(b, w, pins);
    OpeningAccount(b, w, ATTEMPTS);
    InsistenceIsBounded(b, w1, c.value, ROUNDS);
    InsistenceOwnsHandles(b, w1, c.value, ROUNDS);
    if r.live.Some? {
      EndingConserves(b, w2, r.live.value.handle, pins);
    }
    ConservedOfParts(w, w1, c.value, w2, r, ProbeCard(b, w, pins).0, pins);
  }

  /**
   Handles are conserved by every probe whose answers are all read, whatever the card does:
   the handle table is as before, every connect met one disconnect of an open handle, one
   handle was live at a time, and no more than nine exchanges, the pins, and two resets
   were spent.
   */
  lemma ProbeConservesHandles<S>(b: Behaviour<S>, w: World<S>, pins: nat)
    requires Faithful(b.read)
    requires Sane(w) && w.leftover == []
    ensures AllRead(b, w, pins) ==> Conserved(w, ProbeCard(b, w, pins).0, pins)
  {
    if AllRead(b, w, pins) {
      OpeningAccount(b, w, ATTEMPTS);
      if OpenWithin(b, w, ATTEMPTS).1.Some? {
        ConnectedProbeConserves(b, w, pins);
      }
    }
  }

  // ---------------------------------------------------------------------------
  // Cards whose answers are all in time and fit

  /** From these states on every answer comes before its deadline and fits the buffer. */
  ghost predicate OnTime<S(!new)>(b: Behaviour<S>, from: S -> bool) {
    && (forall s: S, raw: bool :: from(s) ==> from(b.connect(s, raw).0) && !ConnectLeaves(b.connect(s, raw).1))
    && (forall s: S, h: nat :: from(s) ==> from(b.exchange(s, h).0) && !ExchangeLeaves(b.exchange(s, h).1))
    && (forall s: S, d: Disposition :: from(s) ==> from(b.close(s, d).0) && b.close(s, d).1 >= CLOSE_SIZE)
  }

  predicate KeptUp<S>(w: World<S>, w': World<S>, from: S -> bool) {
    from(w.state) ==> from(w'.state) && InStep(w, w')
  }

  lemma ExchangeOnTime<S(!new)>(b: Behaviour<S>, from: S -> bool, w: World<S>, h: nat)
    requires OnTime(b, from)
    ensures KeptUp(w, Exchange(b, w, h).0, from)
  {}

  lemma DisconnectOnTime<S(!new)>(b: Behaviour<S>, from: S -> bool, w: World<S>, h: nat, d: Disposition)
    requires OnTime(b, from)
    ensures KeptUp(w, Disconnect(b, w, h, d), from)
  {}

  lemma {:induction false} AttemptOnTime<S(!new)>(b: Behaviour<S>, from: S -> bool, w: World<S>, raw: bool)
    requires OnTime(b, from)
    ensures KeptUp(w, Attempt(b, w, raw).0, from)
    decreases !raw
  {
    var (w', outcome) := Connect(b, w, raw);
    assert KeptUp(w, w', from);
    if outcome.Mismatch? && !raw {
      AttemptOnTime(b, from, w', true);
    }
  }

  lemma {:induction false} OpenOnTime<S(!new)>(b: Behaviour<S>, from: S -> bool, w: World<S>, attempts: nat)
    requires OnTime(b, from) && attempts > 0
    ensures KeptUp(w, OpenWithin(b, w, attempts).0, from)
    decreases attempts
  {
    AttemptOnTime(b, from, w, false);
    var (w', c) := Attempt(b, w, false);
    if c.None? && attempts > 1 {
      OpenOnTime(b, from, w', attempts - 1);
    }
  }

  lemma {:induction false} TransmitOnTime<S(!new)>(b: Behaviour<S>, from: S -> bool, w: World<S>, h: nat, attempts: nat)
    requires OnTime(b, from) && attempts > 0
    ensures KeptUp(w, TransmitWithin(b, w, h, attempts).0, from)
    decreases attempts
  {
    ExchangeOnTime(b, from, w, h);
    var (w', reply) := Exchange(b, w, h);
    if Classify(reply).Suspect? && attempts > 1 {
      TransmitOnTime(b, from, w', h, attempts - 1);
    }
  }

  lemma NextRoundOnTime<S(!new)>(b: Behaviour<S>, from: S -> bool, w: World<S>, c: Connection)
    requires OnTime(b, from)
    ensures KeptUp(w, NextRound(b, w, c).0, from)
  {
    var w1 := TransmitWithin(b, w, c.handle, ATTEMPTS).0;
    TransmitOnTime(b, from, w, c.handle, ATTEMPTS);
    DisconnectOnTime(b, from, w1, c.handle, ResetCard);
    OpenOnTime(b, from, Disconnect(b, w1, c.handle, ResetCard), REOPEN_ATTEMPTS);
  }

  lemma {:induction false} InsistOnTime<S(!new)>(b: Behaviour<S>, from: S -> bool, w: World<S>, c: Connection, rounds: nat)
    requires OnTime(b, from) && rounds > 0
    ensures KeptUp(w, InsistWithin(b, w, c, rounds).0, from)
    decreases rounds
  {
    InsistSplits(b, w, c, rounds);
    if TransmitWithin(b, w, c.handle, ATTEMPTS).1.Some? || rounds == 1 {
      TransmitOnTime(b, from, w, c.handle, ATTEMPTS);
    } else {
      NextRoundOnTime(b, from, w, c);
      var (w1, next) := NextRound(b, w, c);
      if next.Some? {
        InsistOnTime(b, from, w1, next.value, rounds - 1);
      }
    }
  }

  lemma {:induction false} PinOnTime<S(!new)>(b: Behaviour<S>, from: S -> bool, w: World<S>, h: nat, n: nat)
    requires OnTime(b, from)
    ensures KeptUp(w, Pin(b, w, h, n), from)
    decreases n
  {
    if n == 0 {
    } else {
      ExchangeOnTime(b, from, w, h);
      PinOnTime(b, from, Exchange(b, w, h).0, h, n - 1);
    }
  }

  lemma EndOnTime<S(!new)>(b: Behaviour<S>, from: S -> bool, w: World<S>, h: nat, pins: nat)
    requires OnTime(b, from)
    ensures KeptUp(w, Disconnect(b, Pin(b, w, h, pins), h, LeaveCard), from)
  {
    PinOnTime(b, from, w, h, pins);
    DisconnectOnTime(b, from, Pin(b, w, h, pins), h, LeaveCard);
  }

  lemma OnTimeReadsAll<S(!new)>(b: Behaviour<S>, from: S -> bool, w: World<S>, pins: nat)
    requires OnTime(b, from) && from(w.state)
    ensures AllRead(b, w, pins) && from(ProbeCard(b, w, pins).0.state)
  {
    OpenOnTime(b, from, w, ATTEMPTS);
    var (w1, c) := OpenWithin(b, w, ATTEMPTS);
    if c.Some? {
      ProbeSplits(b, w, pins);
      InsistOnTime(b, from, w1, c.value, ROUNDS);
      var (w2, r) := InsistWithin(b, w1, c.value, ROUNDS);
      if r.live.Some? {
        EndOnTime(b, from, w2, r.live.value.handle, pins);
      }
    }
  }

  /** Against a card that answers in time and within the buffer every answer is read, and handles are conserved. */
  lemma OnTimeConservesHandles<S(!new)>(b: Behaviour<S>, from: S -> bool, w: World<S>, pins: nat)
    requires Faithful(b.read) && OnTime(b, from) && from(w.state)
    requires Sane(w) && w.leftover == []
    ensures AllRead(b, w, pins) && Conserved(w, ProbeCard(b, w, pins).0, pins)
    ensures from(ProbeCard(b, w, pins).0.state)
  {
    OnTimeReadsAll(b, from, w, pins);
    ProbeConservesHandles(b, w, pins);
  }

  lemma {:induction false} PinKeepsTable<S>(b: Behaviour<S>, w: World<S>, h: nat, n: nat)
    requires Sane(w) && h in w.open
    ensures var w' := Pin(b, w, h, n); Sane(w') && w'.open == w.open && w'.handles == w.handles
    decreases n
  {
    if n == 0 {
    } else {
      PinKeepsTable(b, Exchange(b, w, h).0, h, n - 1);
    }
  }

  /** The end of a probe numbers no handle out of order. */
  lemma EndKeepsSane<S>(b: Behaviour<S>, w: World<S>, h: nat, pins: nat)
    requires Sane(w) && h in w.open
    ensures Sane(Disconnect(b, Pin(b, w, h, pins), h, LeaveCard))
  {
    PinKeepsTable(b, w, h, pins);
  }

  lemma ConnectedProbeKeepsSane<S>(b: Behaviour<S>, w: World<S>, pins: nat)
    requires Faithful(b.read)
    requires Sane(w) && w.leftover == [] && AllRead(b, w, pins) && OpenWithin(b, w, ATTEMPTS).1.Some?
    ensures Sane(ProbeCard(b, w, pins).0)
  {
    var (w1, c) := OpenWithin(b, w, ATTEMPTS);
    var (w2, r) := InsistWithin(b, w1, c.value, ROUNDS);
    PartsOfProbeInStep(b, w, pins);
    ProbeSplits(b, w, pins);
    OpeningAccount(b, w, ATTEMPTS);
    InsistenceOwnsHandles(b, w1, c.value, ROUNDS);
    if r.live.Some? {
      EndKeepsSane(b, w2, r.live.value.handle, pins);
    }
  }

  /** What a probe leaves to the next one: its handles closed, the stream empty. */
  ghost predicate HandedOn<S>(w: World<S>, w': World<S>) {
    && Sane(w') && w'.leftover == [] && w'.open == w.open
    && w'.account.connects - w.account.connects == w'.account.disconnects - w.account.disconnects
    && w'.account.misuses == w.account.misuses
  }

  lemma ProbeHandsOn<S(!new)>(b: Behaviour<S>, from: S -> bool, w: World<S>, pins: nat)
    requires Faithful(b.read) && OnTime(b, from) && from(w.state)
    requires Sane(w) && w.leftover == []
    ensures HandedOn(w, ProbeCard(b, w, pins).0) && from(ProbeCard(b, w, pins).0.state)
  {
    OnTimeConservesHandles(b, from, w, pins);
    ProbeInStepIff(b, w, pins);
    if OpenWithin(b, w, ATTEMPTS).1.Some? {
      ConnectedProbeKeepsSane(b, w, pins);
    } else {
      OpeningAccount(b, w, ATTEMPTS);
    }
  }

  // ---------------------------------------------------------------------------
  // The fake reader

  /** One reader of the fake daemon with its failure injection. */
  datatype Reader = Reader(
    uid: seq<byte>,
    present: bool,
    failConnects: int,
    failUIDProbes: int,
    stuck: bool,
    failResetReconnects: int,
    resetLag: bool)

  const T1: u32 := 2

  function FakeConnect(r: Reader, raw: bool): (Reader, Timed<ConnectAnswer>) {
    if !r.present then (r, Timed(Denied(NO_SMARTCARD), CONNECT_SIZE))
    else if r.failConnects > 0 then (r.(failConnects := r.failConnects - 1), Timed(Denied(NO_SMARTCARD), CONNECT_SIZE))
    else if r.resetLag && r.failResetReconnects > 0 then
      (r.(failResetReconnects := r.failResetReconnects - 1), Timed(Denied(NO_SMARTCARD), CONNECT_SIZE))
    else (r.(resetLag := false), Timed(Connected(T1), CONNECT_SIZE))
  }

  /** An answer of the fake, which is never late. */
  function Served(answer: ExchangeAnswer): Timed<ExchangeAnswer> {
    Timed(answer, HEADER_SIZE + |Payload(answer)|)
  }

  /** The response is as long as the UID makes it, whatever the client's buffer. */
  function FakeExchange(r: Reader, h: nat): (Reader, Timed<ExchangeAnswer>) {
    if r.failUIDProbes > 0 then (r.(failUIDProbes := r.failUIDProbes - 1), Served(Refused(COMM_DATA_LOST)))
    else if r.stuck || r.uid == [] then (r, Served(Answered([0x63, 0x00])))
    else (r, Served(Answered(r.uid + [0x90, 0x00])))
  }

  function FakeClose(r: Reader, d: Disposition): (Reader, nat) {
    (if d.ResetCard? then r.(stuck := false, resetLag := true) else r, CLOSE_SIZE)
  }

  /** The fake reader, with any contents of the answer fields the client ignores. */
  function Fake(echo: (Reader, nat) -> seq<byte>): Behaviour<Reader> {
    Behaviour(FakeConnect, FakeExchange, FakeClose, echo, BYTES)
  }

  predicate ConnectsAlike(answered: (Reader, Timed<ConnectAnswer>), r: Reader, raw: bool) {
    answered == FakeConnect(r, raw)
  }

  predicate ExchangesAlike(answered: (Reader, Timed<ExchangeAnswer>), r: Reader, h: nat) {
    answered == FakeExchange(r, h)
  }

  predicate ClosesAlike(answered: (Reader, nat), r: Reader, d: Disposition) {
    answered == FakeClose(r, d)
  }

  /** The card answers as the fake reader does, over a faithful reading. */
  ghost predicate IsFake(b: Behaviour<Reader>) {
    && (forall r: Reader, raw: bool {:trigger ConnectsAlike(b.connect(r, raw), r, raw)} ::
          ConnectsAlike(b.connect(r, raw), r, raw))
    && (forall r: Reader, h: nat {:trigger ExchangesAlike(b.exchange(r, h), r, h)} ::
          ExchangesAlike(b.exchange(r, h), r, h))
    && (forall r: Reader, d: Disposition {:trigger ClosesAlike(b.close(r, d), r, d)} ::
          ClosesAlike(b.close(r, d), r, d))
    && Faithful(b.read)
  }

  lemma FakeIsFake(echo: (Reader, nat) -> seq<byte>)
    ensures IsFake(Fake(echo))
  {
    BytesAreFaithful();
  }

  lemma ConnectsAsFake(b: Behaviour<Reader>, r: Reader, raw: bool)
    requires IsFake(b)
    ensures b.connect(r, raw) == FakeConnect(r, raw)
  {
    assert ConnectsAlike(b.connect(r, raw), r, raw);
  }

  lemma ExchangesAsFake(b: Behaviour<Reader>, r: Reader, h: nat)
    requires IsFake(b)
    ensures b.exchange(r, h) == FakeExchange(r, h)
  {
    assert ExchangesAlike(b.exchange(r, h), r, h);
  }

  lemma ClosesAsFake(b: Behaviour<Reader>, r: Reader, d: Disposition)
    requires IsFake(b)
    ensures b.close(r, d) == FakeClose(r, d)
  {
    assert ClosesAlike(b.close(r, d), r, d);
  }

  function Positive(n: int): nat {
    if n > 0 then n else 0
  }

  /** Connects that still fail before one succeeds. */
  function ConnectFailures(r: Reader): nat {
    Positive(r.failConnects) + if r.resetLag then Positive(r.failResetReconnects) else 0
  }

  /** The reader after the connect that succeeds. */
  function Settled(r: Reader): Reader {
    r.(failConnects := if r.failConnects > 0 then 0 else r.failConnects,
       failResetReconnects := if r.resetLag && r.failResetReconnects > 0 then 0 else r.failResetReconnects,
       resetLag := false)
  }

  /** A connect of the fake on an empty stream. */
  lemma ConnectingFake(b: Behaviour<Reader>, w: World<Reader>, raw: bool)
    requires IsFake(b) && w.leftover == []
    ensures var (w', outcome) := Connect(b, w, raw);
            var (r', answer) := FakeConnect(w.state, raw);
            && w'.state == r' && w'.leftover == [] && InStep(w, w') && !outcome.Mismatch?
            && (outcome.Opened? <==> answer.value.Connected?) && (outcome.Opened? ==> outcome.c.handle in w'.open)
  {
    ConnectsAsFake(b, w.state, raw);
    var (s, answer) := b.connect(w.state, raw);
    RightConnect(b.read, b.echo(s, CONNECT_HEAD), if answer.value.Connected? then w.handles + 1 else 0, answer);
  }

  lemma {:induction false} OpeningFake(b: Behaviour<Reader>, w: World<Reader>, attempts: nat)
    requires IsFake(b) && attempts > 0 && w.state.present && w.leftover == []
    ensures var (w', c) := OpenWithin(b, w, attempts);
            && (c.Some? <==> ConnectFailures(w.state) < attempts)
            && (c.Some? ==> w'.state == Settled(w.state) && c.value.handle in w'.open)
            && w'.leftover == [] && InStep(w, w')
    decreases attempts
  {
    ConnectingFake(b, w, false);
    var (w', c) := Attempt(b, w, false);
    if c.None? && attempts > 1 {
      OpeningFake(b, w', attempts - 1);
    }
  }

  /** A UID that identifies a card and fits the response buffer. */
  predicate ValidUID(uid: seq<byte>) {
    uid != [] && !(|uid| == 4 && uid[0] == 0x08) && |uid| <= 262
  }

  /** The reply to one exchange on an open handle and an empty stream, and the reader after it. */
  lemma ExchangingFake(b: Behaviour<Reader>, w: World<Reader>, h: nat)
    requires IsFake(b) && h in w.open && ValidUID(w.state.uid) && w.leftover == []
    ensures var (w', reply) := Exchange(b, w, h);
            var r := w.state;
            && w'.open == w.open && w'.leftover == []
            && w'.state == (if r.failUIDProbes > 0 then r.(failUIDProbes := r.failUIDProbes - 1) else r)
            && Classify(reply) == (if r.failUIDProbes > 0 then Suspect else if r.stuck then Wedged else Final(r.uid))
  {
    ExchangesAsFake(b, w.state, h);
    var (s, answer) := b.exchange(w.state, h);
    RightExchange(b.read, b.echo(s, HEADER_HEAD), answer);
    var uid := w.state.uid;
    var response := uid + [0x90, 0x00];
    assert response[..|uid|] == uid && response[|uid|..] == [0x90, 0x00];
  }

  lemma {:induction false} TransmittingFake(b: Behaviour<Reader>, w: World<Reader>, h: nat, attempts: nat)
    requires IsFake(b) && attempts > 0 && h in w.open && ValidUID(w.state.uid) && w.leftover == []
    ensures var (w', uid) := TransmitWithin(b, w, h, attempts);
            var lost, r := Positive(w.state.failUIDProbes), w.state;
            && w'.open == w.open && w'.leftover == []
            && w'.state == r.(failUIDProbes := if lost == 0 then r.failUIDProbes
                                               else if lost < attempts then 0 else lost - attempts)
            && uid == if lost < attempts && !r.stuck then Some(r.uid) else None
    decreases attempts
  {
    ExchangingFake(b, w, h);
    var w' := Exchange(b, w, h).0;
    if w.state.failUIDProbes > 0 && attempts > 1 {
      TransmittingFake(b, w', h, attempts - 1);
    }
  }

  lemma ClosingFake(b: Behaviour<Reader>, w: World<Reader>, h: nat, d: Disposition)
    requires IsFake(b) && h in w.open && w.leftover == []
    ensures var w' := Disconnect(b, w, h, d);
            w'.state == FakeClose(w.state, d).0 && w'.open == w.open - {h} && w'.leftover == [] && InStep(w, w')
  {
    ClosesAsFake(b, w.state, d);
    var (s, prompt) := b.close(w.state, d);
    RightClose(b.read, b.echo(s, CLOSE_SIZE), prompt);
  }

  /** Rounds after a reset: the wedge is gone, only lost exchanges and reactivation lag remain. */
  lemma {:induction false} InsistingFake(b: Behaviour<Reader>, w: World<Reader>, c: Connection, rounds: nat)
    requires IsFake(b) && rounds > 0 && c.handle in w.open && w.state.present && ValidUID(w.state.uid)
    requires w.state.failConnects <= 0 && !w.state.resetLag && w.leftover == []
    ensures var r := w.state;
            var lost, lag := Positive(r.failUIDProbes), Positive(r.failResetReconnects);
            var firstRound := lost < ATTEMPTS && !r.stuck;
            InsistWithin(b, w, c, rounds).1.uid ==
            if firstRound || (lost < ATTEMPTS * rounds && rounds > 1 && lag < REOPEN_ATTEMPTS) then r.uid else []
    decreases rounds
  {
    TransmittingFake(b, w, c.handle, ATTEMPTS);
    var (w1, uid) := TransmitWithin(b, w, c.handle, ATTEMPTS);
    if uid.None? && rounds > 1 {
      var w2 := Disconnect(b, w1, c.handle, ResetCard);
      ClosingFake(b, w1, c.handle, ResetCard);
      OpeningFake(b, w2, REOPEN_ATTEMPTS);
      var (w3, next) := OpenWithin(b, w2, REOPEN_ATTEMPTS);
      if next.Some? {
        InsistingFake(b, w3, next.value, rounds - 1);
      }
    }
  }

  /** The UID a probe ends with; empty when it ends without one. */
  function ProbedUID(echo: (Reader, nat) -> seq<byte>, w: World<Reader>, pins: nat): seq<byte> {
    var r := ProbeCard(Fake(echo), w, pins).1;
    if r.None? then [] else r.value.uid
  }

  /** The post-reset reconnect failures the first connect leaves behind. */
  function LagLeft(r: Reader): nat {
    Positive(Settled(r).failResetReconnects)
  }

  lemma {:induction false} AbsentNeverOpens(b: Behaviour<Reader>, w: World<Reader>, attempts: nat)
    requires IsFake(b) && attempts > 0 && !w.state.present && w.leftover == []
    ensures var (w', c) := OpenWithin(b, w, attempts); c.None? && InStep(w, w')
    decreases attempts
  {
    ConnectingFake(b, w, false);
    if attempts > 1 {
      AbsentNeverOpens(b, Attempt(b, w, false).0, attempts - 1);
    }
  }

  /** One exchange with a fake reader whose UID identifies nothing. */
  lemma ExchangingAnonymous(b: Behaviour<Reader>, w: World<Reader>, h: nat)
    requires IsFake(b) && h in w.open && |w.state.uid| <= 262 && !ValidUID(w.state.uid) && w.leftover == []
    ensures var (w', reply) := Exchange(b, w, h);
            && w'.open == w.open && w'.leftover == []
            && w'.state.uid == w.state.uid && w'.state.present == w.state.present
            && (Classify(reply).Final? ==> Classify(reply).uid == [])
  {
    ExchangesAsFake(b, w.state, h);
    var (s, answer) := b.exchange(w.state, h);
    RightExchange(b.read, b.echo(s, HEADER_HEAD), answer);
    var uid := w.state.uid;
    var response := uid + [0x90, 0x00];
    assert response[..|uid|] == uid && response[|uid|..] == [0x90, 0x00];
  }

  lemma {:induction false} TransmittingAnonymous(b: Behaviour<Reader>, w: World<Reader>, h: nat, attempts: nat)
    requires IsFake(b) && attempts > 0 && h in w.open && |w.state.uid| <= 262 && !ValidUID(w.state.uid) && w.leftover == []
    ensures var (w', uid) := TransmitWithin(b, w, h, attempts);
            && w'.open == w.open && w'.leftover == []
            && w'.state.uid == w.state.uid && w'.state.present == w.state.present
            && (uid.Some? ==> uid.value == [])
    decreases attempts
  {
    ExchangingAnonymous(b, w, h);
    if attempts > 1 {
      TransmittingAnonymous(b, Exchange(b, w, h).0, h, attempts - 1);
    }
  }

  lemma ReopeningAnonymous(b: Behaviour<Reader>, w: World<Reader>, h: nat)
    requires IsFake(b) && h in w.open && w.leftover == [] && w.state.present
    ensures var (w', next) := Reopen(b, w, h);
            next.Some? ==> next.value.handle in w'.open && w'.leftover == [] && w'.state.present && w'.state.uid == w.state.uid
  {
    ClosingFake(b, w, h, ResetCard);
    OpeningFake(b, Disconnect(b, w, h, ResetCard), REOPEN_ATTEMPTS);
  }

  lemma {:induction false} InsistingAnonymous(b: Behaviour<Reader>, w: World<Reader>, c: Connection, rounds: nat)
    requires IsFake(b) && rounds > 0 && c.handle in w.open && w.leftover == []
    requires w.state.present && |w.state.uid| <= 262 && !ValidUID(w.state.uid)
    ensures InsistWithin(b, w, c, rounds).1.uid == []
    decreases rounds
  {
    InsistSplits(b, w, c, rounds);
    TransmittingAnonymous(b, w, c.handle, ATTEMPTS);
    var (w1, uid) := TransmitWithin(b, w, c.handle, ATTEMPTS);
    if uid.None? && rounds > 1 {
      ReopeningAnonymous(b, w1, c.handle);
      var (w2, next) := NextRound(b, w, c);
      if next.Some? {
        InsistingAnonymous(b, w2, next.value, rounds - 1);
      }
    }
  }

  lemma AnonymousIsNotRead(echo: (Reader, nat) -> seq<byte>, w: World<Reader>, pins: nat)
    requires |w.state.uid| <= 262 && w.leftover == [] && (!w.state.present || !ValidUID(w.state.uid))
    ensures ProbedUID(echo, w, pins) == []
  {
    FakeIsFake(echo);
    if !w.state.present {
      AbsentNeverOpens(Fake(echo), w, ATTEMPTS);
    } else {
      OpeningFake(Fake(echo), w, ATTEMPTS);
      var (w1, c) := OpenWithin(Fake(echo), w, ATTEMPTS);
      if c.Some? {
        InsistingAnonymous(Fake(echo), w1, c.value, ROUNDS);
      }
    }
  }

  lemma ValidIsRead(echo: (Reader, nat) -> seq<byte>, w: World<Reader>, pins: nat)
    requires w.state.present && ValidUID(w.state.uid) && w.leftover == []
    ensures var r := w.state;
            ProbedUID(echo, w, pins) ==
            if ConnectFailures(r) <= 2 && r.failUIDProbes <= 8
               && (LagLeft(r) <= 7 || (r.failUIDProbes <= 2 && !r.stuck)) then r.uid else []
  {
    FakeIsFake(echo);
    OpeningFake(Fake(echo), w, ATTEMPTS);
    var (w1, c) := OpenWithin(Fake(echo), w, ATTEMPTS);
    if c.Some? {
      InsistingFake(Fake(echo), w1, c.value, ROUNDS);
    }
  }

  /**
   The exact budget, for every fake reader whose response fits: the UID is read if and only
   if a card is present, its UID is neither empty nor a random one of four bytes beginning
   with 08, its connect failures stay below three, its lost exchanges below nine, and either
   no reset is needed or the reset's reconnect failures stay below eight. Otherwise none is.
   */
  lemma UidBudget(echo: (Reader, nat) -> seq<byte>, w: World<Reader>, pins: nat)
    requires |w.state.uid| <= 262 && w.leftover == []
    ensures var r := w.state;
            ProbedUID(echo, w, pins) ==
            if r.present && r.uid != [] && !(|r.uid| == 4 && r.uid[0] == 0x08)
               && ConnectFailures(r) <= 2 && r.failUIDProbes <= 8
               && (LagLeft(r) <= 7 || (r.failUIDProbes <= 2 && !r.stuck)) then r.uid else []
  {
    if w.state.present && ValidUID(w.state.uid) {
      ValidIsRead(echo, w, pins);
    } else {
      AnonymousIsNotRead(echo, w, pins);
    }
  }

  /** A fresh presentation carries no reactivation lag: the budget in the reader's own counters. */
  lemma UidBudgetOfFreshPresentation(echo: (Reader, nat) -> seq<byte>, w: World<Reader>, pins: nat)
    requires |w.state.uid| <= 262 && !w.state.resetLag && w.leftover == []
    ensures var r, uid := w.state, ProbedUID(echo, w, pins);
            && (uid != [] ==> uid == r.uid)
            && (uid != [] <==>
                  && r.present && r.uid != [] && !(|r.uid| == 4 && r.uid[0] == 0x08)
                  && r.failConnects <= 2 && r.failUIDProbes <= 8
                  && (r.failResetReconnects <= 7 || (r.failUIDProbes <= 2 && !r.stuck)))
  {
    UidBudget(echo, w, pins);
  }

  // ---------------------------------------------------------------------------
  // What the account counts

  predicate Wedges(reply: Reply) {
    reply.Response? && |reply.bytes| >= 2 && reply.bytes[|reply.bytes| - 2] == 0x63 && reply.bytes[|reply.bytes| - 1] == 0x00
  }

  /**
   The account is honest: an exchange or disconnect of a handle that is not open is one
   misuse and does not reach the card, an exchange after 63 00 on the same handle is futile,
   and a disconnect with a reset is one reset.
   */
  lemma CommandsAreCounted<S>(b: Behaviour<S>, w: World<S>, h: nat, d: Disposition)
    ensures var (w', reply) := Exchange(b, w, h);
            var a, a' := w.account, w'.account;
            && a'.exchanges == a.exchanges + 1 && a'.resets == a.resets
            && a'.misuses == (if h in w.open then a.misuses else a.misuses + 1)
            && w'.state == (if h in w.open then b.exchange(w.state, h).0 else w.state)
            && (h in a.wedged ==> a'.futile == a.futile + 1) && (h !in a.wedged ==> a'.futile == a.futile)
            && (forall n :: n != h ==> (n in a'.wedged <==> n in a.wedged))
            && (h in a'.wedged <==> h in a.wedged || Wedges(reply))
    ensures var a, a' := w.account, Disconnect(b, w, h, d).account;
            && a'.disconnects == a.disconnects + 1 && a'.exchanges == a.exchanges
            && a'.misuses == (if h in w.open then a.misuses else a.misuses + 1)
            && a'.resets == (if d == ResetCard then a.resets + 1 else a.resets)
  {}
}
