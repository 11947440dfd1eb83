/**
 What happens to a probe after an answer that was not read to its end: the client takes
 the following answers out of the bytes left behind, and handles leak. And for which fake
 readers that happens.
 */
module Leftovers {
  import opened Common
  import opened Card
  import opened CardRuns
  import Wire

  /** The stream begins with this many zeros. */
  predicate StartsZero(stream: seq<byte>, n: nat) {
    |stream| >= n && stream[..n] == Wire.Zeros(n)
  }

  lemma ZerosInFront(stream: seq<byte>, m: nat, n: nat, later: seq<byte>)
    requires StartsZero(stream, m + n)
    ensures stream[..m] == Wire.Zeros(m) && StartsZero(stream[m..], n) && StartsZero(stream + later, m + n)
  {
    assert stream[..m] == stream[..m + n][..m] && stream[m..][..n] == stream[..m + n][m..];
    assert (stream + later)[..m + n] == stream[..m + n];
  }

  lemma {:induction false} WordsOfZeros(b: seq<byte>)
    requires Wire.Blank(b)
    ensures forall i :: 0 <= i < |Wire.Words(b)| ==> Wire.Words(b)[i] == 0
    decreases |b|
  {
    if |b| < 4 {
      assert Wire.Words(b) == [];
    } else {
      WordsOfZeros(b[..|b| - 4]);
      assert Wire.FromLE32(b[|b| - 4..]) == 0;
    }
  }

  lemma ZeroTwoParts(stream: seq<byte>, m: nat, k: nat, n: nat)
    requires StartsZero(stream, m + 4 * k + n)
    ensures var r := Wire.ReadParts(stream, [m, 4 * k]);
            |r.parts| == 2 && StartsZero(r.rest, n)
            && |Wire.Words(r.parts[1])| == k && forall i :: 0 <= i < k ==> Wire.Words(r.parts[1])[i] == 0
  {
    ZerosInFront(stream, m, 4 * k + n, []);
    ZerosInFront(stream[m..], 4 * k, n, []);
    assert stream[m..][..4 * k] == stream[m..m + 4 * k] && stream[m..][4 * k..] == stream[m + 4 * k..];
    Wire.TwoParts(stream, m, 4 * k);
    WordsOfZeros(Wire.Zeros(4 * k));
  }

  /** A connect that reads zeros takes them for success on handle zero. */
  lemma ConnectOfZeros(leftover: seq<byte>, echo: seq<byte>, handle: nat, answer: Timed<ConnectAnswer>, n: nat)
    requires StartsZero(leftover, CONNECT_SIZE + n)
    ensures var (outcome, rest) := ConnectRead(leftover, echo, handle, answer);
            outcome == Opened(Connection(0, 0)) && StartsZero(rest, n)
  {
    var own := ConnectBytes(echo, handle, if answer.value.Connected? then answer.value.protocol else 0, RvOf(answer.value));
    var arrived := leftover + InTime(own, answer.prompt);
    ZerosInFront(leftover, CONNECT_SIZE, n, InTime(own, answer.prompt));
    ZeroTwoParts(arrived, CONNECT_HEAD, 3, n);
    var (_, rest) := ReadConnect(arrived);
    ZerosInFront(rest, 0, n, TooLate(own, answer.prompt));
  }

  /** An exchange that reads zeros takes them for an empty response. */
  lemma ExchangeOfZeros(leftover: seq<byte>, echo: seq<byte>, answer: Timed<ExchangeAnswer>, n: nat)
    requires StartsZero(leftover, HEADER_SIZE + n)
    ensures var (reply, rest) := ExchangeRead(leftover, echo, answer); reply == Response([]) && StartsZero(rest, n)
  {
    var own := ExchangeBytes(echo, answer.value);
    var arrived := leftover + InTime(own, answer.prompt);
    ZerosInFront(leftover, HEADER_SIZE, n, InTime(own, answer.prompt));
    ZeroTwoParts(arrived, HEADER_HEAD, 2, n);
    var rest := Wire.ReadParts(arrived, HEADER_PARTS).rest;
    Wire.OnePart(rest, 0);
    ZerosInFront(rest, 0, n, TooLate(own, answer.prompt));
  }

  lemma CloseOfZeros(leftover: seq<byte>, echo: seq<byte>, prompt: nat, n: nat)
    requires StartsZero(leftover, CLOSE_SIZE + n)
    ensures StartsZero(CloseRead(leftover, echo, prompt), n)
  {
    var own := Fit(echo, CLOSE_SIZE);
    var arrived := leftover + InTime(own, prompt);
    ZerosInFront(leftover, CLOSE_SIZE, n, InTime(own, prompt));
    ZerosInFront(arrived, CLOSE_SIZE, n, []);
    Wire.OnePart(arrived, CLOSE_SIZE);
    ZerosInFront(arrived[CLOSE_SIZE..], 0, n, TooLate(own, prompt));
  }

  /** A response the client refuses for its length stays on the stream whole. */
  lemma LongResponseStays(echo: seq<byte>, bytes: seq<byte>)
    requires MAX_RESPONSE < |bytes| < U32_RANGE
    ensures ExchangeRead([], echo, Served(Answered(bytes))) == (Lost, bytes)
  {
    var own := ExchangeBytes(echo, Answered(bytes));
    LongIsRefused(echo, bytes);
    LeftWhole(own, HEADER_SIZE + |bytes|, bytes);
  }

  lemma LongIsRefused(echo: seq<byte>, bytes: seq<byte>)
    requires MAX_RESPONSE < |bytes| < U32_RANGE
    ensures ReadExchange(ExchangeBytes(echo, Answered(bytes))) == (Lost, bytes)
    ensures |ExchangeBytes(echo, Answered(bytes))| == HEADER_SIZE + |bytes|
  {
    HeaderReadsBack(echo, |bytes|, 0, bytes);
  }

  lemma LeftWhole(own: seq<byte>, prompt: nat, rest: seq<byte>)
    requires prompt >= |own|
    ensures [] + InTime(own, prompt) == own && rest + TooLate(own, prompt) == rest
  {}

  // ---------------------------------------------------------------------------
  // What reading zeros does, for any reads that do it

  predicate ZeroConnect(seen: (Outcome, seq<byte>), leftover: seq<byte>, n: nat) {
    StartsZero(leftover, CONNECT_SIZE + n) ==> seen.0 == Opened(Connection(0, 0)) && StartsZero(seen.1, n)
  }

  predicate ZeroExchange(seen: (Reply, seq<byte>), leftover: seq<byte>, n: nat) {
    StartsZero(leftover, HEADER_SIZE + n) ==> seen.0 == Response([]) && StartsZero(seen.1, n)
  }

  predicate ZeroClose(left: seq<byte>, leftover: seq<byte>, n: nat) {
    StartsZero(leftover, CLOSE_SIZE + n) ==> StartsZero(left, n)
  }

  predicate LongStays(seen: (Reply, seq<byte>), bytes: seq<byte>) {
    MAX_RESPONSE < |bytes| < U32_RANGE ==> seen == (Lost, bytes)
  }

  /** Leading zeros are taken for success, and long responses stay on the stream. */
  ghost predicate TakesZeros(read: Reading) {
    && (forall leftover: seq<byte>, echo: seq<byte>, handle: nat, answer: Timed<ConnectAnswer>, n: nat
          {:trigger ZeroConnect(read.connect(leftover, echo, handle, answer), leftover, n)} ::
          ZeroConnect(read.connect(leftover, echo, handle, answer), leftover, n))
    && (forall leftover: seq<byte>, echo: seq<byte>, answer: Timed<ExchangeAnswer>, n: nat
          {:trigger ZeroExchange(read.exchange(leftover, echo, answer), leftover, n)} ::
          ZeroExchange(read.exchange(leftover, echo, answer), leftover, n))
    && (forall leftover: seq<byte>, echo: seq<byte>, prompt: nat, n: nat
          {:trigger ZeroClose(read.close(leftover, echo, prompt), leftover, n)} ::
          ZeroClose(read.close(leftover, echo, prompt), leftover, n))
    && (forall echo: seq<byte>, bytes: seq<byte>
          {:trigger LongStays(read.exchange([], echo, Served(Answered(bytes))), bytes)} ::
          LongStays(read.exchange([], echo, Served(Answered(bytes))), bytes))
  }

  lemma BytesTakeZeros()
    ensures TakesZeros(BYTES)
  {
    forall leftover: seq<byte>, echo: seq<byte>, handle: nat, answer: Timed<ConnectAnswer>, n: nat
      ensures ZeroConnect(BYTES.connect(leftover, echo, handle, answer), leftover, n)
    {
      if StartsZero(leftover, CONNECT_SIZE + n) {
        ConnectOfZeros(leftover, echo, handle, answer, n);
      }
    }
    forall leftover: seq<byte>, echo: seq<byte>, answer: Timed<ExchangeAnswer>, n: nat
      ensures ZeroExchange(BYTES.exchange(leftover, echo, answer), leftover, n)
    {
      if StartsZero(leftover, HEADER_SIZE + n) {
        ExchangeOfZeros(leftover, echo, answer, n);
      }
    }
    forall leftover: seq<byte>, echo: seq<byte>, prompt: nat, n: nat
      ensures ZeroClose(BYTES.close(leftover, echo, prompt), leftover, n)
    {
      if StartsZero(leftover, CLOSE_SIZE + n) {
        CloseOfZeros(leftover, echo, prompt, n);
      }
    }
    forall echo: seq<byte>, bytes: seq<byte>
      ensures LongStays(BYTES.exchange([], echo, Served(Answered(bytes))), bytes)
    {
      if MAX_RESPONSE < |bytes| < U32_RANGE {
        LongResponseStays(echo, bytes);
      }
    }
  }

  lemma ConnectTakesZeros(read: Reading, leftover: seq<byte>, echo: seq<byte>, handle: nat, answer: Timed<ConnectAnswer>, n: nat)
    requires TakesZeros(read)
    ensures ZeroConnect(read.connect(leftover, echo, handle, answer), leftover, n)
  {}

  lemma ExchangeTakesZeros(read: Reading, leftover: seq<byte>, echo: seq<byte>, answer: Timed<ExchangeAnswer>, n: nat)
    requires TakesZeros(read)
    ensures ZeroExchange(read.exchange(leftover, echo, answer), leftover, n)
  {}

  lemma CloseTakesZeros(read: Reading, leftover: seq<byte>, echo: seq<byte>, prompt: nat, n: nat)
    requires TakesZeros(read)
    ensures ZeroClose(read.close(leftover, echo, prompt), leftover, n)
  {}

  lemma ExchangeKeepsLong(read: Reading, echo: seq<byte>, bytes: seq<byte>)
    requires TakesZeros(read)
    ensures LongStays(read.exchange([], echo, Served(Answered(bytes))), bytes)
  {}

  // ---------------------------------------------------------------------------
  // The fake reader with a long UID of zeros

  /** A fake reader that fails nothing from here on. */
  predicate Calm(r: Reader) {
    r.present && r.failConnects <= 0 && r.failUIDProbes <= 0 && r.failResetReconnects <= 0 && !r.stuck && r.uid != []
  }

  /** What a calm reader answers. */
  predicate CalmConnect(answered: (Reader, Timed<ConnectAnswer>), r: Reader) {
    Calm(r) ==> answered == (r.(resetLag := false), Timed(Connected(T1), CONNECT_SIZE))
  }

  predicate CalmExchange(answered: (Reader, Timed<ExchangeAnswer>), r: Reader) {
    Calm(r) ==> answered == (r, Served(Answered(r.uid + [0x90, 0x00])))
  }

  predicate CalmClose(answered: (Reader, nat), r: Reader, d: Disposition) {
    Calm(r) ==> answered == (if d.ResetCard? then r.(resetLag := true) else r, CLOSE_SIZE)
  }

  /** The fake reader over reads that take leading zeros for success. */
  ghost predicate ZeroFake(b: Behaviour<Reader>) {
    IsFake(b) && TakesZeros(b.read)
  }

  lemma FakeIsZeroFake(echo: (Reader, nat) -> seq<byte>)
    ensures ZeroFake(Fake(echo))
  {
    FakeIsFake(echo);
    BytesTakeZeros();
  }

  lemma ConnectsCalmly(b: Behaviour<Reader>, r: Reader, raw: bool)
    requires ZeroFake(b)
    ensures CalmConnect(b.connect(r, raw), r)
  {
    ConnectsAsFake(b, r, raw);
  }

  lemma ExchangesCalmly(b: Behaviour<Reader>, r: Reader, h: nat)
    requires ZeroFake(b)
    ensures CalmExchange(b.exchange(r, h), r)
  {
    ExchangesAsFake(b, r, h);
  }

  lemma ClosesCalmly(b: Behaviour<Reader>, r: Reader, d: Disposition)
    requires ZeroFake(b)
    ensures CalmClose(b.close(r, d), r, d)
  {
    ClosesAsFake(b, r, d);
  }

  /** Only the lag that a reset sets and a connect clears may differ. */
  predicate SameReader(r: Reader, r': Reader) {
    r' == r.(resetLag := r'.resetLag)
  }

  /** The daemon's side after some commands: the same reader, these handles, and so many zeros in front of the stream. */
  ghost predicate Went(w: World<Reader>, w': World<Reader>, open': set<nat>, handles': nat, n: nat) {
    && Calm(w'.state) && SameReader(w.state, w'.state)
    && w'.open == open' && w'.handles == handles' && StartsZero(w'.leftover, n)
  }

  lemma WentOn(w: World<Reader>, w1: World<Reader>, open1: set<nat>, h1: nat, n1: nat,
               w2: World<Reader>, open2: set<nat>, h2: nat, n: nat)
    requires Went(w, w1, open1, h1, n1) && Went(w1, w2, open2, h2, n)
    ensures Went(w, w2, open2, h2, n)
  {}

  lemma FakeExchangeOfZeros(b: Behaviour<Reader>, w: World<Reader>, h: nat, n: nat)
    requires ZeroFake(b)
    requires Calm(w.state) && StartsZero(w.leftover, HEADER_SIZE + n)
    ensures Classify(Exchange(b, w, h).1).Suspect? && Went(w, Exchange(b, w, h).0, w.open, w.handles, n)
  {
    var (s, answer) := if h in w.open then b.exchange(w.state, h) else (w.state, Timed(Refused(INVALID_HANDLE), HEADER_SIZE));
    ExchangesCalmly(b, w.state, h);
    ExchangeTakesZeros(b.read, w.leftover, b.echo(s, HEADER_HEAD), answer, n);
  }

  lemma TransmitSplits(b: Behaviour<Reader>, w: World<Reader>, h: nat, attempts: nat)
    requires attempts > 0 && Classify(Exchange(b, w, h).1).Suspect?
    ensures TransmitWithin(b, w, h, attempts)
         == if attempts == 1 then (Exchange(b, w, h).0, None) else TransmitWithin(b, Exchange(b, w, h).0, h, attempts - 1)
  {}

  /** A transmit that ended without an answer. */
  ghost predicate Unanswered(w: World<Reader>, t: (World<Reader>, Option<seq<byte>>), n: nat) {
    t.1.None? && Went(w, t.0, w.open, w.handles, n)
  }

  lemma UnansweredAgain(w: World<Reader>, w1: World<Reader>, n1: nat, t: (World<Reader>, Option<seq<byte>>), n: nat)
    requires Went(w, w1, w.open, w.handles, n1) && Unanswered(w1, t, n)
    ensures Unanswered(w, t, n)
  {}

  lemma CalmAndZero(w: World<Reader>, w': World<Reader>, open': set<nat>, handles': nat, n: nat)
    requires Went(w, w', open', handles', n)
    ensures Calm(w'.state) && StartsZero(w'.leftover, n) && w'.open == open' && w'.handles == handles'
  {}

  lemma {:induction false} FakeTransmitOfZeros(b: Behaviour<Reader>, w: World<Reader>, h: nat, attempts: nat, n: nat)
    requires ZeroFake(b)
    requires attempts > 0 && Calm(w.state) && StartsZero(w.leftover, 32 * attempts + n)
    ensures Unanswered(w, TransmitWithin(b, w, h, attempts), n)
    decreases attempts
  {
    var later := 32 * (attempts - 1) + n;
    var w1 := Exchange(b, w, h).0;
    FakeExchangeOfZeros(b, w, h, later);
    TransmitSplits(b, w, h, attempts);
    if attempts == 1 {
      assert Unanswered(w, (w1, None), n);
    } else {
      CalmAndZero(w, w1, w.open, w.handles, later);
      FakeTransmitOfZeros(b, w1, h, attempts - 1, n);
      UnansweredAgain(w, w1, later, TransmitWithin(b, w1, h, attempts - 1), n);
    }
  }

  lemma FakeCloseOfZeros(b: Behaviour<Reader>, w: World<Reader>, h: nat, d: Disposition, n: nat)
    requires ZeroFake(b)
    requires Calm(w.state) && StartsZero(w.leftover, CLOSE_SIZE + n)
    ensures Went(w, Disconnect(b, w, h, d), w.open - {h}, w.handles, n)
  {
    var (s, prompt) := if h in w.open then b.close(w.state, d) else (w.state, CLOSE_SIZE);
    ClosesCalmly(b, w.state, d);
    CloseTakesZeros(b.read, w.leftover, b.echo(s, CLOSE_SIZE), prompt, n);
  }

  /** An open that gave the client handle zero and the daemon one more handle. */
  ghost predicate GotZero(w: World<Reader>, o: (World<Reader>, Option<Connection>), open': set<nat>, n: nat) {
    o.1 == Some(Connection(0, 0)) && Went(w, o.0, open', w.handles + 1, n)
  }

  lemma FakeConnectOfZeros(b: Behaviour<Reader>, w: World<Reader>, n: nat)
    requires ZeroFake(b)
    requires Calm(w.state) && StartsZero(w.leftover, CONNECT_SIZE + n)
    ensures Connect(b, w, false).1 == Opened(Connection(0, 0))
    ensures Went(w, Connect(b, w, false).0, w.open + {w.handles + 1}, w.handles + 1, n)
  {
    var (s, answer) := b.connect(w.state, false);
    ConnectsCalmly(b, w.state, false);
    ConnectTakesZeros(b.read, w.leftover, b.echo(s, CONNECT_HEAD), w.handles + 1, answer, n);
  }

  lemma OpensAtOnce(b: Behaviour<Reader>, w: World<Reader>, attempts: nat, c: Connection)
    requires attempts > 0 && Connect(b, w, false).1 == Opened(c)
    ensures OpenWithin(b, w, attempts) == (Connect(b, w, false).0, Some(c))
  {
    assert Attempt(b, w, false) == (Connect(b, w, false).0, Some(c));
  }

  lemma FakeOpenOfZeros(b: Behaviour<Reader>, w: World<Reader>, attempts: nat, n: nat)
    requires ZeroFake(b)
    requires attempts > 0 && Calm(w.state) && StartsZero(w.leftover, CONNECT_SIZE + n)
    ensures GotZero(w, OpenWithin(b, w, attempts), w.open + {w.handles + 1}, n)
  {
    FakeConnectOfZeros(b, w, n);
    OpensAtOnce(b, w, attempts, Connection(0, 0));
  }

  /** Bytes a round without a final answer takes off the stream, and those of its reset and reopen. */
  const ROUND_SIZE: nat := 260
  const REOPEN_SIZE: nat := 164

  lemma ClosedThenZero(w: World<Reader>, h: nat, m: nat, w1: World<Reader>, o: (World<Reader>, Option<Connection>), n: nat)
    requires Went(w, w1, w.open - {h}, w.handles, m) && GotZero(w1, o, w1.open + {w1.handles + 1}, n)
    ensures GotZero(w, o, w.open - {h} + {w.handles + 1}, n)
  {}

  lemma FakeReopenOfZeros(b: Behaviour<Reader>, w: World<Reader>, h: nat, n: nat)
    requires ZeroFake(b)
    requires Calm(w.state) && StartsZero(w.leftover, REOPEN_SIZE + n)
    ensures GotZero(w, Reopen(b, w, h), w.open - {h} + {w.handles + 1}, n)
  {
    var w1 := Disconnect(b, w, h, ResetCard);
    FakeCloseOfZeros(b, w, h, ResetCard, CONNECT_SIZE + n);
    CalmAndZero(w, w1, w.open - {h}, w.handles, CONNECT_SIZE + n);
    FakeOpenOfZeros(b, w1, REOPEN_ATTEMPTS, n);
    ClosedThenZero(w, h, CONNECT_SIZE + n, w1, OpenWithin(b, w1, REOPEN_ATTEMPTS), n);
  }

  lemma UnansweredThenZero(w: World<Reader>, t: (World<Reader>, Option<seq<byte>>), m: nat, h: nat,
                           o: (World<Reader>, Option<Connection>), n: nat)
    requires Unanswered(w, t, m) && GotZero(t.0, o, t.0.open - {h} + {t.0.handles + 1}, n)
    ensures GotZero(w, o, w.open - {h} + {w.handles + 1}, n)
  {}

  /** A UID of zeros, longer than the client's buffer and than what a whole probe reads. */
  predicate LongZeroUid(r: Reader, n: nat) {
    MAX_RESPONSE < |r.uid| < U32_RANGE - 2 && |r.uid| >= n && r.uid == Wire.Zeros(|r.uid|)
  }

  lemma ZerosOfUid(uid: seq<byte>, n: nat)
    requires n <= |uid| && uid == Wire.Zeros(|uid|)
    ensures StartsZero(uid + [0x90, 0x00], n)
  {
    assert (uid + [0x90, 0x00])[..n] == uid[..n];
  }

  lemma LongUidStays(b: Behaviour<Reader>, w: World<Reader>, h: nat, n: nat)
    requires ZeroFake(b)
    requires Calm(w.state) && w.leftover == [] && h in w.open && LongZeroUid(w.state, n)
    ensures Classify(Exchange(b, w, h).1).Suspect? && Went(w, Exchange(b, w, h).0, w.open, w.handles, n)
  {
    ExchangesCalmly(b, w.state, h);
    ExchangeKeepsLong(b.read, b.echo(w.state, HEADER_HEAD), w.state.uid + [0x90, 0x00]);
    ZerosOfUid(w.state.uid, n);
  }

  /** The first exchange leaves its whole payload; two more read zeros out of it. */
  lemma LongUidTransmit(b: Behaviour<Reader>, w: World<Reader>, h: nat, n: nat)
    requires ZeroFake(b)
    requires Calm(w.state) && w.leftover == [] && h in w.open && LongZeroUid(w.state, 64 + n)
    ensures Unanswered(w, TransmitWithin(b, w, h, ATTEMPTS), n)
  {
    var later := 64 + n;
    var w1 := Exchange(b, w, h).0;
    LongUidStays(b, w, h, later);
    TransmitSplits(b, w, h, ATTEMPTS);
    CalmAndZero(w, w1, w.open, w.handles, later);
    FakeTransmitOfZeros(b, w1, h, 2, n);
    UnansweredAgain(w, w1, later, TransmitWithin(b, w1, h, 2), n);
  }

  lemma {:induction false} FakePinOfZeros(b: Behaviour<Reader>, w: World<Reader>, h: nat, pins: nat, n: nat)
    requires ZeroFake(b)
    requires Calm(w.state) && StartsZero(w.leftover, 32 * pins + n)
    ensures Went(w, Pin(b, w, h, pins), w.open, w.handles, n)
    decreases pins
  {
    if pins == 0 {
      assert Pin(b, w, h, 0) == w;
    } else {
      var later := 32 * (pins - 1) + n;
      var w1 := Exchange(b, w, h).0;
      FakeExchangeOfZeros(b, w, h, later);
      CalmAndZero(w, w1, w.open, w.handles, later);
      FakePinOfZeros(b, w1, h, pins - 1, n);
      WentOn(w, w1, w.open, w.handles, later, Pin(b, w1, h, pins - 1), w.open, w.handles, n);
    }
  }

  /** An insistence that read zeros to its end: no UID, and the client left with handle zero. */
  ghost predicate EndedOnZero(i: (World<Reader>, Insisted), open': set<nat>, n: nat) {
    && i.1.uid == [] && i.1.live == Some(Connection(0, 0))
    && Calm(i.0.state) && i.0.open == open' && StartsZero(i.0.leftover, n)
  }

  lemma LastRoundOfZeros(b: Behaviour<Reader>, w: World<Reader>, n: nat)
    requires ZeroFake(b)
    requires Calm(w.state) && StartsZero(w.leftover, 96 + n)
    ensures EndedOnZero(InsistWithin(b, w, Connection(0, 0), 1), w.open, n)
  {
    FakeTransmitOfZeros(b, w, 0, ATTEMPTS, n);
    InsistSplits(b, w, Connection(0, 0), 1);
  }

  lemma RoundAndTheRest(b: Behaviour<Reader>, w: World<Reader>, c: Connection, rounds: nat,
                        t: (World<Reader>, Option<seq<byte>>), o: (World<Reader>, Option<Connection>))
    requires rounds > 1 && t == TransmitWithin(b, w, c.handle, ATTEMPTS) && t.1.None?
    requires o == Reopen(b, t.0, c.handle) && o.1 == Some(Connection(0, 0))
    ensures InsistWithin(b, w, c, rounds) == InsistWithin(b, o.0, Connection(0, 0), rounds - 1)
  {}

  lemma ZeroThenEnded(w: World<Reader>, o: (World<Reader>, Option<Connection>), open1: set<nat>, m: nat,
                      i: (World<Reader>, Insisted), more: set<nat>, n: nat)
    requires GotZero(w, o, open1, m) && EndedOnZero(i, o.0.open + more, n)
    ensures EndedOnZero(i, open1 + more, n)
  {}

  lemma ZeroAfterRound(b: Behaviour<Reader>, w: World<Reader>, c: Connection,
                       t: (World<Reader>, Option<seq<byte>>), o: (World<Reader>, Option<Connection>), m: nat)
    requires ZeroFake(b) && Unanswered(w, t, REOPEN_SIZE + m) && o == Reopen(b, t.0, c.handle)
    ensures GotZero(w, o, w.open - {c.handle} + {w.handles + 1}, m)
  {
    CalmAndZero(w, t.0, w.open, w.handles, REOPEN_SIZE + m);
    FakeReopenOfZeros(b, t.0, c.handle, m);
    UnansweredThenZero(w, t, REOPEN_SIZE + m, c.handle, o, m);
  }

  /** An insistence is what is left of it after a round over zeros. */
  lemma RoundsToGo(b: Behaviour<Reader>, w: World<Reader>, c: Connection, rounds: nat,
                   t: (World<Reader>, Option<seq<byte>>), o: (World<Reader>, Option<Connection>),
                   later: (World<Reader>, Insisted), more: set<nat>, m: nat, n: nat)
    requires ZeroFake(b) && rounds > 1
    requires t == TransmitWithin(b, w, c.handle, ATTEMPTS) && Unanswered(w, t, REOPEN_SIZE + m)
    requires o == Reopen(b, t.0, c.handle) && later == InsistWithin(b, o.0, Connection(0, 0), rounds - 1)
    requires GotZero(w, o, w.open - {c.handle} + {w.handles + 1}, m) ==> EndedOnZero(later, o.0.open + more, n)
    ensures InsistWithin(b, w, c, rounds) == later
    ensures EndedOnZero(later, w.open - {c.handle} + {w.handles + 1} + more, n)
  {
    ZeroAfterRound(b, w, c, t, o, m);
    ZeroThenEnded(w, o, w.open - {c.handle} + {w.handles + 1}, m, later, more, n);
    RoundAndTheRest(b, w, c, rounds, t, o);
  }

  lemma LastAfterZero(b: Behaviour<Reader>, w: World<Reader>, o: (World<Reader>, Option<Connection>), open': set<nat>, n: nat)
    requires ZeroFake(b) && GotZero(w, o, open', 96 + n)
    ensures EndedOnZero(InsistWithin(b, o.0, Connection(0, 0), 1), o.0.open + {}, n)
  {
    CalmAndZero(w, o.0, open', w.handles + 1, 96 + n);
    LastRoundOfZeros(b, o.0, n);
    assert o.0.open + {} == o.0.open;
  }

  /** The last but one round opens a handle behind the client's back. */
  lemma LastRoundsOfZeros(b: Behaviour<Reader>, w: World<Reader>, n: nat)
    requires ZeroFake(b)
    requires Calm(w.state) && 0 !in w.open && StartsZero(w.leftover, ROUND_SIZE + 96 + n)
    ensures EndedOnZero(InsistWithin(b, w, Connection(0, 0), 2), w.open + {w.handles + 1}, n)
  {
    FakeTransmitOfZeros(b, w, 0, ATTEMPTS, REOPEN_SIZE + 96 + n);
    var t := TransmitWithin(b, w, 0, ATTEMPTS);
    var o := Reopen(b, t.0, 0);
    var open' := w.open - {0} + {w.handles + 1};
    if GotZero(w, o, open', 96 + n) {
      LastAfterZero(b, w, o, open', n);
    }
    RoundsToGo(b, w, Connection(0, 0), 2, t, o, InsistWithin(b, o.0, Connection(0, 0), 1), {}, 96 + n, n);
    assert open' + {} == w.open + {w.handles + 1};
  }

  lemma LastsAfterZero(b: Behaviour<Reader>, w: World<Reader>, o: (World<Reader>, Option<Connection>), open': set<nat>, n: nat)
    requires ZeroFake(b) && GotZero(w, o, open', ROUND_SIZE + 96 + n) && 0 !in open'
    ensures EndedOnZero(InsistWithin(b, o.0, Connection(0, 0), 2), o.0.open + {w.handles + 2}, n)
  {
    CalmAndZero(w, o.0, open', w.handles + 1, ROUND_SIZE + 96 + n);
    LastRoundsOfZeros(b, o.0, n);
  }

  lemma RoundsAfterLongUid(b: Behaviour<Reader>, w: World<Reader>, c: Connection, t: (World<Reader>, Option<seq<byte>>),
                           open1: set<nat>, n: nat)
    requires ZeroFake(b) && t == TransmitWithin(b, w, c.handle, ATTEMPTS)
    requires Unanswered(w, t, REOPEN_SIZE + ROUND_SIZE + 96 + n)
    requires open1 == w.open - {c.handle} + {w.handles + 1} && 0 !in open1
    ensures EndedOnZero(InsistWithin(b, w, c, ROUNDS), open1 + {w.handles + 2}, n)
  {
    var o := Reopen(b, t.0, c.handle);
    if GotZero(w, o, open1, ROUND_SIZE + 96 + n) {
      LastsAfterZero(b, w, o, open1, n);
    }
    RoundsToGo(b, w, c, ROUNDS, t, o, InsistWithin(b, o.0, Connection(0, 0), 2), {w.handles + 2}, ROUND_SIZE + 96 + n, n);
  }

  lemma InsistenceOnLongUid(b: Behaviour<Reader>, w: World<Reader>, c: Connection, n: nat)
    requires ZeroFake(b)
    requires Calm(w.state) && w.leftover == [] && c.handle in w.open && LongZeroUid(w.state, 584 + n)
    requires 0 !in w.open
    ensures EndedOnZero(InsistWithin(b, w, c, ROUNDS), w.open - {c.handle} + {w.handles + 1} + {w.handles + 2}, n)
  {
    LongUidTransmit(b, w, c.handle, REOPEN_SIZE + ROUND_SIZE + 96 + n);
    RoundsAfterLongUid(b, w, c, TransmitWithin(b, w, c.handle, ATTEMPTS), w.open - {c.handle} + {w.handles + 1}, n);
  }

  lemma EndOfZeros(b: Behaviour<Reader>, w: World<Reader>, pins: nat)
    requires ZeroFake(b)
    requires Calm(w.state) && 0 !in w.open && StartsZero(w.leftover, 32 * pins + CLOSE_SIZE)
    ensures Disconnect(b, Pin(b, w, 0, pins), 0, LeaveCard).open == w.open
  {
    var w1 := Pin(b, w, 0, pins);
    FakePinOfZeros(b, w, 0, pins, CLOSE_SIZE);
    CalmAndZero(w, w1, w.open, w.handles, CLOSE_SIZE);
    FakeCloseOfZeros(b, w1, 0, LeaveCard, 0);
    CalmAndZero(w1, Disconnect(b, w1, 0, LeaveCard), w1.open - {0}, w1.handles, 0);
    assert w.open - {0} == w.open;
  }

  /** A connection opened on an empty stream. */
  ghost predicate OpenedClean(w: World<Reader>, o: (World<Reader>, Option<Connection>)) {
    && o.1 == Some(Connection(w.handles + 1, T1)) && o.0.leftover == []
    && Calm(o.0.state) && SameReader(w.state, o.0.state)
    && o.0.open == w.open + {w.handles + 1} && o.0.handles == w.handles + 1
  }

  lemma FakeOpensClean(b: Behaviour<Reader>, w: World<Reader>, attempts: nat)
    requires ZeroFake(b)
    requires attempts > 0 && Calm(w.state) && w.leftover == []
    ensures OpenedClean(w, OpenWithin(b, w, attempts))
  {
    var (s, answer) := b.connect(w.state, false);
    ConnectsCalmly(b, w.state, false);
    RightConnect(b.read, b.echo(s, CONNECT_HEAD), w.handles + 1, answer);
    OpensAtOnce(b, w, attempts, Connection(w.handles + 1, T1));
  }

  lemma CleanThenEnded(b: Behaviour<Reader>, w: World<Reader>, o: (World<Reader>, Option<Connection>),
                       i: (World<Reader>, Insisted), n: nat)
    requires ZeroFake(b)
    requires Sane(w) && 0 !in w.open && LongZeroUid(w.state, 584 + n) && OpenedClean(w, o)
    requires i == InsistWithin(b, o.0, o.1.value, ROUNDS)
    ensures EndedOnZero(i, w.open + {w.handles + 2, w.handles + 3}, n)
  {
    InsistenceOnLongUid(b, o.0, o.1.value, n);
    OpenAfterLongUid(w.open, w.handles);
  }

  lemma EndAfterLongUid(b: Behaviour<Reader>, i: (World<Reader>, Insisted), open': set<nat>, pins: nat)
    requires ZeroFake(b) && EndedOnZero(i, open', 32 * pins + CLOSE_SIZE) && 0 !in open'
    ensures Disconnect(b, Pin(b, i.0, 0, pins), 0, LeaveCard).open == open'
  {
    EndOfZeros(b, i.0, pins);
  }

  lemma ProbeOfParts(b: Behaviour<Reader>, w: World<Reader>, pins: nat, o: (World<Reader>, Option<Connection>),
                     i: (World<Reader>, Insisted))
    requires o == OpenWithin(b, w, ATTEMPTS) && o.1.Some?
    requires i == InsistWithin(b, o.0, o.1.value, ROUNDS) && i.1.live == Some(Connection(0, 0))
    ensures ProbeCard(b, w, pins).0 == Disconnect(b, Pin(b, i.0, 0, pins), 0, LeaveCard)
  {
    ProbeSplits(b, w, pins);
  }

  lemma LiveAndOpen(i: (World<Reader>, Insisted), open': set<nat>, n: nat)
    requires EndedOnZero(i, open', n)
    ensures i.1.live == Some(Connection(0, 0))
  {}

  /** From the last connection on a probe reads zeros and closes nothing. */
  lemma ProbeEnds(b: Behaviour<Reader>, w: World<Reader>, o: (World<Reader>, Option<Connection>), i: (World<Reader>, Insisted),
                  pins: nat, open': set<nat>, n: nat)
    requires ZeroFake(b) && 0 !in open' && o == OpenWithin(b, w, ATTEMPTS) && o.1.Some?
    requires i == InsistWithin(b, o.0, o.1.value, ROUNDS) && EndedOnZero(i, open', n) && n == 32 * pins + CLOSE_SIZE
    ensures ProbeCard(b, w, pins).0.open == open'
  {
    LiveAndOpen(i, open', n);
    ProbeOfParts(b, w, pins, o, i);
    EndAfterLongUid(b, i, open', pins);
  }

  lemma CleanOpenIsSome(w: World<Reader>, o: (World<Reader>, Option<Connection>))
    requires OpenedClean(w, o)
    ensures o.1.Some?
  {}

  lemma CleanProbeEnds(b: Behaviour<Reader>, w: World<Reader>, o: (World<Reader>, Option<Connection>), pins: nat)
    requires ZeroFake(b) && o == OpenWithin(b, w, ATTEMPTS) && OpenedClean(w, o)
    requires Sane(w) && 0 !in w.open && LongZeroUid(w.state, 584 + (32 * pins + CLOSE_SIZE))
    ensures ProbeCard(b, w, pins).0.open == w.open + {w.handles + 2, w.handles + 3}
  {
    CleanOpenIsSome(w, o);
    var i, n := InsistWithin(b, o.0, o.1.value, ROUNDS), 32 * pins + CLOSE_SIZE;
    var open' := w.open + {w.handles + 2, w.handles + 3};
    CleanThenEnded(b, w, o, i, n);
    ProbeEnds(b, w, o, i, pins, open', n);
  }

  lemma ProbeOfLongUid(b: Behaviour<Reader>, w: World<Reader>, pins: nat)
    requires ZeroFake(b)
    requires Sane(w) && w.leftover == [] && 0 !in w.open && Calm(w.state)
    requires LongZeroUid(w.state, 596 + 32 * pins)
    ensures ProbeCard(b, w, pins).0.open == w.open + {w.handles + 2, w.handles + 3}
  {
    FakeOpensClean(b, w, ATTEMPTS);
    CleanProbeEnds(b, w, OpenWithin(b, w, ATTEMPTS), pins);
  }

  lemma OpenAfterLongUid(open: set<nat>, handles: nat)
    requires forall h :: h in open ==> h <= handles
    ensures open + {handles + 1} - {handles + 1} + {handles + 2} + {handles + 3} == open + {handles + 2, handles + 3}
  {}

  /**
   A long UID of zeros is a failing input: the client refuses its response unread, takes
   the following answers out of it, and leaves two handles open in the daemon.
   */
  lemma LongUidLeaksHandles(echo: (Reader, nat) -> seq<byte>, w: World<Reader>, pins: nat)
    requires Sane(w) && w.leftover == [] && 0 !in w.open && Calm(w.state)
    requires LongZeroUid(w.state, 596 + 32 * pins)
    ensures var w' := ProbeCard(Fake(echo), w, pins).0;
            w'.open == w.open + {w.handles + 2, w.handles + 3} && w'.open != w.open
    ensures !AllRead(Fake(echo), w, pins)
  {
    BytesAreFaithful();
    FakeIsZeroFake(echo);
    ProbeOfLongUid(Fake(echo), w, pins);
    assert w.handles + 2 !in w.open;
    ProbeConservesHandles(Fake(echo), w, pins);
  }

  // ---------------------------------------------------------------------------
  // Which fake readers leave bytes behind

  /** The response to a UID exchange fits the client's buffer. */
  predicate ShortUid(r: Reader) {
    |r.uid| + 2 <= MAX_RESPONSE
  }

  lemma ShortUidOnTime(echo: (Reader, nat) -> seq<byte>)
    ensures OnTime(Fake(echo), ShortUid)
  {}

  /** The same handles, an empty stream, nothing left behind. */
  predicate Clean(w: World<Reader>, w': World<Reader>) {
    w'.open == w.open && w'.leftover == [] && InStep(w, w')
  }

  lemma ExchangingLong(b: Behaviour<Reader>, w: World<Reader>, h: nat)
    requires IsFake(b) && h in w.open && !ShortUid(w.state) && w.leftover == []
    ensures var (w', reply) := Exchange(b, w, h);
            var r := w.state;
            if r.failUIDProbes > 0 then Clean(w, w') && w'.state == r.(failUIDProbes := r.failUIDProbes - 1) && Classify(reply).Suspect?
            else if r.stuck then Clean(w, w') && w'.state == r && Classify(reply).Wedged?
            else !InStep(w, w')
  {
    ExchangesAsFake(b, w.state, h);
    var (s, answer) := b.exchange(w.state, h);
    RightExchange(b.read, b.echo(s, HEADER_HEAD), answer);
  }

  /** A transmit serves the UID if and only if it outlasts the lost exchanges of a reader that is not stuck. */
  lemma {:induction false} TransmittingLong(b: Behaviour<Reader>, w: World<Reader>, h: nat, attempts: nat)
    requires IsFake(b) && attempts > 0 && h in w.open && !ShortUid(w.state) && w.leftover == []
    ensures var (w', uid) := TransmitWithin(b, w, h, attempts);
            var r, lost := w.state, Positive(w.state.failUIDProbes);
            if lost < attempts && !r.stuck then !InStep(w, w')
            else Clean(w, w') && uid.None?
                 && w'.state == r.(failUIDProbes := if lost == 0 then r.failUIDProbes
                                                    else if lost < attempts then 0 else lost - attempts)
    decreases attempts
  {
    ExchangingLong(b, w, h);
    var w' := Exchange(b, w, h).0;
    if w.state.failUIDProbes > 0 {
      if attempts > 1 {
        TransmittingLong(b, w', h, attempts - 1);
      }
    } else if !w.state.stuck {
      TransmitGrows(b, w, h, attempts);
    }
  }

  /** What the first exchange left behind is never taken back. */
  lemma TransmitGrows<S>(b: Behaviour<S>, w: World<S>, h: nat, attempts: nat)
    requires Faithful(b.read) && attempts > 0
    ensures Exchange(b, w, h).0.account.left <= TransmitWithin(b, w, h, attempts).0.account.left
  {
    var (w', reply) := Exchange(b, w, h);
    if Classify(reply).Suspect? && attempts > 1 {
      TransmitAccounted(b, w', h, attempts - 1, w'.account, false);
    }
  }

  /** What an insistence on a long UID comes to when it never serves it. */
  ghost predicate NeverServed(w: World<Reader>, w': World<Reader>, i: Insisted, rounds: nat) {
    var r, r' := w.state, w'.state;
    && InStep(w, w') && w'.leftover == []
    && (i.live.Some? <==> rounds == 1 || Positive(r.failResetReconnects) < REOPEN_ATTEMPTS)
    && (i.live.Some? ==>
          && i.live.value.handle in w'.open && !ShortUid(r') && r'.stuck == (rounds == 1 && r.stuck)
          && Positive(r'.failUIDProbes) == Positive(Positive(r.failUIDProbes) - ATTEMPTS * rounds))
  }

  /** Reset and reopen after a round that left the stream clean. */
  lemma ReopeningLong(b: Behaviour<Reader>, w: World<Reader>, h: nat)
    requires IsFake(b) && h in w.open && w.state.present && w.leftover == [] && w.state.failConnects <= 0
    ensures var (w', next) := Reopen(b, w, h);
            var r, lag := w.state, Positive(w.state.failResetReconnects);
            && InStep(w, w') && w'.leftover == [] && (next.Some? <==> lag < REOPEN_ATTEMPTS)
            && (next.Some? ==> next.value.handle in w'.open
                               && w'.state == r.(stuck := false, resetLag := false,
                                                 failResetReconnects := if lag > 0 then 0 else r.failResetReconnects))
  {
    ClosingFake(b, w, h, ResetCard);
    OpeningFake(b, Disconnect(b, w, h, ResetCard), REOPEN_ATTEMPTS);
  }

  /** An insistence of so many rounds on an open card serves the UID. */
  predicate Insists(r: Reader, rounds: nat) {
    var lost, lag := Positive(r.failUIDProbes), Positive(r.failResetReconnects);
    (lost < ATTEMPTS && !r.stuck) || (lost < ATTEMPTS * rounds && rounds > 1 && lag < REOPEN_ATTEMPTS)
  }

  /** The reader after a round that lost three exchanges or met the stuck state, and a reopen. */
  function AfterRound(r: Reader): Reader {
    var lost := Positive(r.failUIDProbes);
    r.(failUIDProbes := if lost == 0 then r.failUIDProbes else if lost < ATTEMPTS then 0 else lost - ATTEMPTS,
       failResetReconnects := if r.failResetReconnects > 0 then 0 else r.failResetReconnects,
       stuck := false, resetLag := false)
  }

  lemma RoundOfLong(b: Behaviour<Reader>, w: World<Reader>, c: Connection)
    requires IsFake(b) && c.handle in w.open && w.state.present && !ShortUid(w.state)
    requires w.state.failConnects <= 0 && w.leftover == [] && !Insists(w.state, 1)
    ensures var (w', next) := NextRound(b, w, c);
            && TransmitWithin(b, w, c.handle, ATTEMPTS).1.None?
            && InStep(w, w') && w'.leftover == [] && (next.Some? <==> Positive(w.state.failResetReconnects) < REOPEN_ATTEMPTS)
            && (next.Some? ==> next.value.handle in w'.open && w'.state == AfterRound(w.state))
  {
    TransmittingLong(b, w, c.handle, ATTEMPTS);
    ReopeningLong(b, TransmitWithin(b, w, c.handle, ATTEMPTS).0, c.handle);
  }

  lemma FirstRoundServes(b: Behaviour<Reader>, w: World<Reader>, c: Connection, rounds: nat)
    requires IsFake(b) && rounds > 0 && c.handle in w.open && !ShortUid(w.state) && w.leftover == [] && Insists(w.state, 1)
    ensures !InStep(w, InsistWithin(b, w, c, rounds).0)
  {
    TransmittingLong(b, w, c.handle, ATTEMPTS);
    TransmitAccounted(b, w, c.handle, ATTEMPTS, w.account, false);
    RoundIsKept(b, w, c, rounds);
  }

  /** An insistence is what is left of it after a round without answer. */
  lemma InsistLater<S>(b: Behaviour<S>, w: World<S>, c: Connection, rounds: nat, w1: World<S>, next: Option<Connection>)
    requires rounds > 1 && TransmitWithin(b, w, c.handle, ATTEMPTS).1.None? && (w1, next) == NextRound(b, w, c)
    ensures InsistWithin(b, w, c, rounds)
         == if next.None? then (w1, Insisted([], c.protocol, None)) else InsistWithin(b, w1, next.value, rounds - 1)
  {
    InsistSplits(b, w, c, rounds);
  }

  /** An open card with a long UID, on an empty stream, whose connects do not fail. */
  ghost predicate LongOpen(w: World<Reader>, c: Connection) {
    c.handle in w.open && w.state.present && !ShortUid(w.state) && w.state.failConnects <= 0 && w.leftover == []
  }

  /** The connection after a round that did not serve the UID, on which the insistence goes on. */
  lemma NextLongOpen(b: Behaviour<Reader>, w: World<Reader>, c: Connection, rounds: nat, w1: World<Reader>, n: Connection)
    requires IsFake(b) && LongOpen(w, c) && !Insists(w.state, 1) && (w1, Some(n)) == NextRound(b, w, c) && rounds > 1
    ensures LongOpen(w1, n) && InStep(w, w1) && w1.state == AfterRound(w.state)
    ensures InsistWithin(b, w, c, rounds) == InsistWithin(b, w1, n, rounds - 1)
    ensures Positive(w.state.failResetReconnects) < REOPEN_ATTEMPTS
  {
    RoundOfLong(b, w, c);
    InsistLater(b, w, c, rounds, w1, Some(n));
  }

  lemma RoundsLeft(r: Reader, rounds: nat)
    requires rounds > 1 && !Insists(r, 1) && Positive(r.failResetReconnects) < REOPEN_ATTEMPTS
    ensures Insists(AfterRound(r), rounds - 1) <==> Insists(r, rounds)
  {}

  lemma {:induction false} InsistenceServes(b: Behaviour<Reader>, w: World<Reader>, c: Connection, rounds: nat)
    requires IsFake(b) && rounds > 0 && LongOpen(w, c) && Insists(w.state, rounds)
    ensures !InStep(w, InsistWithin(b, w, c, rounds).0)
    decreases rounds
  {
    if Insists(w.state, 1) {
      FirstRoundServes(b, w, c, rounds);
    } else {
      RoundOfLong(b, w, c);
      var (w1, next) := NextRound(b, w, c);
      NextLongOpen(b, w, c, rounds, w1, next.value);
      RoundsLeft(w.state, rounds);
      InsistenceServes(b, w1, next.value, rounds - 1);
    }
  }

  lemma NeverServedLater(w: World<Reader>, w1: World<Reader>, w': World<Reader>, i: Insisted, rounds: nat)
    requires InStep(w, w1) && w1.state == AfterRound(w.state) && rounds > 1 && !Insists(w.state, rounds)
    requires Positive(w.state.failResetReconnects) < REOPEN_ATTEMPTS && NeverServed(w1, w', i, rounds - 1)
    ensures NeverServed(w, w', i, rounds)
  {}

  lemma LastRoundNeverServes(b: Behaviour<Reader>, w: World<Reader>, c: Connection)
    requires IsFake(b) && LongOpen(w, c) && !Insists(w.state, 1)
    ensures NeverServed(w, InsistWithin(b, w, c, 1).0, InsistWithin(b, w, c, 1).1, 1)
  {
    TransmittingLong(b, w, c.handle, ATTEMPTS);
    InsistSplits(b, w, c, 1);
  }

  lemma NoReopenNeverServes(b: Behaviour<Reader>, w: World<Reader>, c: Connection, rounds: nat)
    requires IsFake(b) && LongOpen(w, c) && !Insists(w.state, 1) && rounds > 1 && NextRound(b, w, c).1.None?
    ensures NeverServed(w, InsistWithin(b, w, c, rounds).0, InsistWithin(b, w, c, rounds).1, rounds)
  {
    RoundOfLong(b, w, c);
    InsistLater(b, w, c, rounds, NextRound(b, w, c).0, None);
  }

  lemma {:induction false} InsistenceNeverServes(b: Behaviour<Reader>, w: World<Reader>, c: Connection, rounds: nat)
    requires IsFake(b) && rounds > 0 && LongOpen(w, c) && !Insists(w.state, rounds)
    ensures NeverServed(w, InsistWithin(b, w, c, rounds).0, InsistWithin(b, w, c, rounds).1, rounds)
    decreases rounds, 1
  {
    if rounds == 1 {
      LastRoundNeverServes(b, w, c);
    } else {
      var (w1, next) := NextRound(b, w, c);
      if next.None? {
        NoReopenNeverServes(b, w, c, rounds);
      } else {
        NextLongOpen(b, w, c, rounds, w1, next.value);
        LaterRoundsNeverServe(b, w, w1, next.value, rounds);
      }
    }
  }

  lemma {:induction false} LaterRoundsNeverServe(b: Behaviour<Reader>, w: World<Reader>, w1: World<Reader>, n: Connection, rounds: nat)
    requires IsFake(b) && rounds > 1 && LongOpen(w1, n) && InStep(w, w1) && w1.state == AfterRound(w.state)
    requires !Insists(w.state, rounds) && Positive(w.state.failResetReconnects) < REOPEN_ATTEMPTS
    ensures NeverServed(w, InsistWithin(b, w1, n, rounds - 1).0, InsistWithin(b, w1, n, rounds - 1).1, rounds)
    decreases rounds, 0
  {
    var (w', i) := InsistWithin(b, w1, n, rounds - 1);
    RoundsLeft(w.state, rounds);
    InsistenceNeverServes(b, w1, n, rounds - 1);
    NeverServedLater(w, w1, w', i, rounds);
  }

  /** What the first round left behind is never taken back. */
  lemma RoundIsKept<S>(b: Behaviour<S>, w: World<S>, c: Connection, rounds: nat)
    requires Faithful(b.read) && rounds > 0
    ensures TransmitWithin(b, w, c.handle, ATTEMPTS).0.account.left <= InsistWithin(b, w, c, rounds).0.account.left
  {
    InsistSplits(b, w, c, rounds);
    if TransmitWithin(b, w, c.handle, ATTEMPTS).1.None? && rounds > 1 {
      NextRoundGrows(b, w, c);
      var (w2, next) := NextRound(b, w, c);
      if next.Some? {
        InsistGrows(b, w2, next.value, rounds - 1);
      }
    }
  }

  lemma {:induction false} PinningLong(b: Behaviour<Reader>, w: World<Reader>, h: nat, n: nat)
    requires IsFake(b) && h in w.open && !ShortUid(w.state) && !w.state.stuck && w.leftover == []
    ensures var w' := Pin(b, w, h, n);
            if Positive(w.state.failUIDProbes) < n then !InStep(w, w') else Clean(w, w')
    decreases n
  {
    if n == 0 {
    } else {
      var w' := Exchange(b, w, h).0;
      ExchangingLong(b, w, h);
      if w.state.failUIDProbes > 0 {
        PinningLong(b, w', h, n - 1);
      } else {
        PinAccounted(b, w', h, n - 1, w'.account, false);
      }
    }
  }

  /** The probe gets as far as an answer with the UID. */
  predicate Serves(r: Reader, pins: nat) {
    && r.present && ConnectFailures(r) <= 2
    && ((r.failUIDProbes <= 2 && !r.stuck) || (LagLeft(r) <= 7 && r.failUIDProbes <= 8 + pins))
  }

  /** What remains of a probe once its insistence is over. */
  function Ending<S>(b: Behaviour<S>, i: (World<S>, Insisted), pins: nat): World<S> {
    if i.1.live.None? then i.0
    else Disconnect(b, Pin(b, i.0, i.1.live.value.handle, pins), i.1.live.value.handle, LeaveCard)
  }

  lemma ClosingOnTime(b: Behaviour<Reader>, w: World<Reader>, h: nat, pins: nat)
    requires IsFake(b) && h in w.open && !ShortUid(w.state) && !w.state.stuck && w.leftover == []
    ensures InStep(w, Disconnect(b, Pin(b, w, h, pins), h, LeaveCard)) <==> pins <= Positive(w.state.failUIDProbes)
  {
    var w1 := Pin(b, w, h, pins);
    PinningLong(b, w, h, pins);
    PinAccounted(b, w, h, pins, w.account, false);
    DisconnectAccounted(b, w1, h, LeaveCard, w1.account, false);
    if Clean(w, w1) {
      ClosingFake(b, w1, h, LeaveCard);
    }
  }

  lemma EndingNeverServed(b: Behaviour<Reader>, w: World<Reader>, i: (World<Reader>, Insisted), pins: nat)
    requires IsFake(b) && NeverServed(w, i.0, i.1, ROUNDS)
    ensures InStep(w, Ending(b, i, pins))
       <==> Positive(w.state.failResetReconnects) >= REOPEN_ATTEMPTS
            || pins <= Positive(Positive(w.state.failUIDProbes) - ATTEMPTS * ROUNDS)
  {
    if i.1.live.Some? {
      ClosingOnTime(b, i.0, i.1.live.value.handle, pins);
    }
  }

  lemma EndingServed(b: Behaviour<Reader>, w: World<Reader>, i: (World<Reader>, Insisted), pins: nat)
    requires IsFake(b) && w.account.left < i.0.account.left
    ensures !InStep(w, Ending(b, i, pins))
  {
    if i.1.live.Some? {
      EndingGrows(b, i.0, i.1.live.value.handle, pins);
    }
  }

  /** A long UID on an open card: bytes are left behind by the insistence, by a pin, or never. */
  lemma OpenLongReadsAllIff(b: Behaviour<Reader>, w: World<Reader>, c: Connection, pins: nat)
    requires IsFake(b) && LongOpen(w, c)
    ensures InStep(w, Ending(b, InsistWithin(b, w, c, ROUNDS), pins))
       <==> !(Insists(w.state, ROUNDS)
              || (Positive(w.state.failResetReconnects) < REOPEN_ATTEMPTS
                  && Positive(Positive(w.state.failUIDProbes) - ATTEMPTS * ROUNDS) < pins))
  {
    var i := InsistWithin(b, w, c, ROUNDS);
    if Insists(w.state, ROUNDS) {
      InsistenceServes(b, w, c, ROUNDS);
      InsistGrows(b, w, c, ROUNDS);
      EndingServed(b, w, i, pins);
    } else {
      InsistenceNeverServes(b, w, c, ROUNDS);
      EndingNeverServed(b, w, i, pins);
    }
  }

  lemma ProbeOfOpen(b: Behaviour<Reader>, w: World<Reader>, pins: nat)
    requires OpenWithin(b, w, ATTEMPTS).1.Some?
    ensures var (w1, c) := OpenWithin(b, w, ATTEMPTS);
            ProbeCard(b, w, pins).0 == Ending(b, InsistWithin(b, w1, c.value, ROUNDS), pins)
  {
    ProbeSplits(b, w, pins);
  }

  lemma LongReadsAllIff(b: Behaviour<Reader>, w: World<Reader>, pins: nat)
    requires IsFake(b) && w.leftover == [] && !ShortUid(w.state)
    ensures AllRead(b, w, pins) <==> !Serves(w.state, pins)
  {
    if !w.state.present {
      AbsentNeverOpens(b, w, ATTEMPTS);
    } else {
      OpeningFake(b, w, ATTEMPTS);
      var (w1, c) := OpenWithin(b, w, ATTEMPTS);
      if c.Some? {
        OpenLongReadsAllIff(b, w1, c.value, pins);
        ProbeOfOpen(b, w, pins);
      } else {
        assert ProbeCard(b, w, pins).0 == w1;
      }
    }
  }

  /**
   The fake reader leaves bytes behind exactly when its UID is longer than 262 bytes and
   the probe gets as far as an answer with it: every other probe stays in step.
   */
  lemma FakeReadsAllIff(echo: (Reader, nat) -> seq<byte>, w: World<Reader>, pins: nat)
    requires w.leftover == []
    ensures AllRead(Fake(echo), w, pins) <==> ShortUid(w.state) || !Serves(w.state, pins)
  {
    FakeIsFake(echo);
    if ShortUid(w.state) {
      ShortUidOnTime(echo);
      OnTimeReadsAll(Fake(echo), ShortUid, w, pins);
    } else {
      LongReadsAllIff(Fake(echo), w, pins);
    }
  }

  /** From an open connection on, a probe gives back the table it was opened over. */
  lemma EndGivesBack(b: Behaviour<Reader>, w: World<Reader>, w1: World<Reader>, c: Connection, i: (World<Reader>, Insisted), pins: nat)
    requires Sane(w) && OneMoreOpen(w, w1, c) && Owns(w1, c, i.0, i.1) && i.1.live.Some?
    ensures Ending(b, i, pins).open == w.open
  {
    var h := i.1.live.value.handle;
    PinKeepsTable(b, i.0, h, pins);
    assert w1.open - {c.handle} == w.open && h !in w.open;
  }

  lemma InsistOnLongOpen(b: Behaviour<Reader>, w: World<Reader>, c: Connection)
    requires IsFake(b) && LongOpen(w, c) && Sane(w) && c.handle !in w.account.wedged && !Insists(w.state, ROUNDS)
    requires Positive(w.state.failResetReconnects) < REOPEN_ATTEMPTS
    ensures var i := InsistWithin(b, w, c, ROUNDS); Owns(w, c, i.0, i.1) && i.1.live.Some?
  {
    InsistenceNeverServes(b, w, c, ROUNDS);
    InsistenceOwnsHandles(b, w, c, ROUNDS);
  }

  /**
   Reading everything is not necessary for the handles: when the first answer with a long
   UID is that of the last pin, only the disconnect follows, and it names the right handle.
   */
  lemma LongUidAtLastPinConserves(echo: (Reader, nat) -> seq<byte>, w: World<Reader>, pins: nat)
    requires Sane(w) && w.leftover == [] && w.state.present && !ShortUid(w.state)
    requires ConnectFailures(w.state) <= 2 && LagLeft(w.state) <= 7 && pins > 0 && w.state.failUIDProbes == 8 + pins
    ensures !AllRead(Fake(echo), w, pins) && ProbeCard(Fake(echo), w, pins).0.open == w.open
  {
    FakeReadsAllIff(echo, w, pins);
    FakeIsFake(echo);
    OpeningFake(Fake(echo), w, ATTEMPTS);
    OpeningAccount(Fake(echo), w, ATTEMPTS);
    var (w1, c) := OpenWithin(Fake(echo), w, ATTEMPTS);
    InsistOnLongOpen(Fake(echo), w1, c.value);
    ProbeOfOpen(Fake(echo), w, pins);
    EndGivesBack(Fake(echo), w, w1, c.value, InsistWithin(Fake(echo), w1, c.value, ROUNDS), pins);
  }

  // ---------------------------------------------------------------------------
  // A connect whose answer comes after its deadline

  lemma LateIsUnread(echo: seq<byte>, handle: nat, protocol: u32)
    ensures ConnectRead([], echo, handle, Timed(Connected(protocol), 0)) == (Failed, ConnectBytes(echo, handle, protocol, 0))
  {
    ConnectReadsBack(echo, handle, protocol, 0);
    var own := ConnectBytes(echo, handle, protocol, 0);
    assert [] + InTime(own, 0) == [] && TooLate(own, 0) == own;
    assert Wire.ReadParts([], CONNECT_PARTS).parts == [];
    assert [] + own == own;
  }

  lemma EarlierIsTaken(echo: seq<byte>, handle: nat, protocol: u32, own: seq<byte>)
    requires handle < U32_RANGE
    ensures ReadConnect(ConnectBytes(echo, handle, protocol, 0) + own) == (Opened(Connection(handle, protocol)), own)
  {
    var words: seq<u32> := [handle % 0x1_0000_0000, protocol, 0];
    var parts := [Fit(echo, CONNECT_HEAD), Wire.PackLE(words)];
    Wire.PackedWords(words);
    Wire.PartsReadBack(parts, own);
    assert Wire.Sizes(parts) == CONNECT_PARTS;
  }

  /** The connect after a late one takes the late answer and leaves its own. */
  lemma NextTakesLate(echo: seq<byte>, handle: nat, protocol: u32, echo': seq<byte>, handle': nat, answer: Timed<ConnectAnswer>)
    requires handle < U32_RANGE && answer.value.Connected? && answer.prompt >= CONNECT_SIZE
    ensures ConnectRead(ConnectBytes(echo, handle, protocol, 0), echo', handle', answer)
         == (Opened(Connection(handle, protocol)), ConnectBytes(echo', handle', answer.value.protocol, 0))
  {
    var late, own := ConnectBytes(echo, handle, protocol, 0), ConnectBytes(echo', handle', answer.value.protocol, 0);
    ConnectReadsBack(echo, handle, protocol, 0);
    ConnectReadsBack(echo', handle', answer.value.protocol, 0);
    EarlierIsTaken(echo, handle, protocol, own);
    assert own + TooLate(own, answer.prompt) == own;
  }

  /** Answers to connects, of the given bytes, of which the first comes late and is read by the next connect. */
  ghost predicate AnswersLate(read: Reading, bytes: (seq<byte>, nat, u32) -> seq<byte>) {
    && (forall echo: seq<byte>, handle: nat, answer: Timed<ConnectAnswer> :: answer.value.Connected? && answer.prompt == 0 ==>
          read.connect([], echo, handle, answer) == (Failed, bytes(echo, handle, answer.value.protocol)))
    && (forall echo: seq<byte>, handle: nat, protocol: u32, echo': seq<byte>, handle': nat, answer: Timed<ConnectAnswer> ::
          handle < U32_RANGE && answer.value.Connected? && answer.prompt >= CONNECT_SIZE ==>
            read.connect(bytes(echo, handle, protocol), echo', handle', answer)
            == (Opened(Connection(handle, protocol)), bytes(echo', handle', answer.value.protocol)))
    && (forall echo: seq<byte>, handle: nat, protocol: u32 :: bytes(echo, handle, protocol) != [])
  }

  lemma BytesAnswerLate() returns (bytes: (seq<byte>, nat, u32) -> seq<byte>)
    ensures AnswersLate(BYTES, bytes)
  {
    bytes := (echo: seq<byte>, handle: nat, protocol: u32) => ConnectBytes(echo, handle, protocol, 0);
    forall echo: seq<byte>, handle: nat, answer: Timed<ConnectAnswer> | answer.value.Connected? && answer.prompt == 0
      ensures BYTES.connect([], echo, handle, answer) == (Failed, bytes(echo, handle, answer.value.protocol))
    {
      LateIsUnread(echo, handle, answer.value.protocol);
    }
    forall echo: seq<byte>, handle: nat, protocol: u32, echo': seq<byte>, handle': nat, answer: Timed<ConnectAnswer> |
      handle < U32_RANGE && answer.value.Connected? && answer.prompt >= CONNECT_SIZE
      ensures BYTES.connect(bytes(echo, handle, protocol), echo', handle', answer)
           == (Opened(Connection(handle, protocol)), bytes(echo', handle', answer.value.protocol))
    {
      NextTakesLate(echo, handle, protocol, echo', handle', answer);
    }
    forall echo: seq<byte>, handle: nat, protocol: u32
      ensures bytes(echo, handle, protocol) != []
    {
      ConnectReadsBack(echo, handle, protocol, 0);
    }
  }

  /** Two connects of one open: the daemon opened both, the client read the first answer second. */
  lemma TwoConnects<S>(b: Behaviour<S>, w: World<S>, attempts: nat, c: Connection, late: seq<byte>, own: seq<byte>,
                       e1: seq<byte>, e2: seq<byte>, o: (World<S>, Option<Connection>))
    requires attempts > 1 && o == OpenWithin(b, w, attempts)
    requires var (s1, first) := b.connect(w.state, false);
             var (s2, second) := b.connect(s1, false);
             && first.value.Connected? && second.value.Connected?
             && e1 == b.echo(s1, CONNECT_HEAD) && e2 == b.echo(s2, CONNECT_HEAD)
             && b.read.connect(w.leftover, e1, w.handles + 1, first) == (Failed, late)
             && b.read.connect(late, e2, w.handles + 2, second) == (Opened(c), own)
    ensures o.1 == Some(c) && o.0.open == w.open + {w.handles + 1, w.handles + 2} && o.0.leftover == own
  {
    var w1 := Connect(b, w, false).0;
    assert Attempt(b, w, false) == (w1, None);
    assert Attempt(b, w1, false).1 == Some(c);
  }

  lemma LateOpen<S>(b: Behaviour<S>, w: World<S>, attempts: nat, bytes: (seq<byte>, nat, u32) -> seq<byte>)
    requires AnswersLate(b.read, bytes) && attempts > 1 && w.leftover == [] && w.handles + 1 < U32_RANGE
    requires var (s1, first) := b.connect(w.state, false);
             var (_, second) := b.connect(s1, false);
             && first.value.Connected? && first.prompt == 0
             && second.value.Connected? && second.prompt >= CONNECT_SIZE
    ensures var (w', c) := OpenWithin(b, w, attempts);
            && c == Some(Connection(w.handles + 1, b.connect(w.state, false).1.value.protocol))
            && w'.open == w.open + {w.handles + 1, w.handles + 2} && w'.leftover != []
  {
    var (s1, first) := b.connect(w.state, false);
    var (s2, second) := b.connect(s1, false);
    var e1, e2 := b.echo(s1, CONNECT_HEAD), b.echo(s2, CONNECT_HEAD);
    var p1, p2 := first.value.protocol, second.value.protocol;
    TwoConnects(b, w, attempts, Connection(w.handles + 1, p1), bytes(e1, w.handles + 1, p1), bytes(e2, w.handles + 2, p2),
                e1, e2, OpenWithin(b, w, attempts));
  }

  /**
   A connect that succeeds after its deadline is asked again: the client then holds the
   first handle, the daemon has two open, and the second answer is still on the stream.
   */
  lemma LateConnectOpensTwo<S>(b: Behaviour<S>, w: World<S>, attempts: nat)
    requires b.read == BYTES && attempts > 1 && w.leftover == [] && w.handles + 1 < U32_RANGE
    requires var (s1, first) := b.connect(w.state, false);
             var (_, second) := b.connect(s1, false);
             && first.value.Connected? && first.prompt == 0
             && second.value.Connected? && second.prompt >= CONNECT_SIZE
    ensures var (w', c) := OpenWithin(b, w, attempts);
            && c == Some(Connection(w.handles + 1, b.connect(w.state, false).1.value.protocol))
            && w'.open == w.open + {w.handles + 1, w.handles + 2} && w'.leftover != []
  {
    var bytes := BytesAnswerLate();
    LateOpen(b, w, attempts, bytes);
  }
}
