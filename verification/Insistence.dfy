/**
 What every single answer of a card does to the insistence on its UID (uidExchange,
 transmitUID and insistUID in uid.go), in the bytes of the answer, for any card.
 */
module Insistence {
  import opened Common
  import opened Card
  import opened CardRuns

  /** Neither an answer nor a wedge: lost, too short, without a UID, or some other status. */
  predicate Retried(reply: Reply) {
    reply.Lost? || |reply.bytes| < 2 || reply.bytes == [0x90, 0x00]
    || (reply.bytes[|reply.bytes| - 2..] != [0x90, 0x00] && reply.bytes[|reply.bytes| - 2..] != [0x63, 0x00])
  }

  /**
   The whole decision on one reply: a UID before 90 00 ends the attempts, as no UID when it
   is a random one of four bytes beginning with 08; 63 00 gives up the connection at once;
   anything else is asked again.
   */
  lemma ReplyDecides<S>(b: Behaviour<S>, w: World<S>, h: nat, attempts: nat, data: seq<byte>)
    requires attempts > 0
    ensures var (w', reply) := Exchange(b, w, h);
            var t := TransmitWithin(b, w, h, attempts);
            && (reply == Response(data + [0x90, 0x00]) && data != [] ==>
                  t == (w', Some(if |data| == 4 && data[0] == 0x08 then [] else data)))
            && (reply == Response(data + [0x63, 0x00]) ==> t == (w', None))
            && (Retried(reply) ==> t == if attempts == 1 then (w', None) else TransmitWithin(b, w', h, attempts - 1))
  {
    var reply := Exchange(b, w, h).1;
    var n := |data|;
    assert (data + [0x90, 0x00])[..n] == data && (data + [0x90, 0x00])[n..] == [0x90, 0x00];
    assert (data + [0x63, 0x00])[n..] == [0x63, 0x00];
  }

  /** Every reply is one of those. */
  lemma EveryReplyIsDecided(reply: Reply)
    ensures Retried(reply)
      || (exists data :: data != [] && reply == Response(data + [0x90, 0x00]))
      || (exists data :: reply == Response(data + [0x63, 0x00]))
  {
    if !Retried(reply) {
      var n := |reply.bytes| - 2;
      assert reply.bytes == reply.bytes[..n] + reply.bytes[n..];
      assert reply == Response(reply.bytes[..n] + reply.bytes[n..]);
    }
  }

  /** A UID before 90 00 in the first answer ends the insistence there and then. */
  lemma FirstAnswerEndsInsistence<S>(b: Behaviour<S>, w: World<S>, c: Connection, rounds: nat, uid: seq<byte>)
    requires rounds > 0 && uid != [] && Exchange(b, w, c.handle).1 == Response(uid + [0x90, 0x00])
    ensures var w' := Exchange(b, w, c.handle).0;
            && InsistWithin(b, w, c, rounds)
               == (w', Insisted(if |uid| == 4 && uid[0] == 0x08 then [] else uid, c.protocol, Some(c)))
            && w'.account.exchanges == w.account.exchanges + 1 && w'.account.resets == w.account.resets
  {
    ReplyDecides(b, w, c.handle, ATTEMPTS, uid);
    InsistSplits(b, w, c, rounds);
  }

  /** So many exchanges in a row got nothing better than a retry. */
  ghost predicate Stubborn<S>(b: Behaviour<S>, w: World<S>, h: nat, n: nat) {
    forall k :: 0 <= k < n ==> Retried(Exchange(b, Pin(b, w, h, k), h).1)
  }

  lemma {:induction false} StubbornTransmit<S>(b: Behaviour<S>, w: World<S>, h: nat, attempts: nat)
    requires attempts > 0 && Stubborn(b, w, h, attempts)
    ensures TransmitWithin(b, w, h, attempts) == (Pin(b, w, h, attempts), None)
    decreases attempts
  {
    var w' := Exchange(b, w, h).0;
    assert Pin(b, w, h, 0) == w;
    ReplyDecides(b, w, h, attempts, []);
    if attempts == 1 {
      assert Pin(b, w', h, 0) == w';
    } else {
      forall k | 0 <= k < attempts - 1
        ensures Retried(Exchange(b, Pin(b, w', h, k), h).1)
      {
        assert Pin(b, w, h, k + 1) == Pin(b, w', h, k);
      }
      StubbornTransmit(b, w', h, attempts - 1);
    }
  }

  lemma {:induction false} PinsAreExchanges<S>(b: Behaviour<S>, w: World<S>, h: nat, n: nat)
    ensures var a, a' := w.account, Pin(b, w, h, n).account;
            a'.exchanges == a.exchanges + n && a'.resets == a.resets && a'.disconnects == a.disconnects && a'.connects == a.connects
    decreases n
  {
    if n == 0 {
    } else {
      PinsAreExchanges(b, Exchange(b, w, h).0, h, n - 1);
    }
  }

  /** The insistence once a connection was given up: reset, up to eight connects, and the rounds left. */
  function AfterReset<S>(b: Behaviour<S>, w: World<S>, c: Connection, rounds: nat): (World<S>, Insisted)
    requires rounds > 1
  {
    var (w', next) := OpenWithin(b, Disconnect(b, w, c.handle, ResetCard), 8);
    if next.None? then (w', Insisted([], c.protocol, None)) else InsistWithin(b, w', next.value, rounds - 1)
  }

  /**
   A connection whose three answers are all retried is given up after exactly these three
   exchanges: reset and reopened while rounds are left, handed on without a UID in the last.
   */
  lemma StubbornConnectionIsReset<S>(b: Behaviour<S>, w: World<S>, c: Connection, rounds: nat)
    requires rounds > 0 && Stubborn(b, w, c.handle, 3)
    ensures var w3 := Pin(b, w, c.handle, 3);
            && w3.account.exchanges == w.account.exchanges + 3 && w3.account.resets == w.account.resets
            && InsistWithin(b, w, c, rounds)
               == if rounds == 1 then (w3, Insisted([], c.protocol, Some(c))) else AfterReset(b, w3, c, rounds)
  {
    StubbornTransmit(b, w, c.handle, ATTEMPTS);
    PinsAreExchanges(b, w, c.handle, 3);
    InsistSplits(b, w, c, rounds);
  }

  /** A wedged connection is given up after one exchange. */
  lemma WedgedConnectionIsReset<S>(b: Behaviour<S>, w: World<S>, c: Connection, rounds: nat, data: seq<byte>)
    requires rounds > 0 && Exchange(b, w, c.handle).1 == Response(data + [0x63, 0x00])
    ensures var w1 := Exchange(b, w, c.handle).0;
            && w1.account.exchanges == w.account.exchanges + 1 && w1.account.resets == w.account.resets
            && InsistWithin(b, w, c, rounds)
               == if rounds == 1 then (w1, Insisted([], c.protocol, Some(c))) else AfterReset(b, w1, c, rounds)
  {
    ReplyDecides(b, w, c.handle, ATTEMPTS, data);
    InsistSplits(b, w, c, rounds);
  }

  // ---------------------------------------------------------------------------
  // Cards that negotiate no protocol

  /**
   A card refused with 8010000F is asked for once more with the raw protocol, in the same
   attempt; any other refusal is not.
   */
  lemma RawIsAskedIffMismatch<S>(b: Behaviour<S>, w: World<S>)
    requires Faithful(b.read) && w.leftover == [] && b.connect(w.state, false).1.value.Denied?
    requires !ConnectLeaves(b.connect(w.state, false).1)
    ensures var (s, first) := b.connect(w.state, false);
            var second := b.connect(s, true).1;
            var attempt := OpenWithin(b, w, 1);
            if first.value.rv == 0x8010000F then
              second.value.Connected? && !ConnectLeaves(second) ==>
                attempt.1 == Some(Connection(w.handles + 1, second.value.protocol)) && attempt.0.state == b.connect(s, true).0
            else attempt.1.None? && attempt.0.state == s
  {
    var (s, first) := b.connect(w.state, false);
    RightConnect(b.read, b.echo(s, CONNECT_HEAD), 0, first);
    var (w1, outcome) := Connect(b, w, false);
    assert w1.leftover == [] && w1.state == s && w1.handles == w.handles;
    var (s2, second) := b.connect(s, true);
    RightConnect(b.read, b.echo(s2, CONNECT_HEAD), w.handles + 1, second);
    assert Attempt(b, w, false) == if outcome.Mismatch? then Attempt(b, w1, true) else (w1, None);
  }
}
