/** What the calls of the wait protocol return (pcsc/ipc.go), and how new a reported change is. */
module WaitOutcomes {
  import opened Common
  import opened WaitProtocol

  // ---------------------------------------------------------------------------
  // Results of calls

  /** With all replies read, every read ends its phase in the one way the call promises. */
  lemma EveryReadEndsItsPhase(minor: nat, steps: seq<Step>, s: System)
    requires Run(Init(minor), steps) == Some(s) && AllRead(steps) && Enabled(s, Read)
    ensures Apply(s, Read).client.phase ==
            match s.client.phase
            case AwaitStates => Idle(GotStates)
            case AwaitDump => AwaitSignal
            case AwaitSignal => Idle(Changed)
            case Draining => Idle(TimedOut)
            case AwaitCard(_) => Idle(CardCalled)
            case p => p
  {
    ReachedState(minor, steps, s);
    ReadMatches(s);
  }

  predicate IsCall(a: Step) {
    a.CallStates? || a.CallWait? || a.CallCard?
  }

  /** The phases of one call; those of a wait depend on whether its timeout was taken. */
  predicate PhaseOf(p: Phase, call: Step, stopped: bool)
    requires IsCall(call)
  {
    !Live(p) ||
    match call
    case CallStates => p.AwaitStates? || p == Idle(GotStates)
    case CallCard(_, _) => p.AwaitCard? || p == Idle(CardCalled)
    case _ => if stopped then p.Draining? || p == Idle(TimedOut) else p.AwaitDump? || p.AwaitSignal? || p == Idle(Changed)
  }

  lemma StepStaysInCall(s: System, a: Step, call: Step, stopped: bool)
    requires Enabled(s, a) && !IsCall(a) && IsCall(call) && PhaseOf(s.client.phase, call, stopped)
    ensures PhaseOf(Apply(s, a).client.phase, call, stopped || a.SignalTimeout?)
  {}

  lemma {:induction false} RunStaysInCall(s: System, steps: seq<Step>, call: Step, stopped: bool)
    requires Run(s, steps).Some? && (forall a :: a in steps ==> !IsCall(a))
    requires IsCall(call) && PhaseOf(s.client.phase, call, stopped)
    ensures PhaseOf(Run(s, steps).value.client.phase, call, stopped || SignalTimeout in steps)
    decreases |steps|
  {
    if steps == [] {
    } else {
      StepStaysInCall(s, steps[0], call, stopped);
      RunStaysInCall(Apply(s, steps[0]), steps[1..], call, stopped || steps[0].SignalTimeout?);
      assert steps == [steps[0]] + steps[1..];
    }
  }

  lemma {:induction false} RunSplits(s: System, steps: seq<Step>, i: nat)
    requires i <= |steps| && Run(s, steps).Some?
    ensures Run(s, steps[..i]).Some? && Run(Run(s, steps[..i]).value, steps[i..]) == Run(s, steps)
    decreases i
  {
    if i == 0 {
      assert steps[0..] == steps;
    } else {
      RunSplits(Apply(s, steps[0]), steps[1..], i - 1);
      assert steps[..i][1..] == steps[1..][..i - 1] && steps[i..] == steps[1..][i - 1..];
    }
  }

  /**
   In every run, abandoned replies included, a call that has returned did so with its own
   kind of result, and the last wait is reported timed out if and only if its timeout was
   taken.
   */
  lemma LastCallDecides(minor: nat, steps: seq<Step>, i: nat, s: System)
    requires Run(Init(minor), steps) == Some(s) && s.client.phase.Idle?
    requires i < |steps| && IsCall(steps[i]) && forall j :: i < j < |steps| ==> !IsCall(steps[j])
    ensures steps[i].CallStates? ==> s.client.phase == Idle(GotStates)
    ensures steps[i].CallCard? ==> s.client.phase == Idle(CardCalled)
    ensures steps[i].CallWait? ==> s.client.phase == Idle(if SignalTimeout in steps[i..] then TimedOut else Changed)
  {
    RunSplits(Init(minor), steps, i);
    var before, call, rest := Run(Init(minor), steps[..i]).value, steps[i], steps[i + 1..];
    assert steps[i..][0] == call && steps[i..][1..] == rest && steps[i..] == [call] + rest;
    RunStaysInCall(Apply(before, call), rest, call, false);
  }

  // ---------------------------------------------------------------------------
  // States fetched after a signal

  lemma {:induction false} HeardGrows(s: System, steps: seq<Step>)
    requires Run(s, steps).Some?
    ensures s.client.heard <= Run(s, steps).value.client.heard
    decreases |steps|
  {
    if steps == [] {
    } else {
      HeardGrows(Apply(s, steps[0]), steps[1..]);
    }
  }

  lemma {:induction false} RunsJoin(s: System, before: seq<Step>, m: System, a: Step, later: seq<Step>)
    requires Run(s, before) == Some(m) && Enabled(m, a)
    ensures Run(s, before + [a] + later) == Run(Apply(m, a), later)
    decreases |before|
  {
    if before == [] {
      assert before + [a] + later == [a] + later && ([a] + later)[1..] == later;
    } else {
      RunsJoin(Apply(s, before[0]), before[1..], m, a, later);
      assert (before + [a] + later)[1..] == before[1..] + [a] + later;
    }
  }

  /**
   Whatever signal was read, by a wait or swallowed by a drain, the states the client reads
   later are at least as new as that signal.
   */
  lemma StatesFollowEverySignal(minor: nat, before: seq<Step>, m: System, later: seq<Step>, s: System)
    requires Run(Init(minor), before) == Some(m) && Enabled(m, Read) && m.replies[0].Signal?
    requires Run(Apply(m, Read), later) == Some(s) && Enabled(s, Read) && s.client.phase.AwaitStates?
    requires AllRead(before) && AllRead(later)
    ensures s.replies[0].States? && m.replies[0].version <= s.replies[0].version <= s.daemon.version
  {
    var steps := before + [Read] + later;
    RunsJoin(Init(minor), before, m, Read, later);
    assert AllRead(steps);
    EveryReadTakesItsOwnReply(minor, before, m);
    HeardGrows(Apply(m, Read), later);
    ReachedState(minor, steps, s);
    ReadMatches(s);
    assert Produced(s, s.replies[0]);
  }

  // ---------------------------------------------------------------------------
  // A reported change and the registration it was reported for

  /** A wait of this call returns with a change here. */
  predicate Reports(s: System, c: nat) {
    Enabled(s, Read) && s.client.phase.AwaitSignal? && s.client.call == c && Apply(s, Read).client.phase == Idle(Changed)
  }

  /** What stays true once the wait of call c was registered at version v with so many wakes due. */
  ghost predicate Since(s: System, c: nat, v: nat, due: nat) {
    && c <= s.client.call
    && (forall r :: r in s.requests && r.Wait? ==> c < r.call)
    && (s.daemon.registered == Some(c) ==> v <= s.daemon.version && s.daemon.wakesDue == due + (s.daemon.version - v))
    && (forall p :: Produced(s, p) && p.Signal? && p.call == c && due == 0 ==> v < p.version)
  }

  lemma StepKeepsSince(s: System, a: Step, c: nat, v: nat, due: nat)
    requires Since(s, c, v, due) && Enabled(s, a)
    ensures Since(Apply(s, a), c, v, due)
  {
    var s' := Apply(s, a);
    forall r | r in s'.requests && r.Wait?
      ensures c < r.call
    {
      assert r in s.requests || r.call == s.client.call + 1;
    }
    if a.Serve? {
      assert s.requests[0] in s.requests;
    }
    forall p | Produced(s', p) && p.Signal? && p.call == c && due == 0
      ensures v < p.version
    {
      assert Produced(s, p) || (a.Wake? && s.daemon.registered == Some(c) && p.version == s.daemon.version);
    }
  }

  lemma {:induction false} RunKeepsSince(s: System, steps: seq<Step>, c: nat, v: nat, due: nat)
    requires Since(s, c, v, due) && Run(s, steps).Some?
    ensures Since(Run(s, steps).value, c, v, due)
    decreases |steps|
  {
    if steps == [] {
    } else {
      StepKeepsSince(s, steps[0], c, v, due);
      RunKeepsSince(Apply(s, steps[0]), steps[1..], c, v, due);
    }
  }

  /** The daemon is about to register the wait the client is in. */
  predicate Registering(s: System) {
    && Enabled(s, Serve) && s.requests[0].Wait? && s.requests[0].call == s.client.call
    && (s.client.phase.AwaitDump? || s.client.phase.AwaitSignal?)
  }

  lemma RegisteringOwes(s: System)
    requires Disciplined(s.daemon.registered, s.requests) && Registering(s)
    ensures |Owed(s)| >= |s.replies| + 1 + if s.daemon.minor >= 4 then 1 else 0
  {
    var reg, dumps, c, rest := s.daemon.registered, s.daemon.minor >= 4, s.client.call, s.requests[1..];
    OpenComesFirst(Some(c), rest, dumps);
    assert |Promised(Some(c), rest, dumps) + Open(OpenAfter(Some(c), rest))| >= 1;
    assert |Promised(reg, s.requests, dumps)| == |Yields(reg, s.requests[0], dumps)| + |Promised(Some(c), rest, dumps)|;
    assert OpenAfter(reg, s.requests) == OpenAfter(Some(c), rest);
  }

  /** Nothing is on the stream then, and the dialect decides what the client waits for. */
  lemma QuietAtRegistration(s: System)
    requires Inv(s) && Registering(s) && s.client.abandoned == [] && (s.client.phase.AwaitDump? ==> s.client.minor >= 4)
    ensures s.replies == [] && (s.client.phase.AwaitDump? <==> s.client.minor >= 4)
  {
    RegisteringOwes(s);
    assert |Owed(s)| == |Due(s.client)|;
  }

  lemma {:induction false} OnlyNewDialectAwaitsDumps(s: System, steps: seq<Step>)
    requires Run(s, steps).Some? && (s.client.phase.AwaitDump? ==> s.client.minor >= 4)
    ensures var s' := Run(s, steps).value; s'.client.phase.AwaitDump? ==> s'.client.minor >= 4
    decreases |steps|
  {
    if steps == [] {
    } else {
      OnlyNewDialectAwaitsDumps(Apply(s, steps[0]), steps[1..]);
    }
  }

  /** After the newest wait only its stop can be unread. */
  lemma OnlyStopsFollow(s: System)
    requires OrderInv(s) && Registering(s)
    ensures forall r :: r in s.requests[1..] ==> r.Stop?
  {
    var rest := s.requests[1..];
    forall j | 0 <= j < |rest|
      ensures rest[j].Stop?
    {
      assert rest[j] == s.requests[j + 1] && rest[j] in s.requests && Rank(s.requests[0]) < Rank(s.requests[j + 1]);
    }
  }

  lemma SinceRegistration(s: System)
    requires Inv(s) && Registering(s) && s.client.abandoned == [] && s.replies == []
    ensures Since(Apply(s, Serve), s.client.call, s.daemon.version, s.daemon.wakesDue)
  {
    var s' := Apply(s, Serve);
    OnlyStopsFollow(s);
    assert forall p :: Produced(s', p) ==> p.Dump?;
  }

  /** The client reads the signal of a wake right after the registration. */
  function AtOnce(minor: nat): seq<Step> {
    if minor >= 4 then [Wake, Read] else [Wake]
  }

  lemma WokenAtOnce(s: System)
    requires Inv(s) && Registering(s) && s.client.abandoned == [] && s.replies == [] && s.daemon.wakesDue > 0
    requires s.client.phase.AwaitDump? <==> s.client.minor >= 4
    ensures var e := Run(Apply(s, Serve), AtOnce(s.client.minor));
            && e.Some? && Reports(e.value, s.client.call) && e.value.replies[0].version == s.daemon.version
  {
    var s1 := Apply(s, Serve);
    var s2 := Apply(s1, Wake);
    var signal := Signal(s.client.call, s.daemon.version);
    if s.client.minor >= 4 {
      assert s2.replies == [Dump(s.client.call, s.daemon.version), signal];
      var s3 := Apply(s2, Read);
      assert s3.replies == [signal];
      OneMore(s2, Read, [], s3);
      OneMore(s1, Wake, [Read], s3);
      assert [Wake] + [Read] == [Wake, Read];
    } else {
      assert s2.replies == [signal];
      OneMore(s1, Wake, [], s2);
      assert [Wake] + [] == [Wake];
    }
  }

  /** From here on a report of call c tells of a change newer than version v. */
  ghost predicate OnlyNews(s: System, c: nat, v: nat) {
    forall later: seq<Step>, e: System :: Run(s, later) == Some(e) && Reports(e, c) ==> v < e.replies[0].version
  }

  lemma NewsSince(s: System, c: nat, v: nat, later: seq<Step>, e: System)
    requires Since(s, c, v, 0) && Run(s, later) == Some(e) && Reports(e, c)
    ensures v < e.replies[0].version
  {
    RunKeepsSince(s, later, c, v, 0);
    assert Produced(e, e.replies[0]);
  }

  /**
   A change a wait reports was made after its registration, in every run from there, if and
   only if no wake was due when it was registered: a wake of an earlier change still to run
   is reported to the new registration.
   */
  lemma ReportedChangeIsNewIff(minor: nat, steps: seq<Step>, s: System)
    requires Run(Init(minor), steps) == Some(s) && AllRead(steps) && Registering(s)
    ensures OnlyNews(Apply(s, Serve), s.client.call, s.daemon.version) <==> s.daemon.wakesDue == 0
  {
    ReachedState(minor, steps, s);
    OnlyNewDialectAwaitsDumps(Init(minor), steps);
    QuietAtRegistration(s);
    var s', c, v := Apply(s, Serve), s.client.call, s.daemon.version;
    if s.daemon.wakesDue == 0 {
      SinceRegistration(s);
      forall later: seq<Step>, e: System | Run(s', later) == Some(e) && Reports(e, c)
        ensures v < e.replies[0].version
      {
        NewsSince(s', c, v, later, e);
      }
    } else {
      WokenAtOnce(s);
      var e := Run(s', AtOnce(s.client.minor));
      assert e == Some(e.value);
    }
  }
}
