/**
 The event loop over reader snapshots (pollLoop and watchLoop in pcscid.go): mutable
 presence and counter maps, proved to track a comparison of consecutive snapshots.
 */
module Watch {
  import opened Common
  import opened Card
  import opened CardRuns
  import opened UnitRegistry
  import opened UnitIdentity
  import opened Probe

  datatype ReaderState = ReaderState(reader: string, counter: u32, present: bool)

  datatype Event = Insert(reader: string, uid: seq<byte>, serial: string, port: string) | Remove(reader: string)

  type Snapshot = seq<ReaderState>

  ghost predicate Distinct(snap: Snapshot) {
    forall i, j :: 0 <= i < j < |snap| ==> snap[i].reader != snap[j].reader
  }

  ghost predicate Lists(snap: Snapshot, reader: string) {
    exists st :: st in snap && st.reader == reader
  }

  ghost predicate ShowsPresent(snap: Snapshot, reader: string) {
    exists st :: st in snap && st.reader == reader && st.present
  }

  /** The reader held a card in the snapshot under another event count. */
  ghost predicate Recounted(last: Snapshot, st: ReaderState) {
    exists was :: was in last && was.reader == st.reader && was.present && was.counter != st.counter
  }

  /** Present now, and either not present in the last snapshot or, within one session, recounted. */
  ghost predicate Arrived(last: Snapshot, sameSession: bool, st: ReaderState) {
    st.present &&
    (!ShowsPresent(last, st.reader)
     || (sameSession && Recounted(last, st)))
  }

  ghost predicate Left(last: Snapshot, st: ReaderState) {
    !st.present && ShowsPresent(last, st.reader)
  }

  /** Where a poll stands: the card service, the registry and the events so far. */
  datatype Progress<S> = Progress(world: World<S>, reg: Registry, events: seq<Event>)

  /** What a watch session is configured with: card behaviour, port option, probe evidence. */
  datatype Setting<!S> = Setting(behaviour: Behaviour<S>, usePath: bool, evidence: string -> Evidence)

  /** The presentation step an arrival leads to. */
  ghost function StepOf<S>(env: Setting<S>, world: World<S>, reg: Registry, reader: string): SessionStep {
    var ev := env.evidence(reader);
    Presentation(reader, ev, ProbeCard(env.behaviour, world, Pins(env.usePath, UnitOf(Cached(reg, reader)), ev)).1)
  }

  ghost function WorldAfter<S>(env: Setting<S>, world: World<S>, reg: Registry, reader: string): World<S> {
    ProbeCard(env.behaviour, world, Pins(env.usePath, UnitOf(Cached(reg, reader)), env.evidence(reader))).0
  }

  /** Only a card with a UID makes an insertion event. */
  function InsertionOf(reader: string, f: Facts): seq<Event> {
    if f.uid != [] then [Insert(reader, f.uid, f.serial, f.port)] else []
  }

  ghost function Visit<S>(env: Setting<S>, last: Snapshot, sameSession: bool, p: Progress<S>, st: ReaderState): Progress<S> {
    if Arrived(last, sameSession, st) then
      var step := StepOf(env, p.world, p.reg, st.reader);
      Progress(WorldAfter(env, p.world, p.reg, st.reader), After(p.reg, env.usePath, step),
               p.events + InsertionOf(st.reader, Reported(p.reg, env.usePath, step)))
    else if Left(last, st) then p.(events := p.events + [Remove(st.reader)])
    else p
  }

  ghost function Scanned<S>(env: Setting<S>, last: Snapshot, sameSession: bool, p: Progress<S>, snap: Snapshot): Progress<S> {
    if snap == [] then p
    else Visit(env, last, sameSession, Scanned(env, last, sameSession, p, snap[..|snap| - 1]), snap[|snap| - 1])
  }

  // ---------------------------------------------------------------------------
  // Readers that are no longer listed

  /** Readers of the last snapshot the new one does not list. */
  ghost function Unlisted(last: Snapshot, snap: Snapshot): set<string> {
    set st | st in last && !Lists(snap, st.reader) :: st.reader
  }

  /** One removal of each reader, and nothing else. */
  ghost predicate RemovalsOf(readers: set<string>, events: seq<Event>) {
    && (forall e :: e in events ==> e.Remove? && e.reader in readers)
    && (forall r :: r in readers ==> Remove(r) in events)
    && (forall i, j :: 0 <= i < j < |events| ==> events[i] != events[j])
  }

  /** The removals of the readers that had a card in the last snapshot and are not listed any more. */
  ghost predicate GoneEvents(last: Snapshot, snap: Snapshot, events: seq<Event>) {
    RemovalsOf((set r | r in Unlisted(last, snap) && ShowsPresent(last, r)), events)
  }

  function WithCard(present: map<string, bool>, readers: set<string>): set<string> {
    set r | r in readers && r in present && present[r]
  }

  /** The registry without any trace of the given readers. */
  function ForgetAll(reg: Registry, gone: set<string>): Registry {
    Registry(reg.facts - gone, map p | p in reg.byPort && reg.byPort[p] !in gone :: reg.byPort[p])
  }

  ghost predicate PresenceIs(present: map<string, bool>, snap: Snapshot) {
    && (forall st :: st in snap ==> st.reader in present && present[st.reader] == st.present)
    && (forall r :: r in present ==> Lists(snap, r))
  }

  ghost predicate CountersAre(counters: map<string, u32>, snap: Snapshot) {
    && (forall st :: st in snap ==> if st.present then st.reader in counters && counters[st.reader] == st.counter
                                    else st.reader !in counters)
    && (forall r :: r in counters ==> Lists(snap, r))
  }

  ghost predicate Tracks(present: map<string, bool>, counters: map<string, u32>, last: Snapshot, sameSession: bool) {
    && Distinct(last)
    && PresenceIs(present, last)
    && (if sameSession then CountersAre(counters, last) else counters == map[])
  }

  lemma LookUp(present: map<string, bool>, last: Snapshot, r: string)
    requires Distinct(last) && PresenceIs(present, last)
    ensures (r in present && present[r]) <==> ShowsPresent(last, r)
  {
  }

  lemma LookUpCounter(counters: map<string, u32>, last: Snapshot, st: ReaderState)
    requires Distinct(last) && CountersAre(counters, last)
    ensures (st.reader in counters && counters[st.reader] != st.counter)
        <==> Recounted(last, st)
  {
    if st.reader in counters {
      var was :| was in last && was.reader == st.reader;
    }
  }

  /** readerTracking, with the snapshot it was last brought up to date with. */
  class Tracking {
    var present: map<string, bool>
    var counters: map<string, u32>
    var units: Units
    ghost var last: Snapshot
    ghost var sameSession: bool  // the last snapshot was taken over the current connection

    ghost predicate Valid()
      reads this, units
    {
      && Tracks(present, counters, last, sameSession)
      && units.Valid()
      && (forall r :: r in units.facts ==> Lists(last, r))
    }

    constructor ()
      ensures Valid() && fresh(units) && last == [] && !sameSession && units.Value() == EMPTY
    {
      present, counters := map[], map[];
      units := new Units();
      last, sameSession := [], false;
    }

    /** A fresh connection: counters and unit identities start over, presence survives. */
    method StartSession()
      requires Valid()
      modifies this
      ensures Valid() && fresh(units)
      ensures !sameSession && last == old(last) && present == old(present)
      ensures units.Value() == EMPTY
    {
      counters := map[];
      units := new Units();
      sameSession := false;
    }

    /** An arrival: probe its card and unit, adopt the unit, report the card if it has a UID. */
    method Identify<S>(svc: Service<S>, reader: string, env: Setting<S>) returns (events: seq<Event>)
      requires units.Valid() && env.behaviour == svc.behaviour
      modifies units, svc
      ensures units.Valid()
      ensures var reg, world := old(units.Value()), old(svc.Value());
              var step := StepOf(env, world, reg, reader);
              && svc.Value() == WorldAfter(env, world, reg, reader)
              && units.Value() == After(reg, env.usePath, step)
              && (var f := Reported(reg, env.usePath, step);
                  events == if f.uid == [] then [] else [Insert(reader, f.uid, f.serial, f.port)])
    {
      ghost var reg := units.Value();
      var cached := units.CachedFacts(reader);
      var facts := ProbeReaderCard(svc, env.usePath, reader, env.evidence(reader), units.byPort, cached, reg);
      facts := units.Adopt(reader, facts);
      if |facts.uid| > 0 {
        events := [Insert(reader, facts.uid, facts.serial, facts.port)];
      } else {
        events := [];
      }
    }

    /** One state of the scan; its events follow those already sent. */
    method ScanState<S>(svc: Service<S>, st: ReaderState, env: Setting<S>, sent: seq<Event>) returns (events: seq<Event>)
      requires units.Valid() && env.behaviour == svc.behaviour
      requires (st.reader in present && present[st.reader]) <==> ShowsPresent(last, st.reader)
      requires (st.reader in counters && counters[st.reader] != st.counter) <==> sameSession && Recounted(last, st)
      modifies this`present, this`counters, units, svc
      ensures units.Valid()
      ensures Progress(svc.Value(), units.Value(), events)
           == Visit(env, last, sameSession, Progress(old(svc.Value()), old(units.Value()), sent), st)
      ensures present == old(present)[st.reader := st.present]
      ensures counters == if st.present then old(counters)[st.reader := st.counter] else old(counters) - {st.reader}
    {
      events := sent;
      var wasPresent := st.reader in present && present[st.reader];
      if st.present {
        if !wasPresent || (st.reader in counters && counters[st.reader] != st.counter) {
          var inserted := Identify(svc, st.reader, env);
          events := events + inserted;
        }
      } else if wasPresent {
        events := events + [Remove(st.reader)];
      }
      present := present[st.reader := st.present];
      if st.present {
        counters := counters[st.reader := st.counter];
      } else {
        counters := counters - {st.reader};
      }
    }

    /** The states of one answer, in order, against the tracked presence and counters. */
    method ScanStates<S>(svc: Service<S>, snap: Snapshot, env: Setting<S>) returns (events: seq<Event>)
      requires units.Valid() && Tracks(present, counters, last, sameSession)
      requires Distinct(snap) && env.behaviour == svc.behaviour
      modifies this`present, this`counters, units, svc
      ensures units.Valid()
      ensures Progress(svc.Value(), units.Value(), events)
           == Scanned(env, last, sameSession, Progress(old(svc.Value()), old(units.Value()), []), snap)
      ensures present == PresenceAfter(old(present), snap) && counters == CountersAfter(old(counters), snap)
    {
      events := [];
      ghost var start := Progress(svc.Value(), units.Value(), events);
      assert snap[..0] == [];
      for i := 0 to |snap|
        invariant units.Valid()
        invariant Progress(svc.Value(), units.Value(), events) == Scanned(env, last, sameSession, start, snap[..i])
        invariant present == PresenceAfter(old(present), snap[..i])
        invariant counters == CountersAfter(old(counters), snap[..i])
      {
        var st := snap[i];
        assert snap[..i + 1][..i] == snap[..i];
        StateMeetsLast(old(present), old(counters), last, sameSession, snap, i);
        events := ScanState(svc, st, env, events);
      }
      assert snap[..|snap|] == snap;
    }

    /** Readers missing from the last answer leave the maps and the registry; a present one is reported removed. */
    method DropUnlisted(seen: set<string>) returns (events: seq<Event>)
      requires units.Valid()
      modifies this`present, this`counters, units
      ensures units.Valid()
      ensures var gone := old(present).Keys - seen;
              && present == old(present) - gone && counters == old(counters) - gone
              && units.Value() == ForgetAll(old(units.Value()), gone)
              && RemovalsOf(WithCard(old(present), gone), events)
    {
      events := [];
      var todo := present.Keys;
      ghost var done := {};
      ForgetNone(units.Value());
      while todo != {}
        invariant todo !! done && done !! seen && todo + done <= old(present).Keys <= todo + done + seen
        invariant units.Valid()
        invariant present == old(present) - done && counters == old(counters) - done
        invariant units.Value() == ForgetAll(old(units.Value()), done)
        invariant RemovalsOf(WithCard(old(present), done), events)
        decreases todo
      {
        var reader :| reader in todo;
        todo := todo - {reader};
        if reader in seen {
          continue;
        }
        var wasPresent := present[reader];
        present := present - {reader};
        counters := counters - {reader};
        ForgetOneMore(old(units.Value()), done, reader);
        units.Forget(reader);
        OneMoreRemoval(old(present), done, reader, events);
        if wasPresent {
          events := events + [Remove(reader)];
        }
        done := done + {reader};
      }
      assert done == old(present).Keys - seen;
    }

    /**
     One turn of the poll loop: whatever the maps went through, cards, registry and events
     are those of comparing the new snapshot with the last one.
     */
    method Poll<S>(svc: Service<S>, usePath: bool, turn: Turn) returns (events: seq<Event>)
      requires Valid() && turn.Answer? && Distinct(turn.snap)
      modifies this, units, svc
      ensures Valid() && units == old(units)
      ensures State(svc) == Next(svc.behaviour, usePath, old(State(svc)), turn)
      ensures PollEvents(svc.behaviour, usePath, old(State(svc)), turn, events)
    {
      ghost var before, scanned := State(svc), ScanFrom(svc.behaviour, usePath, State(svc), turn);
      var snap := turn.snap;
      var env := Setting(svc.behaviour, usePath, turn.evidence);
      events := ScanStates(svc, snap, env);
      var seen := set st | st in snap :: st.reader;
      MapsAfterScan(old(present), old(counters), last, sameSession, snap);
      ghost var tracked := present;
      KnownAreListed(env, last, sameSession, Progress(before.world, before.reg, []), snap);
      var gone := DropUnlisted(seen);
      GoneAreUnlisted(tracked, last, snap, gone);
      assert events + gone == scanned.events + gone;
      events := events + gone;
      last, sameSession := snap, true;
    }

    ghost function State<S>(svc: Service<S>): WatchState<S>
      reads this, units, svc
    {
      WatchState(svc.Value(), units.Value(), last, sameSession)
    }

    /** One connection: the session starts over, then every answer of the daemon is polled in turn. */
    method PollLoop<S>(svc: Service<S>, usePath: bool, turns: seq<Turn>) returns (events: seq<seq<Event>>)
      requires Valid()
      requires forall t :: t in turns ==> t.Answer? && Distinct(t.snap)
      modifies this, units, svc
      ensures Valid() && fresh(units)
      ensures var start := Next(svc.behaviour, usePath, old(State(svc)), Reconnect);
              && State(svc) == Watched(svc.behaviour, usePath, start, turns)
              && EventsOfPolls(svc.behaviour, usePath, start, turns, events)
    {
      svc.Redial();
      StartSession();
      ghost var start := State(svc);
      events := [];
      assert turns[..0] == [];
      for i := 0 to |turns|
        invariant Valid() && fresh(units)
        invariant State(svc) == Watched(svc.behaviour, usePath, start, turns[..i])
        invariant EventsOfPolls(svc.behaviour, usePath, start, turns[..i], events)
      {
        assert turns[i] in turns;
        OneMoreTurn(svc.behaviour, usePath, start, turns, i);
        var sent := Poll(svc, usePath, turns[i]);
        assert turns[..i + 1][..i] == turns[..i] && (events + [sent])[..|events|] == events;
        events := events + [sent];
      }
      assert turns[..|turns|] == turns;
    }
  }

  /** The events of every poll of a session, each against the state the earlier ones left. */
  ghost predicate EventsOfPolls<S>(b: Behaviour<S>, usePath: bool, start: WatchState<S>, turns: seq<Turn>, events: seq<seq<Event>>)
    decreases |turns|
  {
    |events| == |turns| &&
    (turns == [] ||
     var n := |turns| - 1;
     && turns[n].Answer?
     && EventsOfPolls(b, usePath, start, turns[..n], events[..n])
     && PollEvents(b, usePath, Watched(b, usePath, start, turns[..n]), turns[n], events[n]))
  }

  /** The events a poll from this state may send. */
  ghost predicate PollEvents<S>(b: Behaviour<S>, usePath: bool, ws: WatchState<S>, turn: Turn, events: seq<Event>)
    requires turn.Answer?
  {
    exists gone :: events == ScanFrom(b, usePath, ws, turn).events + gone && GoneEvents(ws.last, turn.snap, gone)
  }

  lemma {:induction false} OneMoreTurn<S>(b: Behaviour<S>, usePath: bool, ws: WatchState<S>, turns: seq<Turn>, i: nat)
    requires i < |turns|
    ensures Watched(b, usePath, ws, turns[..i + 1]) == Next(b, usePath, Watched(b, usePath, ws, turns[..i]), turns[i])
    decreases i
  {
    if i == 0 {
      var after := Next(b, usePath, ws, turns[0]);
      assert turns[..1] == [turns[0]] && [turns[0]][1..] == [];
      assert Watched(b, usePath, after, []) == after;
    } else {
      OneMoreTurn(b, usePath, Next(b, usePath, ws, turns[0]), turns[1..], i - 1);
      assert turns[..i + 1][1..] == turns[1..][..i] && turns[..i][1..] == turns[1..][..i - 1];
    }
  }

  lemma OneMoreRemoval(present: map<string, bool>, done: set<string>, reader: string, events: seq<Event>)
    requires RemovalsOf(WithCard(present, done), events) && reader !in done && reader in present
    ensures RemovalsOf(WithCard(present, done + {reader}), if present[reader] then events + [Remove(reader)] else events)
  {
  }

  lemma ForgetNone(reg: Registry)
    ensures ForgetAll(reg, {}) == reg
  {
    assert ForgetAll(reg, {}).facts == reg.facts;
    assert ForgetAll(reg, {}).byPort == reg.byPort;
  }

  lemma ForgetOneMore(reg: Registry, gone: set<string>, reader: string)
    ensures ForgetSpec(ForgetAll(reg, gone), reader) == ForgetAll(reg, gone + {reader})
  {
    assert reg.facts - gone - {reader} == reg.facts - (gone + {reader});
  }

  lemma MapsAfterScan(present: map<string, bool>, counters: map<string, u32>, last: Snapshot, sameSession: bool, snap: Snapshot)
    requires Tracks(present, counters, last, sameSession) && Distinct(snap)
    ensures var p, c, gone := PresenceAfter(present, snap), CountersAfter(counters, snap), Unlisted(last, snap);
            && p.Keys - (set st | st in snap :: st.reader) == gone
            && (forall r :: r in gone ==> (p[r] <==> ShowsPresent(last, r)))
            && Tracks(p - gone, c - gone, snap, true)
  {
    var p, c, gone := PresenceAfter(present, snap), CountersAfter(counters, snap), Unlisted(last, snap);
    ScannedAreTracked(present, counters, snap);
    forall r | !Lists(snap, r)
      ensures (r in p <==> r in present) && (r in present ==> p[r] == present[r]) && (r in c <==> r in counters)
    {
      UntouchedBefore(present, counters, snap, r);
    }
    forall r | r in gone
      ensures p[r] <==> ShowsPresent(last, r)
    {
      LookUp(present, last, r);
    }
  }

  lemma {:induction false} ScannedKnowsListed<S>(env: Setting<S>, last: Snapshot, sameSession: bool, p: Progress<S>, snap: Snapshot)
    ensures forall r :: r in Scanned(env, last, sameSession, p, snap).reg.facts ==> r in p.reg.facts || Lists(snap, r)
  {
    if snap == [] {
    } else {
      var n := |snap| - 1;
      ScannedKnowsListed(env, last, sameSession, p, snap[..n]);
      assert snap == snap[..n] + [snap[n]];
      forall r | Lists(snap[..n], r)
        ensures Lists(snap, r)
      {
        var st :| st in snap[..n] && st.reader == r;
        assert st in snap;
      }
    }
  }

  /** Presence after the states of a snapshot were scanned. */
  function PresenceAfter(present: map<string, bool>, snap: Snapshot): map<string, bool> {
    if snap == [] then present
    else PresenceAfter(present, snap[..|snap| - 1])[snap[|snap| - 1].reader := snap[|snap| - 1].present]
  }

  function CountersAfter(counters: map<string, u32>, snap: Snapshot): map<string, u32> {
    if snap == [] then counters
    else
      var before, st := CountersAfter(counters, snap[..|snap| - 1]), snap[|snap| - 1];
      if st.present then before[st.reader := st.counter] else before - {st.reader}
  }

  lemma {:induction false} UntouchedBefore(present: map<string, bool>, counters: map<string, u32>, snap: Snapshot, r: string)
    requires !Lists(snap, r)
    ensures r in PresenceAfter(present, snap) <==> r in present
    ensures r in present ==> PresenceAfter(present, snap)[r] == present[r]
    ensures r in CountersAfter(counters, snap) <==> r in counters
    ensures r in counters ==> CountersAfter(counters, snap)[r] == counters[r]
  {
    if snap == [] {
    } else {
      var n := |snap| - 1;
      assert snap[n] in snap;
      forall st | st in snap[..n] ensures st in snap {}
      UntouchedBefore(present, counters, snap[..n], r);
    }
  }

  /** While a snapshot is scanned, the maps still answer for its next reader from the last snapshot. */
  lemma StateMeetsLast(present: map<string, bool>, counters: map<string, u32>, last: Snapshot, sameSession: bool,
                       snap: Snapshot, i: nat)
    requires Tracks(present, counters, last, sameSession) && Distinct(snap) && i < |snap|
    ensures var p, c, st := PresenceAfter(present, snap[..i]), CountersAfter(counters, snap[..i]), snap[i];
            && ((st.reader in p && p[st.reader]) <==> ShowsPresent(last, st.reader))
            && ((st.reader in c && c[st.reader] != st.counter) <==> sameSession && Recounted(last, st))
  {
    var st := snap[i];
    UntouchedBefore(present, counters, snap[..i], st.reader);
    LookUp(present, last, st.reader);
    if sameSession {
      LookUpCounter(counters, last, st);
    }
  }

  lemma {:induction false} ScannedAreTracked(present: map<string, bool>, counters: map<string, u32>, snap: Snapshot)
    requires Distinct(snap)
    ensures forall st :: st in snap ==>
      && st.reader in PresenceAfter(present, snap) && PresenceAfter(present, snap)[st.reader] == st.present
      && (if st.present then st.reader in CountersAfter(counters, snap)
                             && CountersAfter(counters, snap)[st.reader] == st.counter
          else st.reader !in CountersAfter(counters, snap))
  {
    if snap == [] {
    } else {
      var n := |snap| - 1;
      ScannedAreTracked(present, counters, snap[..n]);
      assert snap == snap[..n] + [snap[n]];
    }
  }

  lemma GoneAreUnlisted(scanned: map<string, bool>, last: Snapshot, snap: Snapshot, events: seq<Event>)
    requires forall r :: r in Unlisted(last, snap) ==> r in scanned && (scanned[r] <==> ShowsPresent(last, r))
    requires RemovalsOf(WithCard(scanned, Unlisted(last, snap)), events)
    ensures GoneEvents(last, snap, events)
  {
    assert WithCard(scanned, Unlisted(last, snap)) == set r | r in Unlisted(last, snap) && ShowsPresent(last, r);
  }

  /** After a poll the registry knows listed readers only. */
  lemma KnownAreListed<S>(env: Setting<S>, last: Snapshot, sameSession: bool, p: Progress<S>, snap: Snapshot)
    requires forall r :: r in p.reg.facts ==> Lists(last, r)
    ensures forall r :: r in ForgetAll(Scanned(env, last, sameSession, p, snap).reg, Unlisted(last, snap)).facts ==>
      Lists(snap, r)
  {
    ScannedKnowsListed(env, last, sameSession, p, snap);
  }

  /** After a poll every port claim belongs to a reader of the snapshot. */
  lemma EveryClaimIsListed(t: Tracking, port: string)
    requires t.Valid() && port in t.units.byPort
    ensures Lists(t.last, t.units.byPort[port])
  {
    assert t.units.Value().byPort[port] in t.units.Value().facts;
  }

  // ---------------------------------------------------------------------------
  // The events of one poll, reader by reader

  /** The events about one reader, in order. */
  function About(reader: string, events: seq<Event>): seq<Event> {
    if events == [] then []
    else
      var n := |events| - 1;
      About(reader, events[..n]) + if events[n].reader == reader then [events[n]] else []
  }

  lemma {:induction false} AboutConcat(reader: string, a: seq<Event>, b: seq<Event>)
    ensures About(reader, a + b) == About(reader, a) + About(reader, b)
  {
    if b == [] {
      assert a + b == a;
    } else {
      var n := |b| - 1;
      AboutConcat(reader, a, b[..n]);
      assert (a + b)[..|a + b| - 1] == a + b[..n];
    }
  }

  lemma {:induction false} AboutRemovals(reader: string, events: seq<Event>)
    requires forall e :: e in events ==> e.Remove?
    requires forall i, j :: 0 <= i < j < |events| ==> events[i] != events[j]
    ensures About(reader, events) == if Remove(reader) in events then [Remove(reader)] else []
  {
    if events == [] {
    } else {
      var n := |events| - 1;
      AboutRemovals(reader, events[..n]);
      assert events == events[..n] + [events[n]];
      assert events[n] in events && events[n].Remove?;
      if Remove(reader) in events[..n] {
        var k :| 0 <= k < n && events[k] == Remove(reader);
        assert events[n] != events[k];
      }
    }
  }

  /** The events one listed reader causes when its turn in the scan comes. */
  ghost function EventsOfState<S>(env: Setting<S>, last: Snapshot, sameSession: bool, p: Progress<S>, st: ReaderState): seq<Event> {
    if Arrived(last, sameSession, st) then
      InsertionOf(st.reader, Reported(p.reg, env.usePath, StepOf(env, p.world, p.reg, st.reader)))
    else if Left(last, st) then [Remove(st.reader)]
    else []
  }

  lemma VisitAdds<S>(env: Setting<S>, last: Snapshot, sameSession: bool, p: Progress<S>, st: ReaderState)
    ensures Visit(env, last, sameSession, p, st).events == p.events + EventsOfState(env, last, sameSession, p, st)
    ensures forall e :: e in EventsOfState(env, last, sameSession, p, st) ==> e.reader == st.reader
    ensures |EventsOfState(env, last, sameSession, p, st)| <= 1
  {
  }

  lemma AboutOthers(r: string, events: seq<Event>)
    requires |events| <= 1
    ensures (forall e :: e in events ==> e.reader != r) ==> About(r, events) == []
    ensures (forall e :: e in events ==> e.reader == r) ==> About(r, events) == events
  {
    if events != [] {
      assert events[0] in events && events[..0] == [] && About(r, events[..0]) == [];
    }
  }

  lemma AboutLastVisited<S>(env: Setting<S>, last: Snapshot, sameSession: bool, p: Progress<S>, snap: Snapshot, r: string)
    requires snap != []
    ensures var before := Scanned(env, last, sameSession, p, snap[..|snap| - 1]);
            About(r, Scanned(env, last, sameSession, p, snap).events) == About(r, before.events) +
            if snap[|snap| - 1].reader == r then EventsOfState(env, last, sameSession, before, snap[|snap| - 1]) else []
  {
    var st, before := snap[|snap| - 1], Scanned(env, last, sameSession, p, snap[..|snap| - 1]);
    VisitAdds(env, last, sameSession, before, st);
    var caused := EventsOfState(env, last, sameSession, before, st);
    AboutConcat(r, before.events, caused);
    AboutOthers(r, caused);
  }

  lemma {:induction false} ScanAboutUnlisted<S>(env: Setting<S>, last: Snapshot, sameSession: bool, p: Progress<S>, snap: Snapshot, r: string)
    requires p.events == [] && forall st :: st in snap ==> st.reader != r
    ensures About(r, Scanned(env, last, sameSession, p, snap).events) == []
  {
    if snap == [] {
    } else {
      ScanAboutUnlisted(env, last, sameSession, p, snap[..|snap| - 1], r);
      AboutLastVisited(env, last, sameSession, p, snap, r);
      assert snap[|snap| - 1] in snap;
    }
  }

  lemma {:induction false} ScanAboutListed<S>(env: Setting<S>, last: Snapshot, sameSession: bool, p: Progress<S>, snap: Snapshot, i: nat)
    requires Distinct(snap) && p.events == [] && i < |snap|
    ensures About(snap[i].reader, Scanned(env, last, sameSession, p, snap).events)
         == EventsOfState(env, last, sameSession, Scanned(env, last, sameSession, p, snap[..i]), snap[i])
  {
    var n, r := |snap| - 1, snap[i].reader;
    AboutLastVisited(env, last, sameSession, p, snap, r);
    if i == n {
      ScanAboutUnlisted(env, last, sameSession, p, snap[..n], r);
    } else {
      ScanAboutListed(env, last, sameSession, p, snap[..n], i);
      assert snap[..n][..i] == snap[..i];
    }
  }

  /** A listed reader: exactly what its own state causes. */
  lemma PollAboutListed<S>(env: Setting<S>, last: Snapshot, sameSession: bool, p: Progress<S>, snap: Snapshot,
                           gone: seq<Event>, i: nat)
    requires Distinct(snap) && p.events == [] && GoneEvents(last, snap, gone) && i < |snap|
    ensures About(snap[i].reader, Scanned(env, last, sameSession, p, snap).events + gone)
         == EventsOfState(env, last, sameSession, Scanned(env, last, sameSession, p, snap[..i]), snap[i])
  {
    var r := snap[i].reader;
    AboutConcat(r, Scanned(env, last, sameSession, p, snap).events, gone);
    AboutRemovals(r, gone);
    ScanAboutListed(env, last, sameSession, p, snap, i);
    assert snap[i] in snap;
  }

  /** An unlisted reader: its removal, if its card was there. */
  lemma PollAboutUnlisted<S>(env: Setting<S>, last: Snapshot, sameSession: bool, p: Progress<S>, snap: Snapshot,
                             gone: seq<Event>, r: string)
    requires p.events == [] && GoneEvents(last, snap, gone) && !Lists(snap, r)
    ensures About(r, Scanned(env, last, sameSession, p, snap).events + gone)
         == if ShowsPresent(last, r) then [Remove(r)] else []
  {
    AboutConcat(r, Scanned(env, last, sameSession, p, snap).events, gone);
    AboutRemovals(r, gone);
    ScanAboutUnlisted(env, last, sameSession, p, snap, r);
  }

  /**
   From the two snapshots alone: a poll reports a reader removed, once and with nothing
   else, if and only if its card was there and now is not, the reader being listed or not.
   */
  lemma RemovalIffCardLeft<S>(env: Setting<S>, last: Snapshot, sameSession: bool, p: Progress<S>, snap: Snapshot,
                              gone: seq<Event>, r: string)
    requires Distinct(snap) && p.events == [] && GoneEvents(last, snap, gone)
    ensures var about := About(r, Scanned(env, last, sameSession, p, snap).events + gone);
            && (Remove(r) in about <==> (exists was :: was in last && was.reader == r && was.present)
                                        && (forall st :: st in snap && st.reader == r ==> !st.present))
            && (Remove(r) in about ==> about == [Remove(r)])
  {
    if Lists(snap, r) {
      var st :| st in snap && st.reader == r;
      var i :| 0 <= i < |snap| && snap[i] == st;
      PollAboutListed(env, last, sameSession, p, snap, gone, i);
      assert ShowsPresent(snap, r) <==> st.present;
    } else {
      PollAboutUnlisted(env, last, sameSession, p, snap, gone, r);
    }
  }

  /**
   Insertions of a listed reader come from its card's arrival alone: the poll then reports
   what the probe made of it, a single insertion or nothing when no UID was read.
   */
  lemma InsertionOnlyOfArrival<S>(env: Setting<S>, last: Snapshot, sameSession: bool, p: Progress<S>, snap: Snapshot,
                                  gone: seq<Event>, i: nat)
    requires Distinct(snap) && p.events == [] && GoneEvents(last, snap, gone) && i < |snap|
    ensures var about := About(snap[i].reader, Scanned(env, last, sameSession, p, snap).events + gone);
            var q := Scanned(env, last, sameSession, p, snap[..i]);
            if Arrived(last, sameSession, snap[i]) then
              var f := Reported(q.reg, env.usePath, StepOf(env, q.world, q.reg, snap[i].reader));
              about == if f.uid == [] then [] else [Insert(snap[i].reader, f.uid, f.serial, f.port)]
            else forall e :: e in about ==> e.Remove?
  {
    PollAboutListed(env, last, sameSession, p, snap, gone, i);
  }

  /** The UID one probe of a card service ends with. */
  function CardRead(card: Option<Insisted>): seq<byte> {
    if card.None? then [] else card.value.uid
  }

  /**
   An arrival is reported by exactly one insertion, with the UID its probe read and the
   serial and port the registry then holds, if and only if the probe read a UID.
   */
  lemma ArrivalIsReportedIffRead<S>(env: Setting<S>, last: Snapshot, sameSession: bool, p: Progress<S>, snap: Snapshot,
                                    gone: seq<Event>, i: nat)
    requires Distinct(snap) && p.events == [] && GoneEvents(last, snap, gone) && i < |snap|
    requires Arrived(last, sameSession, snap[i])
    ensures var r, ev := snap[i].reader, env.evidence(snap[i].reader);
            var before, after := Scanned(env, last, sameSession, p, snap[..i]), Scanned(env, last, sameSession, p, snap[..i + 1]);
            var uid := CardRead(ProbeCard(env.behaviour, before.world, Pins(env.usePath, UnitOf(Cached(before.reg, r)), ev)).1);
            var held := Cached(after.reg, r);
            && held.uid == uid
            && About(r, Scanned(env, last, sameSession, p, snap).events + gone)
               == if uid == [] then [] else [Insert(r, uid, held.serial, held.port)]
  {
    var r, ev := snap[i].reader, env.evidence(snap[i].reader);
    var before := Scanned(env, last, sameSession, p, snap[..i]);
    var card := ProbeCard(env.behaviour, before.world, Pins(env.usePath, UnitOf(Cached(before.reg, r)), ev)).1;
    assert snap[..i + 1][..i] == snap[..i];
    InsertionOnlyOfArrival(env, last, sameSession, p, snap, gone, i);
    if card.None? {
      PresentationCarriesItsCard(before.reg, env.usePath, r, false, ev, [], 0);
    } else {
      PresentationCarriesItsCard(before.reg, env.usePath, r, true, ev, card.value.uid, card.value.protocol);
    }
  }

  /**
   Against the fake reader: an arrival is reported, with its own UID, if and only if the card
   is there, its UID is neither empty nor random, and the failure counters meet the budget of
   a probe; otherwise the poll is silent about it.
   */
  lemma FakeArrivalIsReportedIff(echo: (Reader, nat) -> seq<byte>, usePath: bool, evidence: string -> Evidence,
                                 last: Snapshot, sameSession: bool, p: Progress<Reader>, snap: Snapshot,
                                 gone: seq<Event>, i: nat)
    requires Distinct(snap) && p.events == [] && GoneEvents(last, snap, gone) && i < |snap|
    requires Arrived(last, sameSession, snap[i])
    requires var w := Scanned(Setting(Fake(echo), usePath, evidence), last, sameSession, p, snap[..i]).world;
             w.leftover == [] && |w.state.uid| <= 262
    ensures var env := Setting(Fake(echo), usePath, evidence);
            var card, reader := Scanned(env, last, sameSession, p, snap[..i]).world.state, snap[i].reader;
            var held := Cached(Scanned(env, last, sameSession, p, snap[..i + 1]).reg, reader);
            About(reader, Scanned(env, last, sameSession, p, snap).events + gone)
            == if card.present && card.uid != [] && !(|card.uid| == 4 && card.uid[0] == 0x08)
                  && ConnectFailures(card) <= 2 && card.failUIDProbes <= 8
                  && (LagLeft(card) <= 7 || (card.failUIDProbes <= 2 && !card.stuck))
               then [Insert(reader, card.uid, held.serial, held.port)] else []
  {
    var env, r := Setting(Fake(echo), usePath, evidence), snap[i].reader;
    var before := Scanned(env, last, sameSession, p, snap[..i]);
    ArrivalIsReportedIffRead(env, last, sameSession, p, snap, gone, i);
    UidBudget(echo, before.world, Pins(usePath, UnitOf(Cached(before.reg, r)), evidence(r)));
  }

  ghost predicate InsertsHaveUid(events: seq<Event>) {
    forall e :: e in events && e.Insert? ==> e.uid != []
  }

  lemma {:induction false} ScanInsertsHaveUid<S>(env: Setting<S>, last: Snapshot, sameSession: bool, p: Progress<S>, snap: Snapshot)
    requires InsertsHaveUid(p.events)
    ensures InsertsHaveUid(Scanned(env, last, sameSession, p, snap).events)
  {
    if snap == [] {
    } else {
      ScanInsertsHaveUid(env, last, sameSession, p, snap[..|snap| - 1]);
    }
  }

  /** No poll, in whatever state, with whatever cards and evidence, reports a card without a UID. */
  lemma EveryInsertionHasUid<S>(b: Behaviour<S>, usePath: bool, ws: WatchState<S>, turn: Turn, events: seq<Event>)
    requires turn.Answer? && PollEvents(b, usePath, ws, turn, events)
    ensures InsertsHaveUid(events)
  {
    ScanInsertsHaveUid(Setting(b, usePath, turn.evidence), ws.last, ws.sameSession, Progress(ws.world, ws.reg, []), turn.snap);
  }

  // ---------------------------------------------------------------------------
  // The registry over polls

  /** A poll is a session of presentations, in scan order. */
  ghost function Presentations<S>(env: Setting<S>, last: Snapshot, sameSession: bool, p: Progress<S>, snap: Snapshot): seq<SessionStep> {
    if snap == [] then []
    else
      var n := |snap| - 1;
      var before := Scanned(env, last, sameSession, p, snap[..n]);
      Presentations(env, last, sameSession, p, snap[..n]) +
      if Arrived(last, sameSession, snap[n]) then [StepOf(env, before.world, before.reg, snap[n].reader)] else []
  }

  /** The readers of a snapshot whose card arrived, in order. */
  ghost function ArrivedReaders(last: Snapshot, sameSession: bool, snap: Snapshot): seq<string> {
    if snap == [] then []
    else
      var n := |snap| - 1;
      ArrivedReaders(last, sameSession, snap[..n]) + if Arrived(last, sameSession, snap[n]) then [snap[n].reader] else []
  }

  /** Card service and registry after probing readers in order, each adopted before the next. */
  ghost function ProbedInOrder<S>(env: Setting<S>, world: World<S>, reg: Registry, readers: seq<string>): (World<S>, Registry) {
    if readers == [] then (world, reg)
    else
      var n := |readers| - 1;
      var before := ProbedInOrder(env, world, reg, readers[..n]);
      (WorldAfter(env, before.0, before.1, readers[n]),
       After(before.1, env.usePath, StepOf(env, before.0, before.1, readers[n])))
  }

  lemma ProbedOneMore<S>(env: Setting<S>, world: World<S>, reg: Registry, readers: seq<string>, r: string)
    ensures var before := ProbedInOrder(env, world, reg, readers);
            var after := ProbedInOrder(env, world, reg, readers + [r]);
            && after.0 == WorldAfter(env, before.0, before.1, r)
            && after.1 == After(before.1, env.usePath, StepOf(env, before.0, before.1, r))
  {
    assert (readers + [r])[..|readers|] == readers;
  }

  /**
   The readers probed by a scan are exactly the arrived ones, in order; all other readers
   leave card service and registry untouched.
   */
  lemma {:induction false} ProbesAreArrivals<S>(env: Setting<S>, last: Snapshot, sameSession: bool, p: Progress<S>, snap: Snapshot)
    ensures var q := Scanned(env, last, sameSession, p, snap);
            (q.world, q.reg) == ProbedInOrder(env, p.world, p.reg, ArrivedReaders(last, sameSession, snap))
  {
    if snap == [] {
    } else {
      var n := |snap| - 1;
      var earlier := ArrivedReaders(last, sameSession, snap[..n]);
      ProbesAreArrivals(env, last, sameSession, p, snap[..n]);
      if Arrived(last, sameSession, snap[n]) {
        ProbedOneMore(env, p.world, p.reg, earlier, snap[n].reader);
      } else {
        assert earlier + [] == earlier;
      }
    }
  }

  /** The presentations of a scan are those of the arrived readers. */
  lemma {:induction false} PresentationsAreArrivals<S>(env: Setting<S>, last: Snapshot, sameSession: bool, p: Progress<S>, snap: Snapshot)
    ensures var probes, arrived := Presentations(env, last, sameSession, p, snap), ArrivedReaders(last, sameSession, snap);
            |probes| == |arrived| && forall i :: 0 <= i < |arrived| ==> probes[i].reader == arrived[i]
  {
    if snap == [] {
    } else {
      PresentationsAreArrivals(env, last, sameSession, p, snap[..|snap| - 1]);
    }
  }

  lemma LastNotListedBefore(snap: Snapshot)
    requires Distinct(snap) && snap != []
    ensures !Lists(snap[..|snap| - 1], snap[|snap| - 1].reader)
  {}

  lemma {:induction false} ArrivedAreListed(last: Snapshot, sameSession: bool, snap: Snapshot)
    ensures forall r :: r in ArrivedReaders(last, sameSession, snap) ==> Lists(snap, r)
  {
    if snap == [] {
    } else {
      var n := |snap| - 1;
      ArrivedAreListed(last, sameSession, snap[..n]);
      assert snap[n] in snap;
      forall r | Lists(snap[..n], r)
        ensures Lists(snap, r)
      {
        var st :| st in snap[..n] && st.reader == r;
        assert st in snap;
      }
    }
  }

  ghost predicate NoRepeats(readers: seq<string>) {
    forall i, j :: 0 <= i < j < |readers| ==> readers[i] != readers[j]
  }

  lemma OnceMore(readers: seq<string>, r: string)
    requires NoRepeats(readers) && r !in readers
    ensures NoRepeats(readers + [r])
  {}

  /** No reader is probed twice in a scan. */
  lemma {:induction false} ProbedOnce(last: Snapshot, sameSession: bool, snap: Snapshot)
    requires Distinct(snap)
    ensures NoRepeats(ArrivedReaders(last, sameSession, snap))
  {
    if snap == [] {
    } else {
      var n := |snap| - 1;
      var earlier := ArrivedReaders(last, sameSession, snap[..n]);
      ProbedOnce(last, sameSession, snap[..n]);
      ArrivedAreListed(last, sameSession, snap[..n]);
      LastNotListedBefore(snap);
      OnceMore(earlier, snap[n].reader);
      assert earlier + [] == earlier;
    }
  }

  /** A listed reader is probed if and only if its card is new: not there before, or recounted within the session. */
  lemma {:induction false} ProbedIffArrived(last: Snapshot, sameSession: bool, snap: Snapshot, i: nat)
    requires Distinct(snap) && i < |snap|
    ensures snap[i].reader in ArrivedReaders(last, sameSession, snap)
       <==> snap[i].present
            && ((forall was :: was in last && was.reader == snap[i].reader ==> !was.present)
                || (sameSession && exists was :: was in last && was.reader == snap[i].reader
                                                 && was.present && was.counter != snap[i].counter))
  {
    var n := |snap| - 1;
    ArrivedAreListed(last, sameSession, snap[..n]);
    LastNotListedBefore(snap);
    if i < n {
      assert snap[..n][i] == snap[i] && snap[i].reader != snap[n].reader;
      ProbedIffArrived(last, sameSession, snap[..n], i);
    } else {
      assert snap[n].reader !in ArrivedReaders(last, sameSession, snap[..n]);
    }
  }

  lemma {:induction false} AfterAllConcat(reg: Registry, usePath: bool, a: seq<SessionStep>, b: seq<SessionStep>)
    ensures AfterAll(reg, usePath, a + b) == AfterAll(AfterAll(reg, usePath, a), usePath, b)
    decreases |a|
  {
    if a == [] {
      assert a + b == b;
    } else {
      AfterAllConcat(After(reg, usePath, a[0]), usePath, a[1..], b);
      assert (a + b)[1..] == a[1..] + b;
    }
  }

  lemma {:induction false} ScanIsSession<S>(env: Setting<S>, last: Snapshot, sameSession: bool, p: Progress<S>, snap: Snapshot)
    ensures Scanned(env, last, sameSession, p, snap).reg
         == AfterAll(p.reg, env.usePath, Presentations(env, last, sameSession, p, snap))
  {
    if snap == [] {
    } else {
      var n := |snap| - 1;
      var before, earlier := Scanned(env, last, sameSession, p, snap[..n]), Presentations(env, last, sameSession, p, snap[..n]);
      ScanIsSession(env, last, sameSession, p, snap[..n]);
      if Arrived(last, sameSession, snap[n]) {
        OneMoreStep(p.reg, env.usePath, earlier, StepOf(env, before.world, before.reg, snap[n].reader));
      } else {
        assert earlier + [] == earlier;
      }
    }
  }

  lemma OneMoreStep(reg: Registry, usePath: bool, steps: seq<SessionStep>, step: SessionStep)
    ensures AfterAll(reg, usePath, steps + [step]) == After(AfterAll(reg, usePath, steps), usePath, step)
  {
    AfterAllConcat(reg, usePath, steps, [step]);
    var before := AfterAll(reg, usePath, steps);
    assert [step][1..] == [] && AfterAll(before, usePath, [step]) == AfterAll(After(before, usePath, step), usePath, []);
  }

  lemma {:induction false} PresentationsAreProbes<S>(env: Setting<S>, last: Snapshot, sameSession: bool, p: Progress<S>, snap: Snapshot)
    ensures forall s :: s in Presentations(env, last, sameSession, p, snap) ==>
      s.Presented? && s.ev == env.evidence(s.reader) && exists st :: st in snap && st.reader == s.reader
  {
    if snap == [] {
    } else {
      var n := |snap| - 1;
      PresentationsAreProbes(env, last, sameSession, p, snap[..n]);
      assert snap[n] in snap;
      forall s | s in Presentations(env, last, sameSession, p, snap[..n])
        ensures exists st :: st in snap && st.reader == s.reader
      {
        var st :| st in snap[..n] && st.reader == s.reader;
        assert st in snap;
      }
    }
  }

  lemma ForgetAllKeeps(reg: Registry, gone: set<string>)
    requires Inverse(reg)
    ensures Inverse(ForgetAll(reg, gone))
    ensures forall r :: r !in gone ==> Cached(ForgetAll(reg, gone), r) == Cached(reg, r)
  {
  }

  /** The watch loop between polls. */
  datatype WatchState<S> = WatchState(world: World<S>, reg: Registry, last: Snapshot, sameSession: bool)

  datatype Turn = Reconnect | Answer(snap: Snapshot, evidence: string -> Evidence)

  ghost function ScanFrom<S>(b: Behaviour<S>, usePath: bool, ws: WatchState<S>, turn: Turn): Progress<S>
    requires turn.Answer?
  {
    Scanned(Setting(b, usePath, turn.evidence), ws.last, ws.sameSession, Progress(ws.world, ws.reg, []), turn.snap)
  }

  ghost function Next<S>(b: Behaviour<S>, usePath: bool, ws: WatchState<S>, turn: Turn): WatchState<S> {
    match turn
    case Reconnect => ws.(world := ws.world.(leftover := []), reg := EMPTY, sameSession := false)
    case Answer(snap, _) =>
      var p := ScanFrom(b, usePath, ws, turn);
      WatchState(p.world, ForgetAll(p.reg, Unlisted(ws.last, snap)), snap, true)
  }

  ghost function Watched<S>(b: Behaviour<S>, usePath: bool, ws: WatchState<S>, turns: seq<Turn>): WatchState<S>
    decreases |turns|
  {
    if turns == [] then ws else Watched(b, usePath, Next(b, usePath, ws, turns[0]), turns[1..])
  }

  /** Every probe of the turn sees physically consistent evidence. */
  ghost predicate PhysicalTurn(home: map<string, string>, turn: Turn) {
    turn.Answer? ==> forall st :: st in turn.snap ==> Physical(home, st.reader, turn.evidence(st.reader))
  }

  lemma TurnKeepsClaimsTrue<S>(home: map<string, string>, b: Behaviour<S>, usePath: bool, ws: WatchState<S>, turn: Turn)
    requires Wiring(home) && PhysicalTurn(home, turn) && Inverse(ws.reg) && ClaimsTrue(home, ws.reg)
    ensures Inverse(Next(b, usePath, ws, turn).reg) && ClaimsTrue(home, Next(b, usePath, ws, turn).reg)
  {
    if turn.Answer? {
      var env, p := Setting(b, usePath, turn.evidence), Progress(ws.world, ws.reg, []);
      var steps := Presentations(env, ws.last, ws.sameSession, p, turn.snap);
      ScanIsSession(env, ws.last, ws.sameSession, p, turn.snap);
      PresentationsAreProbes(env, ws.last, ws.sameSession, p, turn.snap);
      EveryClaimIsTrue(home, ws.reg, usePath, steps);
      ForgetAllKeeps(ScanFrom(b, usePath, ws, turn).reg, Unlisted(ws.last, turn.snap));
    }
  }

  /** However long the loop runs, over polls and reconnects, no reader carries a port that is not its own. */
  lemma {:induction false} WatchedClaimsAreTrue<S>(home: map<string, string>, b: Behaviour<S>, usePath: bool,
                                                   ws: WatchState<S>, turns: seq<Turn>)
    requires Wiring(home) && Inverse(ws.reg) && ClaimsTrue(home, ws.reg)
    requires forall t :: t in turns ==> PhysicalTurn(home, t)
    ensures Inverse(Watched(b, usePath, ws, turns).reg) && ClaimsTrue(home, Watched(b, usePath, ws, turns).reg)
    decreases |turns|
  {
    if turns == [] {
    } else {
      TurnKeepsClaimsTrue(home, b, usePath, ws, turns[0]);
      WatchedClaimsAreTrue(home, b, usePath, Next(b, usePath, ws, turns[0]), turns[1..]);
    }
  }

  lemma {:induction false} PresentationsPinNothing(reg: Registry, usePath: bool, steps: seq<SessionStep>)
    requires forall s :: s in steps ==> s.Presented?
    ensures PinsUnknown(reg, usePath, steps)
    decreases |steps|
  {
    if steps == [] {
    } else {
      assert steps[0] in steps;
      PresentationsPinNothing(After(reg, usePath, steps[0]), usePath, steps[1..]);
    }
  }

  lemma TurnKeepsOneTier<S>(b: Behaviour<S>, usePath: bool, ws: WatchState<S>, turn: Turn)
    requires Inverse(ws.reg) && OneTier(ws.reg)
    ensures OneTier(Next(b, usePath, ws, turn).reg)
  {
    if turn.Answer? {
      var env, p := Setting(b, usePath, turn.evidence), Progress(ws.world, ws.reg, []);
      var steps := Presentations(env, ws.last, ws.sameSession, p, turn.snap);
      ScanIsSession(env, ws.last, ws.sameSession, p, turn.snap);
      PresentationsAreProbes(env, ws.last, ws.sameSession, p, turn.snap);
      PresentationsPinNothing(ws.reg, usePath, steps);
      NoReaderHoldsBothTiers(ws.reg, usePath, steps);
    }
  }

  lemma {:induction false} PresentationsKeepInverse(reg: Registry, usePath: bool, steps: seq<SessionStep>)
    requires Inverse(reg) && forall s :: s in steps ==> s.Presented?
    ensures Inverse(AfterAll(reg, usePath, steps))
    decreases |steps|
  {
    if steps == [] {
    } else {
      assert steps[0] in steps;
      AdoptKeepsInverse(reg, steps[0].reader, ProbedFacts(reg, usePath, steps[0]));
      PresentationsKeepInverse(After(reg, usePath, steps[0]), usePath, steps[1..]);
    }
  }

  lemma TurnKeepsInverse<S>(b: Behaviour<S>, usePath: bool, ws: WatchState<S>, turn: Turn)
    requires Inverse(ws.reg)
    ensures Inverse(Next(b, usePath, ws, turn).reg)
  {
    if turn.Answer? {
      var env, p := Setting(b, usePath, turn.evidence), Progress(ws.world, ws.reg, []);
      ScanIsSession(env, ws.last, ws.sameSession, p, turn.snap);
      PresentationsAreProbes(env, ws.last, ws.sameSession, p, turn.snap);
      PresentationsKeepInverse(ws.reg, usePath, Presentations(env, ws.last, ws.sameSession, p, turn.snap));
      ForgetAllKeeps(ScanFrom(b, usePath, ws, turn).reg, Unlisted(ws.last, turn.snap));
    }
  }

  /** Over any polls and reconnects, whatever the evidence, no reader holds both a serial and a port, and no two share one. */
  lemma {:induction false} WatchedKeepsOneTier<S>(b: Behaviour<S>, usePath: bool, ws: WatchState<S>, turns: seq<Turn>)
    requires Inverse(ws.reg) && OneTier(ws.reg)
    ensures Inverse(Watched(b, usePath, ws, turns).reg) && OneTier(Watched(b, usePath, ws, turns).reg)
    decreases |turns|
  {
    if turns == [] {
    } else {
      TurnKeepsInverse(b, usePath, ws, turns[0]);
      TurnKeepsOneTier(b, usePath, ws, turns[0]);
      WatchedKeepsOneTier(b, usePath, Next(b, usePath, ws, turns[0]), turns[1..]);
    }
  }

  lemma {:induction false} ScanKeepsUnit<S>(env: Setting<S>, last: Snapshot, sameSession: bool, p: Progress<S>, snap: Snapshot, r: string)
    requires Inverse(p.reg) && Known(UnitOf(Cached(p.reg, r))) && p.events == []
    ensures var q := Scanned(env, last, sameSession, p, snap);
            && Inverse(q.reg) && UnitOf(Cached(q.reg, r)) == UnitOf(Cached(p.reg, r))
            && forall e :: e in q.events && e.Insert? && e.reader == r ==> Unit(e.serial, e.port) == UnitOf(Cached(p.reg, r))
  {
    if snap == [] {
    } else {
      var n := |snap| - 1;
      var before := Scanned(env, last, sameSession, p, snap[..n]);
      ScanKeepsUnit(env, last, sameSession, p, snap[..n], r);
      if Arrived(last, sameSession, snap[n]) {
        StepKeepsUnit(before.reg, env.usePath, StepOf(env, before.world, before.reg, snap[n].reader), r);
      }
    }
  }

  /** The session goes on and keeps listing the reader. */
  ghost predicate KeepsListing(turn: Turn, r: string) {
    turn.Answer? && Lists(turn.snap, r)
  }

  /**
   Once a reader has a serial or a port, every insertion event of it in any later poll of
   the session carries that very unit, as long as the daemon keeps listing the reader.
   */
  lemma {:induction false} EventsNeverFlipUnit<S>(b: Behaviour<S>, usePath: bool, ws: WatchState<S>, turns: seq<Turn>,
                                                  turn: Turn, r: string)
    requires Inverse(ws.reg) && Known(UnitOf(Cached(ws.reg, r))) && turn.Answer?
    requires forall t :: t in turns ==> KeepsListing(t, r)
    ensures forall e :: e in ScanFrom(b, usePath, Watched(b, usePath, ws, turns), turn).events && e.Insert? && e.reader == r ==>
      Unit(e.serial, e.port) == UnitOf(Cached(ws.reg, r))
    decreases |turns|
  {
    if turns == [] {
      ScanKeepsUnit(Setting(b, usePath, turn.evidence), ws.last, ws.sameSession, Progress(ws.world, ws.reg, []), turn.snap, r);
    } else {
      var t := turns[0];
      assert KeepsListing(t, r);
      ScanKeepsUnit(Setting(b, usePath, t.evidence), ws.last, ws.sameSession, Progress(ws.world, ws.reg, []), t.snap, r);
      ForgetAllKeeps(ScanFrom(b, usePath, ws, t).reg, Unlisted(ws.last, t.snap));
      EventsNeverFlipUnit(b, usePath, Next(b, usePath, ws, t), turns[1..], turn, r);
    }
  }

  // ---------------------------------------------------------------------------
  // Card handles over polls

  /** A card service that answers in time and within the buffer, between probes. */
  ghost predicate Ready<S>(from: S -> bool, w: World<S>) {
    from(w.state) && Sane(w) && w.leftover == []
  }

  lemma VisitHandsOn<S(!new)>(env: Setting<S>, from: S -> bool, last: Snapshot, sameSession: bool, p: Progress<S>, st: ReaderState)
    requires Faithful(env.behaviour.read) && OnTime(env.behaviour, from) && Ready(from, p.world)
    ensures var q := Visit(env, last, sameSession, p, st); Ready(from, q.world) && HandedOn(p.world, q.world)
  {
    if Arrived(last, sameSession, st) {
      var pins := Pins(env.usePath, UnitOf(Cached(p.reg, st.reader)), env.evidence(st.reader));
      ProbeHandsOn(env.behaviour, from, p.world, pins);
    }
  }

  lemma {:induction false} ScanHandsOn<S(!new)>(env: Setting<S>, from: S -> bool, last: Snapshot, sameSession: bool,
                                                p: Progress<S>, snap: Snapshot)
    requires Faithful(env.behaviour.read) && OnTime(env.behaviour, from) && Ready(from, p.world)
    ensures var q := Scanned(env, last, sameSession, p, snap); Ready(from, q.world) && HandedOn(p.world, q.world)
  {
    if snap == [] {
    } else {
      var n := |snap| - 1;
      ScanHandsOn(env, from, last, sameSession, p, snap[..n]);
      VisitHandsOn(env, from, last, sameSession, Scanned(env, last, sameSession, p, snap[..n]), snap[n]);
    }
  }

  /**
   Over every run of polls and reconnects against cards that answer in time and within the
   buffer the handle table ends as it began, and every connect met its disconnect.
   */
  lemma {:induction false} WatchedConservesHandles<S(!new)>(b: Behaviour<S>, usePath: bool, from: S -> bool,
                                                            ws: WatchState<S>, turns: seq<Turn>)
    requires Faithful(b.read) && OnTime(b, from) && Ready(from, ws.world)
    ensures HandedOn(ws.world, Watched(b, usePath, ws, turns).world)
    decreases |turns|
  {
    if turns == [] {
    } else {
      var turn := turns[0];
      if turn.Answer? {
        ScanHandsOn(Setting(b, usePath, turn.evidence), from, ws.last, ws.sameSession, Progress(ws.world, ws.reg, []), turn.snap);
      }
      WatchedConservesHandles(b, usePath, from, Next(b, usePath, ws, turn), turns[1..]);
    }
  }
}
