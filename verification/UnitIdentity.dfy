/**
 The unit identity of readers over a whole daemon session: what a probe concludes
 from its evidence (probeReaderCard in readerid.go), and what the registry then
 holds, whatever probes, inventory pins and disappearances follow each other.
 */
module UnitIdentity {
  import opened Common
  import opened UnitRegistry
  import opened PortScan

  /** What the driver and the USB tree answer during one probe. Empty strings are failures. */
  datatype Evidence = Evidence(
    serial: string,          // usable vendor serial
    channelDevpath: string,  // device path the channel id resolves to
    devpaths: map<string, string>,
    candidates: seq<string>, // CCID devices matching the reader name
    before: Snapshot,
    after: Snapshot)

  datatype Unit = Unit(serial: string, port: string)

  predicate Known(u: Unit) {
    u.serial != "" || u.port != ""
  }

  function UnitOf(f: Facts): Unit {
    Unit(f.serial, f.port)
  }

  /** A known unit is not probed again; else a serial, the channel id, the device scan, in this order. */
  ghost function ProbedUnit(usePath: bool, reader: string, claims: map<string, string>, cached: Unit, ev: Evidence): Unit {
    if Known(cached) then cached
    else if ev.serial != "" || !usePath then Unit(ev.serial, "")
    else if ev.channelDevpath != "" then Unit("", PortIdentity(reader, ev.channelDevpath))
    else Unit("", Scan(reader, ev.devpaths, ev.candidates, ev.before, ev.after, claims))
  }

  /** One use of the registry. A presentation whose card cannot be connected probes nothing. */
  datatype SessionStep =
    | Presented(reader: string, connected: bool, ev: Evidence, uid: seq<byte>, protocol: u32)
    | Pinned(reader: string, ev: Evidence)   // inventory of a reader without a card
    | Vanished(reader: string)

  ghost function ProbedFacts(reg: Registry, usePath: bool, step: SessionStep): Facts
    requires !step.Vanished?
  {
    match step
    case Presented(r, connected, ev, uid, protocol) =>
      if !connected then NO_FACTS
      else
        var u := ProbedUnit(usePath, r, reg.byPort, UnitOf(Cached(reg, r)), ev);
        Facts(u.serial, u.port, uid, protocol)
    case Pinned(r, ev) =>
      Facts("", if usePath then Scan(r, ev.devpaths, ev.candidates, None, None, reg.byPort) else "", [], 0)
  }

  /** The facts adopt answers for a step: what an insertion event or inventory line carries. */
  ghost function Reported(reg: Registry, usePath: bool, step: SessionStep): Facts
    requires !step.Vanished?
  {
    Merge(reg, step.reader, ProbedFacts(reg, usePath, step))
  }

  ghost function After(reg: Registry, usePath: bool, step: SessionStep): Registry {
    if step.Vanished? then ForgetSpec(reg, step.reader)
    else if step.Pinned? && ProbedFacts(reg, usePath, step).port == "" then reg
    else AdoptSpec(reg, step.reader, ProbedFacts(reg, usePath, step))
  }

  ghost function AfterAll(reg: Registry, usePath: bool, steps: seq<SessionStep>): Registry
    decreases |steps|
  {
    if steps == [] then reg else AfterAll(After(reg, usePath, steps[0]), usePath, steps[1..])
  }

  // ---------------------------------------------------------------------------
  // The card of a presentation

  /** The UID and protocol a presentation read are those it reports and those the registry then holds. */
  lemma PresentationCarriesItsCard(reg: Registry, usePath: bool, reader: string, connected: bool, ev: Evidence,
                                   uid: seq<byte>, protocol: u32)
    ensures var step := Presented(reader, connected, ev, uid, protocol);
            var f := Reported(reg, usePath, step);
            && f.uid == (if connected then uid else []) && f.protocol == (if connected then protocol else 0)
            && Cached(After(reg, usePath, step), reader) == f
  {
    var step := Presented(reader, connected, ev, uid, protocol);
    AdoptHoldsLatestCard(reg, reader, ProbedFacts(reg, usePath, step));
  }

  /** A pin carries no card. */
  lemma PinCarriesNoCard(reg: Registry, usePath: bool, reader: string, ev: Evidence)
    ensures Reported(reg, usePath, Pinned(reader, ev)).uid == []
  {
    AdoptHoldsLatestCard(reg, reader, ProbedFacts(reg, usePath, Pinned(reader, ev)));
  }

  /** Whatever other readers do, a reader's UID is that of its latest presentation. */
  lemma {:induction false} LatestCardIsHeld(reg: Registry, usePath: bool, steps: seq<SessionStep>, reader: string)
    requires forall s :: s in steps ==> s.reader != reader
    ensures Cached(AfterAll(reg, usePath, steps), reader).uid == Cached(reg, reader).uid
    decreases |steps|
  {
    if steps == [] {
    } else {
      assert steps[0] in steps;
      LatestCardIsHeld(After(reg, usePath, steps[0]), usePath, steps[1..], reader);
    }
  }

  /**
   The unit of any presentation, on any machine, wired or not: a known unit stays; else the
   serial, and without one the port of the channel id unless another reader holds it, or
   else what the scan finds.
   */
  lemma UnitOfAnyPresentation(reg: Registry, usePath: bool, reader: string, ev: Evidence, uid: seq<byte>, protocol: u32)
    requires Inverse(reg)
    ensures var f, was := Reported(reg, usePath, Presented(reader, true, ev, uid, protocol)), Cached(reg, reader);
            if was.serial != "" || was.port != "" then f.serial == was.serial && f.port == was.port
            else if ev.serial != "" then f.serial == ev.serial && f.port == ""
            else if !usePath then f.serial == "" && f.port == ""
            else if ev.channelDevpath != "" then
              var port := PortIdentity(reader, ev.channelDevpath);
              f.serial == "" && f.port == if port in reg.byPort && reg.byPort[port] != reader then "" else port
            else
              f.serial == "" && f.port == Scan(reader, ev.devpaths, ev.candidates, ev.before, ev.after, reg.byPort)
  {
    ScannedPortIsUnowned(reader, ev.devpaths, ev.candidates, ev.before, ev.after, reg.byPort);
  }

  // ---------------------------------------------------------------------------
  // No false claim

  /** A physical wiring: every reader has a home port, no two the same. */
  ghost predicate Wiring(home: map<string, string>) {
    && (forall r :: r in home ==> home[r] != "")
    && (forall r1, r2 :: r1 in home && r2 in home && home[r1] == home[r2] ==> r1 == r2)
  }

  /** Evidence a wired machine can produce for a reader. */
  ghost predicate Physical(home: map<string, string>, reader: string, ev: Evidence) {
    && reader in home
    && (ev.channelDevpath != "" ==> PortIdentity(reader, ev.channelDevpath) == home[reader])
    && (ev.candidates != [] ==> exists d ::
          OwnDevice(reader, home[reader], ev.devpaths, ev.candidates, ev.before, ev.after, d))
  }

  ghost predicate PhysicalStep(home: map<string, string>, step: SessionStep) {
    step.Vanished? || Physical(home, step.reader, step.ev)
  }

  ghost predicate ClaimsTrue(home: map<string, string>, reg: Registry) {
    forall r :: r in reg.facts && reg.facts[r].port != "" ==> r in home && reg.facts[r].port == home[r]
  }

  /** adopt drops the port it was handed. */
  ghost predicate Refuses(reg: Registry, usePath: bool, step: SessionStep) {
    !step.Vanished? &&
    var probed := ProbedFacts(reg, usePath, step);
    probed.port != "" && Merge(reg, step.reader, probed).port != probed.port
  }

  ghost predicate RefusesIn(reg: Registry, usePath: bool, steps: seq<SessionStep>)
    decreases |steps|
  {
    steps != [] &&
    (Refuses(reg, usePath, steps[0]) || RefusesIn(After(reg, usePath, steps[0]), usePath, steps[1..]))
  }

  lemma HomeIsFree(home: map<string, string>, reg: Registry, reader: string)
    requires Wiring(home) && ClaimsTrue(home, reg) && Inverse(reg) && reader in home
    ensures !OwnedByOther(reg.byPort, home[reader], reader)
  {
    var p := home[reader];
    if p in reg.byPort {
      assert reg.facts[reg.byPort[p]].port == p;
    }
  }

  lemma ProbeFindsHomeOrNothing(home: map<string, string>, reg: Registry, usePath: bool, step: SessionStep)
    requires Wiring(home) && ClaimsTrue(home, reg) && Inverse(reg)
    requires !step.Vanished? && PhysicalStep(home, step)
    ensures ProbedFacts(reg, usePath, step).port in {"", home[step.reader]}
  {
    var r, ev := step.reader, step.ev;
    HomeIsFree(home, reg, r);
    if ev.candidates != [] {
      var d :| OwnDevice(r, home[r], ev.devpaths, ev.candidates, ev.before, ev.after, d);
      ScanFindsHomeOrRefuses(r, home[r], ev.devpaths, ev.candidates, ev.before, ev.after, d, reg.byPort);
      ScanFindsHomeOrRefuses(r, home[r], ev.devpaths, ev.candidates, None, None, d, reg.byPort);
    }
  }

  lemma AdoptKeepsClaimsTrue(home: map<string, string>, reg: Registry, reader: string, probed: Facts)
    requires Wiring(home) && ClaimsTrue(home, reg) && Inverse(reg) && reader in home
    requires probed.port in {"", home[reader]}
    ensures ClaimsTrue(home, AdoptSpec(reg, reader, probed))
    ensures probed.port != "" ==> Merge(reg, reader, probed).port == probed.port
  {
    HomeIsFree(home, reg, reader);
  }

  lemma StepKeepsClaimsTrue(home: map<string, string>, reg: Registry, usePath: bool, step: SessionStep)
    requires Wiring(home) && ClaimsTrue(home, reg) && Inverse(reg) && PhysicalStep(home, step)
    ensures Inverse(After(reg, usePath, step)) && ClaimsTrue(home, After(reg, usePath, step))
    ensures !Refuses(reg, usePath, step)
  {
    var r := step.reader;
    if step.Vanished? {
      ForgetKeepsInverse(reg, r);
    } else {
      var probed := ProbedFacts(reg, usePath, step);
      ProbeFindsHomeOrNothing(home, reg, usePath, step);
      AdoptKeepsInverse(reg, r, probed);
      AdoptKeepsClaimsTrue(home, reg, r, probed);
    }
  }

  /** Over every run of a wired machine the registry only ever holds true ports and never refuses one. */
  lemma {:induction false} EveryClaimIsTrue(home: map<string, string>, reg: Registry, usePath: bool, steps: seq<SessionStep>)
    requires Wiring(home) && ClaimsTrue(home, reg) && Inverse(reg)
    requires forall s :: s in steps ==> PhysicalStep(home, s)
    ensures ClaimsTrue(home, AfterAll(reg, usePath, steps)) && Inverse(AfterAll(reg, usePath, steps))
    ensures !RefusesIn(reg, usePath, steps)
    decreases |steps|
  {
    if steps == [] {
    } else {
      StepKeepsClaimsTrue(home, reg, usePath, steps[0]);
      EveryClaimIsTrue(home, After(reg, usePath, steps[0]), usePath, steps[1..]);
    }
  }

  // ---------------------------------------------------------------------------
  // An identity never flips

  lemma StepKeepsUnit(reg: Registry, usePath: bool, step: SessionStep, reader: string)
    requires Inverse(reg) && Known(UnitOf(Cached(reg, reader)))
    requires step.reader == reader ==> step.Presented?
    ensures UnitOf(Cached(After(reg, usePath, step), reader)) == UnitOf(Cached(reg, reader))
    ensures Inverse(After(reg, usePath, step))
    ensures step.reader == reader ==> UnitOf(Reported(reg, usePath, step)) == UnitOf(Cached(reg, reader))
  {
    if step.Vanished? {
      ForgetKeepsInverse(reg, step.reader);
    } else {
      AdoptKeepsInverse(reg, step.reader, ProbedFacts(reg, usePath, step));
      OwnClaim(reg, reader);
    }
  }

  /**
   Once a reader carries a serial or a port, every later presentation of it in the
   session reports the same unit, failed connects included, until it disappears.
   */
  lemma {:induction false} UnitNeverFlips(reg: Registry, usePath: bool, steps: seq<SessionStep>, last: SessionStep)
    requires Inverse(reg) && last.Presented? && Known(UnitOf(Cached(reg, last.reader)))
    requires forall s :: s in steps && s.reader == last.reader ==> s.Presented?
    ensures UnitOf(Reported(AfterAll(reg, usePath, steps), usePath, last)) == UnitOf(Cached(reg, last.reader))
    decreases |steps|
  {
    if steps == [] {
      StepKeepsUnit(reg, usePath, last, last.reader);
    } else {
      assert steps[0] in steps;
      StepKeepsUnit(reg, usePath, steps[0], last.reader);
      UnitNeverFlips(After(reg, usePath, steps[0]), usePath, steps[1..], last);
    }
  }

  // ---------------------------------------------------------------------------
  // One tier per reader

  ghost predicate OneTier(reg: Registry) {
    forall r :: r in reg.facts ==> reg.facts[r].serial == "" || reg.facts[r].port == ""
  }

  /** Pins come first: the inventory visits a reader once, before anything is known of it. */
  ghost predicate PinsUnknown(reg: Registry, usePath: bool, steps: seq<SessionStep>)
    decreases |steps|
  {
    steps == [] ||
    ((steps[0].Pinned? ==> steps[0].reader !in reg.facts) && PinsUnknown(After(reg, usePath, steps[0]), usePath, steps[1..]))
  }

  /** A pin breaks the tiers exactly when it finds a port for a reader already known by its serial. */
  lemma PinKeepsOneTierIff(reg: Registry, usePath: bool, step: SessionStep)
    requires Inverse(reg) && OneTier(reg) && step.Pinned?
    ensures OneTier(After(reg, usePath, step)) <==>
      (ProbedFacts(reg, usePath, step).port == "" || Cached(reg, step.reader).serial == "")
  {
    if ProbedFacts(reg, usePath, step).port != "" {
      var ev := step.ev;
      ScannedPortIsAdopted(reg, step.reader, ev.devpaths, ev.candidates, None, None, ProbedFacts(reg, usePath, step));
      assert step.reader in After(reg, usePath, step).facts;
    }
  }

  lemma {:induction false} NoReaderHoldsBothTiers(reg: Registry, usePath: bool, steps: seq<SessionStep>)
    requires Inverse(reg) && OneTier(reg) && PinsUnknown(reg, usePath, steps)
    ensures OneTier(AfterAll(reg, usePath, steps))
    decreases |steps|
  {
    if steps == [] {
    } else {
      var step := steps[0];
      match step {
      case Vanished(r) => ForgetKeepsInverse(reg, r);
      case Pinned(r, _) =>
        PinKeepsOneTierIff(reg, usePath, step);
        AdoptKeepsInverse(reg, r, ProbedFacts(reg, usePath, step));
      case Presented(r, _, _, _, _) => AdoptKeepsInverse(reg, r, ProbedFacts(reg, usePath, step));
      }
      NoReaderHoldsBothTiers(After(reg, usePath, step), usePath, steps[1..]);
    }
  }
}
