/** The startup inventory (IdentifyReaders in readers.go): the second user of the unit registry. */
module Inventory {
  import opened Common
  import opened Card
  import opened UnitRegistry
  import opened PortScan
  import opened UnitIdentity
  import opened Probe
  import opened Watch
  import Tags

  datatype ReaderInfo = ReaderInfo(reader: string, unit: Unit, cardPresent: bool, uid: seq<byte>)

  /** Where the inventory stands: card service, registry, lines so far. */
  datatype Survey<S> = Survey(world: World<S>, reg: Registry, infos: seq<ReaderInfo>)

  ghost function StepFor<S>(env: Setting<S>, p: Survey<S>, st: ReaderState): SessionStep {
    if st.present then StepOf(env, p.world, p.reg, st.reader) else Pinned(st.reader, env.evidence(st.reader))
  }

  /** A reader with a card is probed, one without is pinned when the device scan allows it. */
  ghost function Evaluate<S>(env: Setting<S>, p: Survey<S>, st: ReaderState): Survey<S> {
    var step := StepFor(env, p, st);
    var facts := if !st.present && ProbedFacts(p.reg, env.usePath, step).port == "" then NO_FACTS
                 else Reported(p.reg, env.usePath, step);
    Survey(if st.present then WorldAfter(env, p.world, p.reg, st.reader) else p.world,
             After(p.reg, env.usePath, step),
             p.infos + [if st.present then ReaderInfo(st.reader, UnitOf(facts), true, facts.uid)
                        else ReaderInfo(st.reader, Unit("", facts.port), false, [])])
  }

  ghost function Evaluated<S>(env: Setting<S>, world: World<S>, states: seq<ReaderState>): Survey<S> {
    if states == [] then Survey(world, EMPTY, [])
    else Evaluate(env, Evaluated(env, world, states[..|states| - 1]), states[|states| - 1])
  }

  method EvaluateReader<S>(svc: Service<S>, env: Setting<S>, units: Units, st: ReaderState, listed: seq<ReaderInfo>)
    returns (infos: seq<ReaderInfo>)
    requires units.Valid() && env.behaviour == svc.behaviour
    modifies units, svc
    ensures units.Valid()
    ensures Survey(svc.Value(), units.Value(), infos)
         == Evaluate(env, Survey(old(svc.Value()), old(units.Value()), listed), st)
  {
    ghost var reg := units.Value();
    var ev := env.evidence(st.reader);
    var info := ReaderInfo(st.reader, Unit("", ""), st.present, []);
    if st.present {
      var cached := units.CachedFacts(st.reader);
      var facts := ProbeReaderCard(svc, env.usePath, st.reader, ev, units.byPort, cached, reg);
      facts := units.Adopt(st.reader, facts);
      info := info.(unit := Unit(facts.serial, facts.port), uid := facts.uid);
    } else if env.usePath {
      var port := UsbPortPathByReader(st.reader, ev.devpaths, ev.candidates, None, None, units.byPort);
      if port != "" {
        var facts := units.Adopt(st.reader, Facts("", port, [], 0));
        info := info.(unit := Unit("", facts.port));
      }
    }
    infos := listed + [info];
  }

  method IdentifyReaders<S>(svc: Service<S>, env: Setting<S>, states: seq<ReaderState>) returns (infos: seq<ReaderInfo>)
    requires env.behaviour == svc.behaviour
    modifies svc
    ensures svc.Value() == Evaluated(env, old(svc.Value()), states).world
    ensures infos == Evaluated(env, old(svc.Value()), states).infos
  {
    var units := new Units();
    infos := [];
    assert states[..0] == [];
    for i := 0 to |states|
      invariant fresh(units) && units.Valid()
      invariant Survey(svc.Value(), units.Value(), infos) == Evaluated(env, old(svc.Value()), states[..i])
    {
      assert states[..i + 1][..i] == states[..i];
      infos := EvaluateReader(svc, env, units, states[i], infos);
    }
    assert states[..|states|] == states;
  }

  lemma EvaluateAddsOne<S>(env: Setting<S>, p: Survey<S>, st: ReaderState)
    requires Inverse(p.reg) && st.reader !in p.reg.facts
    ensures var q := Evaluate(env, p, st);
            && Inverse(q.reg)
            && (forall r :: r in q.reg.facts ==> r in p.reg.facts || r == st.reader)
            && (forall r :: r != st.reader ==> Cached(q.reg, r) == Cached(p.reg, r))
            && |q.infos| == |p.infos| + 1 && q.infos[..|p.infos|] == p.infos
            && q.infos[|p.infos|].reader == st.reader && q.infos[|p.infos|].cardPresent == st.present
            && q.infos[|p.infos|].unit == UnitOf(Cached(q.reg, st.reader))
            && (q.infos[|p.infos|].unit.serial == "" || q.infos[|p.infos|].unit.port == "")
  {
    AdoptKeepsInverse(p.reg, st.reader, ProbedFacts(p.reg, env.usePath, StepFor(env, p, st)));
  }

  lemma {:induction false} OnlyListedAreKnown<S>(env: Setting<S>, world: World<S>, states: seq<ReaderState>)
    requires Distinct(states)
    ensures var p := Evaluated(env, world, states);
            && Inverse(p.reg) && |p.infos| == |states|
            && forall r :: r in p.reg.facts ==> exists i :: 0 <= i < |states| && states[i].reader == r
  {
    if states == [] {
    } else {
      var n := |states| - 1;
      OnlyListedAreKnown(env, world, states[..n]);
      EvaluateAddsOne(env, Evaluated(env, world, states[..n]), states[n]);
      assert forall i :: 0 <= i < n ==> states[..n][i] == states[i];
    }
  }

  lemma LastReaderAdded<S>(env: Setting<S>, world: World<S>, states: seq<ReaderState>)
    requires Distinct(states) && states != []
    ensures var n := |states| - 1;
            var before, p, last := Evaluated(env, world, states[..n]), Evaluated(env, world, states), states[n].reader;
            && |before.infos| == n && |p.infos| == n + 1 && p.infos[..n] == before.infos
            && p.infos[n].reader == last && p.infos[n].unit == UnitOf(Cached(p.reg, last))
            && p.infos[n].cardPresent == states[n].present
            && (forall r :: r != last ==> Cached(p.reg, r) == Cached(before.reg, r))
  {
    var n := |states| - 1;
    OnlyListedAreKnown(env, world, states[..n]);
    assert forall j :: 0 <= j < n ==> states[..n][j] == states[j];
    EvaluateAddsOne(env, Evaluated(env, world, states[..n]), states[n]);
  }

  /** The lines name the readers in order and carry what the registry holds for them at the end. */
  lemma {:induction false} InfoMatchesRegistry<S>(env: Setting<S>, world: World<S>, states: seq<ReaderState>, i: nat)
    requires Distinct(states) && i < |states|
    ensures |Evaluated(env, world, states).infos| == |states|
    ensures var p := Evaluated(env, world, states);
            && p.infos[i].reader == states[i].reader && p.infos[i].cardPresent == states[i].present
            && p.infos[i].unit == UnitOf(Cached(p.reg, states[i].reader))
  {
    var n := |states| - 1;
    LastReaderAdded(env, world, states);
    if i == n {
    } else {
      InfoMatchesRegistry(env, world, states[..n], i);
      LineOfFirst(Evaluated(env, world, states).infos, Evaluated(env, world, states[..n]).infos, i);
    }
  }

  lemma {:induction false} RegistryIsTrue<S>(home: map<string, string>, env: Setting<S>, world: World<S>, states: seq<ReaderState>)
    requires Wiring(home)
    requires forall st :: st in states ==> Physical(home, st.reader, env.evidence(st.reader))
    ensures Inverse(Evaluated(env, world, states).reg) && ClaimsTrue(home, Evaluated(env, world, states).reg)
  {
    if states == [] {
    } else {
      var n := |states| - 1;
      var before := Evaluated(env, world, states[..n]);
      RegistryIsTrue(home, env, world, states[..n]);
      assert states[n] in states;
      StepKeepsClaimsTrue(home, before.reg, env.usePath, StepFor(env, before, states[n]));
    }
  }

  lemma {:induction false} RegistryHasOneTier<S>(env: Setting<S>, world: World<S>, states: seq<ReaderState>)
    requires Distinct(states)
    ensures OneTier(Evaluated(env, world, states).reg)
  {
    if states == [] {
    } else {
      var n := |states| - 1;
      var before, p := Evaluated(env, world, states[..n]), Evaluated(env, world, states);
      RegistryHasOneTier(env, world, states[..n]);
      OnlyListedAreKnown(env, world, states[..n]);
      assert forall i :: 0 <= i < n ==> states[..n][i] == states[i];
      EvaluateAddsOne(env, before, states[n]);
      forall r | r in p.reg.facts
        ensures p.reg.facts[r].serial == "" || p.reg.facts[r].port == ""
      {
        assert p.reg.facts[r] == Cached(p.reg, r);
      }
    }
  }

  /** Every line carries at most one unit fact, and over a wired machine its port is the reader's own. */
  lemma InventoryIsTrue<S>(home: map<string, string>, env: Setting<S>, world: World<S>, states: seq<ReaderState>, i: nat)
    requires Distinct(states) && Wiring(home) && i < |states|
    requires forall st :: st in states ==> Physical(home, st.reader, env.evidence(st.reader))
    ensures |Evaluated(env, world, states).infos| == |states|
    ensures var unit, r := Evaluated(env, world, states).infos[i].unit, states[i].reader;
            (unit.serial == "" || unit.port == "") && (unit.port != "" ==> r in home && unit.port == home[r])
  {
    InfoMatchesRegistry(env, world, states, i);
    RegistryIsTrue(home, env, world, states);
    RegistryHasOneTier(env, world, states);
  }

  /** No two inventoried readers share a port. */
  lemma InventoryPortsAreExclusive<S>(env: Setting<S>, world: World<S>, states: seq<ReaderState>, i: nat, j: nat)
    requires Distinct(states) && i < j < |states|
    ensures |Evaluated(env, world, states).infos| == |states|
    ensures var infos := Evaluated(env, world, states).infos;
            infos[i].unit.port != "" ==> infos[i].unit.port != infos[j].unit.port
  {
    OnlyListedAreKnown(env, world, states);
    InfoMatchesRegistry(env, world, states, i);
    InfoMatchesRegistry(env, world, states, j);
    PortsAreExclusive(Evaluated(env, world, states).reg, states[i].reader, states[j].reader);
  }

  // ---------------------------------------------------------------------------
  // Does the inventory promise the tag of the insertion events?

  /** The evidence singles out the reader's own device, with the probe's traffic or without. */
  ghost predicate Singled(reader: string, ev: Evidence, traffic: bool, claims: map<string, string>) {
    SingledOut(reader, ev.devpaths, ev.candidates, if traffic then ev.before else None, if traffic then ev.after else None, claims)
  }

  /** The evidence leads a probe to the reader's port. */
  ghost predicate Anchored(usePath: bool, reader: string, ev: Evidence, claims: map<string, string>) {
    usePath && (ev.channelDevpath != "" || Singled(reader, ev, true, claims))
  }

  lemma ScanOfWired(home: map<string, string>, reg: Registry, reader: string, ev: Evidence, traffic: bool)
    requires Wiring(home) && ClaimsTrue(home, reg) && Inverse(reg) && Physical(home, reader, ev)
    ensures Scan(reader, ev.devpaths, ev.candidates, if traffic then ev.before else None,
                 if traffic then ev.after else None, reg.byPort)
         == if Singled(reader, ev, traffic, reg.byPort) then home[reader] else ""
  {
    HomeIsFree(home, reg, reader);
    if ev.candidates != [] {
      var d :| OwnDevice(reader, home[reader], ev.devpaths, ev.candidates, ev.before, ev.after, d);
      ScanFindsHomeIff(reader, home[reader], ev.devpaths, ev.candidates, if traffic then ev.before else None,
                       if traffic then ev.after else None, d, reg.byPort);
    }
  }

  /** Every line carries the UID its own probe read, and none without a card. */
  lemma LineCarriesItsCard<S>(env: Setting<S>, world: World<S>, states: seq<ReaderState>, i: nat)
    requires Distinct(states) && i < |states|
    ensures |Evaluated(env, world, states).infos| == |states|
    ensures var st, before := states[i], Evaluated(env, world, states[..i]);
            var pins := Pins(env.usePath, UnitOf(Cached(before.reg, st.reader)), env.evidence(st.reader));
            Evaluated(env, world, states).infos[i].uid
            == if st.present then CardRead(ProbeCard(env.behaviour, before.world, pins).1) else []
  {
    assert states[..i + 1] == states[..i] + [states[i]];
    LineStays(env, world, states, i);
    EvaluatedEnds(env, world, states[..i], states[i]);
    LastCard(env, Evaluated(env, world, states[..i]), states[i]);
    assert forall j, k :: 0 <= j < k < i ==> states[..i][j] == states[j] && states[..i][k] == states[k];
    OnlyListedAreKnown(env, world, states[..i]);
  }

  lemma LastCard<S>(env: Setting<S>, before: Survey<S>, st: ReaderState)
    ensures var after := Evaluate(env, before, st);
            var pins := Pins(env.usePath, UnitOf(Cached(before.reg, st.reader)), env.evidence(st.reader));
            && |after.infos| == |before.infos| + 1
            && after.infos[|before.infos|].uid
               == if st.present then CardRead(ProbeCard(env.behaviour, before.world, pins).1) else []
  {
    var ev := env.evidence(st.reader);
    var card := ProbeCard(env.behaviour, before.world, Pins(env.usePath, UnitOf(Cached(before.reg, st.reader)), ev)).1;
    if card.None? {
      PresentationCarriesItsCard(before.reg, env.usePath, st.reader, false, ev, [], 0);
    } else {
      PresentationCarriesItsCard(before.reg, env.usePath, st.reader, true, ev, card.value.uid, card.value.protocol);
    }
  }

  /** The unit a wired reader without a known unit reports when its card is presented. */
  function PresentedUnit(home: string, serial: string, anchored: bool): Unit {
    if serial != "" then Unit(serial, "") else if anchored then Unit("", home) else Unit("", "")
  }

  lemma UnitOfPresentation(home: map<string, string>, reg: Registry, usePath: bool, reader: string, ev: Evidence,
                           uid: seq<byte>, protocol: u32)
    requires Wiring(home) && ClaimsTrue(home, reg) && Inverse(reg) && Physical(home, reader, ev)
    requires !Known(UnitOf(Cached(reg, reader)))
    ensures UnitOf(Reported(reg, usePath, Presented(reader, true, ev, uid, protocol)))
         == PresentedUnit(home[reader], ev.serial, Anchored(usePath, reader, ev, reg.byPort))
  {
    ScanOfWired(home, reg, reader, ev, true);
    HomeIsFree(home, reg, reader);
  }

  /** The inventory's connect succeeds: its card side gets to the identity at all. */
  function Connects<S>(env: Setting<S>, world: World<S>): bool {
    OpenWithin(env.behaviour, world, ATTEMPTS).1.Some?
  }

  /** The unit of one line, from the state before it: probed with a card, pinned or left alone without. */
  ghost function LineUnit<S>(home: string, env: Setting<S>, before: Survey<S>, st: ReaderState): Unit {
    var ev := env.evidence(st.reader);
    if st.present then
      if !Connects(env, before.world) then Unit("", "")
      else PresentedUnit(home, ev.serial, Anchored(env.usePath, st.reader, ev, before.reg.byPort))
    else if env.usePath && Singled(st.reader, ev, false, before.reg.byPort) then Unit("", home)
    else Unit("", "")
  }

  lemma EvaluatedLine<S>(home: map<string, string>, env: Setting<S>, before: Survey<S>, st: ReaderState)
    requires Wiring(home) && ClaimsTrue(home, before.reg) && Inverse(before.reg)
    requires Physical(home, st.reader, env.evidence(st.reader)) && st.reader !in before.reg.facts
    ensures var after := Evaluate(env, before, st);
            && |after.infos| == |before.infos| + 1
            && after.infos[|before.infos|].unit == LineUnit(home[st.reader], env, before, st)
  {
    var ev := env.evidence(st.reader);
    if st.present {
      var card := ProbeCard(env.behaviour, before.world, Pins(env.usePath, UnitOf(Cached(before.reg, st.reader)), ev)).1;
      assert card.Some? <==> Connects(env, before.world);
      if card.Some? {
        UnitOfPresentation(home, before.reg, env.usePath, st.reader, ev, card.value.uid, card.value.protocol);
      }
    } else {
      ScanOfWired(home, before.reg, st.reader, ev, false);
      HomeIsFree(home, before.reg, st.reader);
    }
  }

  lemma LineOfFirst<T>(infos: seq<T>, first: seq<T>, i: nat)
    requires i < |first| <= |infos| && infos[..|first|] == first
    ensures infos[i] == first[i]
  {
    assert infos[i] == infos[..|first|][i];
  }

  lemma {:induction false} LineStays<S>(env: Setting<S>, world: World<S>, states: seq<ReaderState>, i: nat)
    requires Distinct(states) && i < |states|
    ensures var p, q := Evaluated(env, world, states), Evaluated(env, world, states[..i + 1]);
            |p.infos| == |states| && |q.infos| == i + 1 && p.infos[i] == q.infos[i]
  {
    var n := |states| - 1;
    LastReaderAdded(env, world, states);
    if i == n {
      assert states[..i + 1] == states;
    } else {
      LineStays(env, world, states[..n], i);
      assert states[..n][..i + 1] == states[..i + 1];
      LineOfFirst(Evaluated(env, world, states).infos, Evaluated(env, world, states[..n]).infos, i);
    }
  }

  lemma EvaluatedEnds<S>(env: Setting<S>, world: World<S>, states: seq<ReaderState>, st: ReaderState)
    ensures Evaluated(env, world, states + [st]) == Evaluate(env, Evaluated(env, world, states), st)
  {
    assert (states + [st])[..|states|] == states;
  }

  lemma LastIsNew<S>(env: Setting<S>, world: World<S>, states: seq<ReaderState>, st: ReaderState)
    requires Distinct(states + [st])
    ensures st.reader !in Evaluated(env, world, states).reg.facts && |Evaluated(env, world, states).infos| == |states|
  {
    assert forall j :: 0 <= j < |states| ==> (states + [st])[j] == states[j];
    assert (states + [st])[|states|] == st;
    OnlyListedAreKnown(env, world, states);
  }

  lemma LastLine<S>(home: map<string, string>, env: Setting<S>, world: World<S>, states: seq<ReaderState>, st: ReaderState)
    requires Distinct(states + [st]) && Wiring(home) && Physical(home, st.reader, env.evidence(st.reader))
    requires forall s :: s in states ==> Physical(home, s.reader, env.evidence(s.reader))
    ensures var p := Evaluated(env, world, states + [st]);
            |p.infos| == |states| + 1
            && p.infos[|states|].unit == LineUnit(home[st.reader], env, Evaluated(env, world, states), st)
  {
    EvaluatedEnds(env, world, states, st);
    LastIsNew(env, world, states, st);
    RegistryIsTrue(home, env, world, states);
    EvaluatedLine(home, env, Evaluated(env, world, states), st);
  }

  /** Every line is the line its reader gets in the state the earlier readers leave. */
  lemma LineOfInventory<S>(home: map<string, string>, env: Setting<S>, world: World<S>, states: seq<ReaderState>, i: nat)
    requires Distinct(states) && Wiring(home) && i < |states| && states[i].reader in home
    requires forall st :: st in states ==> Physical(home, st.reader, env.evidence(st.reader))
    ensures |Evaluated(env, world, states).infos| == |states|
    ensures Evaluated(env, world, states).infos[i].unit
         == LineUnit(home[states[i].reader], env, Evaluated(env, world, states[..i]), states[i])
  {
    assert states[i] in states && states[..i + 1] == states[..i] + [states[i]];
    LineStays(env, world, states, i);
    LastLine(home, env, world, states[..i], states[i]);
  }

  /** Line and insertion agree, split by what the inventory could do with the reader. */
  ghost predicate TagKept<S>(env: Setting<S>, before: Survey<S>, st: ReaderState, later: Evidence, claims: map<string, string>) {
    var ev := env.evidence(st.reader);
    var anchored := Anchored(env.usePath, st.reader, later, claims);
    if st.present && Connects(env, before.world) then
      // probed: the same serial, or no serial either time and a port both times or never
      ev.serial == later.serial
      && (ev.serial == "" ==> (Anchored(env.usePath, st.reader, ev, before.reg.byPort) <==> anchored))
    else
      // pinned or left at model level: no serial later, and a port then exactly if one was pinned
      later.serial == ""
      && (anchored <==> !st.present && env.usePath && Singled(st.reader, ev, false, before.reg.byPort))
  }

  lemma UnitsAgreeIff<S>(home: string, env: Setting<S>, before: Survey<S>, st: ReaderState, later: Evidence, claims: map<string, string>)
    requires home != ""
    ensures LineUnit(home, env, before, st) == PresentedUnit(home, later.serial, Anchored(env.usePath, st.reader, later, claims))
       <==> TagKept(env, before, st, later, claims)
  {}

  /**
   On a wired machine a line of the inventory carries the unit of the reader's first
   insertion in a later session, so the tag is kept, if and only if: for a probed reader,
   the serial is the same and, when there is none, the port is found both times or never;
   for a reader without a usable card connection, the driver serves no serial later, and
   the port is found later exactly when the inventory could pin it.
   */
  lemma InventoryMatchesInsertionIff<S>(home: map<string, string>, env: Setting<S>, world: World<S>, states: seq<ReaderState>,
                                        i: nat, reg: Registry, later: Evidence, uid: seq<byte>, protocol: u32)
    requires Distinct(states) && Wiring(home) && i < |states|
    requires forall st :: st in states ==> Physical(home, st.reader, env.evidence(st.reader))
    requires ClaimsTrue(home, reg) && Inverse(reg) && Physical(home, states[i].reader, later)
    requires !Known(UnitOf(Cached(reg, states[i].reader)))
    ensures |Evaluated(env, world, states).infos| == |states|
    ensures Evaluated(env, world, states).infos[i].unit
         == UnitOf(Reported(reg, env.usePath, Presented(states[i].reader, true, later, uid, protocol)))
       <==> TagKept(env, Evaluated(env, world, states[..i]), states[i], later, reg.byPort)
  {
    LineOfInventory(home, env, world, states, i);
    UnitOfPresentation(home, reg, env.usePath, states[i].reader, later, uid, protocol);
    UnitsAgreeIff(home[states[i].reader], env, Evaluated(env, world, states[..i]), states[i], later, reg.byPort);
  }

  predicate HasOneTier(u: Unit) {
    u.serial == "" || u.port == ""
  }

  function UnitMessage(reader: string, u: Unit, machine: string): string {
    Tags.Message(Tags.Stable(reader), Tags.TierOf(u.serial, u.port), machine)
  }

  lemma SameMessageIffSameUnit(reader: string, u1: Unit, u2: Unit, machine: string)
    requires HasOneTier(u1) && HasOneTier(u2)
    ensures UnitMessage(reader, u1, machine) == UnitMessage(reader, u2, machine) <==> u1 == u2
  {
    Tags.SameModelKeepsUnitsApart(Tags.Stable(reader), Tags.TierOf(u1.serial, u1.port), Tags.TierOf(u2.serial, u2.port), machine);
  }

  /** The same for the tags themselves: the inventory's tag message is the insertion's under exactly that condition. */
  lemma InventoryTagKeptIff<S>(home: map<string, string>, env: Setting<S>, world: World<S>, states: seq<ReaderState>,
                               i: nat, reg: Registry, later: Evidence, uid: seq<byte>, protocol: u32, machine: string)
    requires Distinct(states) && Wiring(home) && i < |states|
    requires forall st :: st in states ==> Physical(home, st.reader, env.evidence(st.reader))
    requires ClaimsTrue(home, reg) && Inverse(reg) && Physical(home, states[i].reader, later)
    requires !Known(UnitOf(Cached(reg, states[i].reader)))
    ensures |Evaluated(env, world, states).infos| == |states|
    ensures UnitMessage(states[i].reader, Evaluated(env, world, states).infos[i].unit, machine)
         == Tags.TagMessage(states[i].reader,
                            Reported(reg, env.usePath, Presented(states[i].reader, true, later, uid, protocol)), machine)
       <==> TagKept(env, Evaluated(env, world, states[..i]), states[i], later, reg.byPort)
  {
    var r := states[i].reader;
    InventoryMatchesInsertionIff(home, env, world, states, i, reg, later, uid, protocol);
    LineOfInventory(home, env, world, states, i);
    UnitOfPresentation(home, reg, env.usePath, r, later, uid, protocol);
    SameMessageIffSameUnit(r, Evaluated(env, world, states).infos[i].unit,
                           UnitOf(Reported(reg, env.usePath, Presented(r, true, later, uid, protocol))), machine);
  }

  /** So the inventory's port is not the insertion's unit for a reader that has both. */
  lemma PinnedReaderWithSerialChangesUnit(reader: string)
    ensures var ev := Evidence("S1", "", map["2-1" := "1"], ["2-1"], None, None);
            && Reported(EMPTY, true, Pinned(reader, ev)).port == PortIdentity(reader, "1")
            && UnitOf(Reported(EMPTY, true, Presented(reader, true, ev, [1, 2, 3, 4], 2))) == Unit("S1", "")
  {
  }
}
