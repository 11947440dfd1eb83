/** probeReaderCard (readerid.go): the card side and the identity side of one presentation. */
module Probe {
  import opened Common
  import opened Card
  import opened UnitRegistry
  import opened PortScan
  import opened UnitIdentity

  const PINNING_EXCHANGES := 2

  /** The device scan is the last resort of a reader with neither serial nor channel id. */
  predicate NeedsScan(usePath: bool, cached: Unit, ev: Evidence) {
    usePath && !Known(cached) && ev.serial == "" && (ev.channelDevpath == "")
  }

  function Pins(usePath: bool, cached: Unit, ev: Evidence): nat {
    if NeedsScan(usePath, cached, ev) then PINNING_EXCHANGES else 0
  }

  /** Two exchanges pin the traffic, for a reader with nothing remembered, no serial and no channel id, and for no other. */
  lemma PinsInFull(usePath: bool, serial: string, port: string, ev: Evidence)
    ensures Pins(usePath, Unit(serial, port), ev)
         == if usePath && serial == "" && port == "" && ev.serial == "" && ev.channelDevpath == "" then 2 else 0
  {}

  /** The presentation step a probe amounts to, given how its card answered. */
  function Presentation(reader: string, ev: Evidence, card: Option<Insisted>): SessionStep {
    if card.None? then Presented(reader, false, ev, [], 0)
    else Presented(reader, true, ev, card.value.uid, card.value.protocol)
  }

  /**
   Whatever the card does, the probe is one ProbeCard on the service and its facts are
   those the identity rules draw from the evidence.
   */
  method ProbeReaderCard<S>(svc: Service<S>, usePath: bool, reader: string, ev: Evidence,
                            claims: map<string, string>, cached: Facts, ghost reg: Registry) returns (facts: Facts)
    requires claims == reg.byPort && cached == Cached(reg, reader)
    modifies svc
    ensures var (w, card) := ProbeCard(svc.behaviour, old(svc.Value()), Pins(usePath, UnitOf(cached), ev));
            && svc.Value() == w && facts == ProbedFacts(reg, usePath, Presentation(reader, ev, card))
            && facts.uid == (if card.None? then [] else card.value.uid)
            && facts.protocol == (if card.None? then 0 else card.value.protocol)
  {
    var identityDone := cached.serial != "" || cached.port != "";
    var card := svc.OpenCard(ATTEMPTS);
    if card.None? {
      return NO_FACTS;
    }
    facts := NO_FACTS;
    if identityDone {
      facts := facts.(serial := cached.serial, port := cached.port);
    } else {
      facts := facts.(serial := ev.serial);
      if facts.serial == "" && usePath {
        if ev.channelDevpath != "" {
          facts := facts.(port := PortIdentity(reader, ev.channelDevpath));
        }
      }
    }
    var r := svc.InsistUID(card.value);
    facts := facts.(uid := r.uid, protocol := r.protocol);
    if usePath && !identityDone && facts.serial == "" && facts.port == "" {
      if r.live.Some? {
        svc.PinTraffic(r.live.value.handle, PINNING_EXCHANGES);
      }
      var port := UsbPortPathByReader(reader, ev.devpaths, ev.candidates, ev.before, ev.after, claims);
      facts := facts.(port := port);
    }
    if r.live.Some? {
      svc.Close(r.live.value.handle, LeaveCard);
    }
  }
}
