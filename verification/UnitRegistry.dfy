/**
 The session registry of per-unit reader identities (readerid.go): which reader owns
 which USB port, and which serial or port every reader carries.
 */
module UnitRegistry {
  import opened Common

  /** What one probe gathers; the empty string and the empty UID mean "not known". */
  datatype Facts = Facts(serial: string, port: string, uid: seq<byte>, protocol: u32)

  const NO_FACTS := Facts("", "", [], 0)

  datatype Registry = Registry(facts: map<string, Facts>, byPort: map<string, string>)

  const EMPTY := Registry(map[], map[])

  function Cached(reg: Registry, reader: string): Facts {
    if reader in reg.facts then reg.facts[reader] else NO_FACTS
  }

  predicate OwnedByOther(claims: map<string, string>, port: string, reader: string) {
    port in claims && claims[port] != reader
  }

  /** The claims are exactly the inverse of the ports in the facts. */
  ghost predicate Inverse(reg: Registry) {
    && (forall r :: r in reg.facts && reg.facts[r].port != "" ==>
          reg.facts[r].port in reg.byPort && reg.byPort[reg.facts[r].port] == r)
    && (forall p :: p in reg.byPort ==>
          p != "" && reg.byPort[p] in reg.facts && reg.facts[reg.byPort[p]].port == p)
  }

  /** Fresh facts win, failures keep what is remembered, a port of another reader is refused. */
  function Merge(reg: Registry, reader: string, probed: Facts): Facts {
    var cached := Cached(reg, reader);
    probed.(serial := if probed.serial != "" then probed.serial else cached.serial,
           port := if probed.port != "" && !OwnedByOther(reg.byPort, probed.port, reader) then probed.port
                   else cached.port)
  }

  /** The claims of every reader but this one. */
  function ClaimsOfOthers(byPort: map<string, string>, reader: string): map<string, string> {
    map p | p in byPort && byPort[p] != reader :: byPort[p]
  }

  function AdoptSpec(reg: Registry, reader: string, probed: Facts): Registry {
    var merged, others := Merge(reg, reader, probed), ClaimsOfOthers(reg.byPort, reader);
    Registry(reg.facts[reader := merged],
             if merged.port != "" then others[merged.port := reader] else others)
  }

  function ForgetSpec(reg: Registry, reader: string): Registry {
    Registry(reg.facts - {reader}, ClaimsOfOthers(reg.byPort, reader))
  }

  lemma AdoptKeepsInverse(reg: Registry, reader: string, probed: Facts)
    requires Inverse(reg)
    ensures Inverse(AdoptSpec(reg, reader, probed))
  {
    var merged, after := Merge(reg, reader, probed), AdoptSpec(reg, reader, probed);
    assert merged.port != "" ==> !OwnedByOther(reg.byPort, merged.port, reader);
    forall r | r in after.facts && after.facts[r].port != ""
      ensures after.facts[r].port in after.byPort && after.byPort[after.facts[r].port] == r
    {
      if r != reader {
        assert reg.byPort[reg.facts[r].port] == r;
      }
    }
  }

  lemma ForgetKeepsInverse(reg: Registry, reader: string)
    requires Inverse(reg)
    ensures Inverse(ForgetSpec(reg, reader))
  {
  }

  /** Two readers never hold one port. */
  lemma PortsAreExclusive(reg: Registry, r1: string, r2: string)
    requires Inverse(reg) && r1 != r2
    ensures Cached(reg, r1).port != "" ==> Cached(reg, r1).port != Cached(reg, r2).port
  {
    assert r2 in reg.facts && reg.facts[r2].port != "" ==> reg.byPort[reg.facts[r2].port] == r2;
  }

  /** An unowned probed port is always adopted unchanged, an owned one never. */
  lemma AdoptTakesPortIffUnowned(reg: Registry, reader: string, probed: Facts)
    requires Inverse(reg) && probed.port != ""
    ensures Merge(reg, reader, probed).port == probed.port <==> !OwnedByOther(reg.byPort, probed.port, reader)
  {
    if reader in reg.facts && reg.facts[reader].port == probed.port {
      assert reg.byPort[probed.port] == reader;
    }
  }

  /** A merge carries the card of the probe, and the registry holds it from then on. */
  lemma AdoptHoldsLatestCard(reg: Registry, reader: string, probed: Facts)
    ensures Merge(reg, reader, probed).uid == probed.uid && Merge(reg, reader, probed).protocol == probed.protocol
    ensures Cached(AdoptSpec(reg, reader, probed), reader) == Merge(reg, reader, probed)
  {}

  /**
   Told in facts alone: a probed serial wins and an unknown one keeps the remembered, a
   probed port wins unless another reader holds it, and other readers keep their facts.
   */
  lemma FreshFactsWin(reg: Registry, reader: string, probed: Facts)
    requires Inverse(reg)
    ensures var held, was := Cached(AdoptSpec(reg, reader, probed), reader), Cached(reg, reader);
            && held.serial == (if probed.serial != "" then probed.serial else was.serial)
            && held.port == (if probed.port != "" && forall r :: r in reg.facts && r != reader ==> reg.facts[r].port != probed.port
                             then probed.port else was.port)
    ensures forall r :: r != reader ==> Cached(AdoptSpec(reg, reader, probed), r) == Cached(reg, r)
  {
    if probed.port in reg.byPort {
      var owner := reg.byPort[probed.port];
      assert owner in reg.facts && reg.facts[owner].port == probed.port;
    }
    assert OwnedByOther(reg.byPort, probed.port, reader) <==>
      probed.port != "" && exists r :: r in reg.facts && r != reader && reg.facts[r].port == probed.port;
  }

  datatype Op = Adopt(reader: string, probed: Facts) | Forget(reader: string)

  function Replay(reg: Registry, ops: seq<Op>): Registry
    decreases |ops|
  {
    if ops == [] then reg
    else
      var next := match ops[0]
        case Adopt(r, f) => AdoptSpec(reg, r, f)
        case Forget(r) => ForgetSpec(reg, r);
      Replay(next, ops[1..])
  }

  /** However adopts and forgets interleave, no two readers ever share a port. */
  lemma {:induction false} EveryRunKeepsInverse(reg: Registry, ops: seq<Op>)
    requires Inverse(reg)
    ensures Inverse(Replay(reg, ops))
    decreases |ops|
  {
    if ops == [] {
    } else {
      match ops[0]
      case Adopt(r, f) =>
        AdoptKeepsInverse(reg, r, f);
        EveryRunKeepsInverse(AdoptSpec(reg, r, f), ops[1..]);
      case Forget(r) =>
        ForgetKeepsInverse(reg, r);
        EveryRunKeepsInverse(ForgetSpec(reg, r), ops[1..]);
    }
  }

  /** A reader's one claim, if any, is the port in its facts. */
  lemma OwnClaim(reg: Registry, reader: string)
    requires Inverse(reg)
    ensures ClaimsOfOthers(reg.byPort, reader) == reg.byPort - {Cached(reg, reader).port}
    ensures Cached(reg, reader).port != "" ==> Cached(reg, reader).port in reg.byPort
                                               && reg.byPort[Cached(reg, reader).port] == reader
    ensures "" !in reg.byPort
  {
  }

  /** unitRegistry: two maps updated in place. */
  class Units {
    var facts: map<string, Facts>
    var byPort: map<string, string>

    function Value(): Registry
      reads this
    {
      Registry(facts, byPort)
    }

    ghost predicate Valid()
      reads this
    {
      Inverse(Value())
    }

    constructor ()
      ensures Valid() && Value() == EMPTY
    {
      facts, byPort := map[], map[];
    }

    method CachedFacts(reader: string) returns (f: Facts)
      ensures f == Cached(Value(), reader)
    {
      f := if reader in facts then facts[reader] else NO_FACTS;
    }

    method Adopt(reader: string, probed: Facts) returns (adopted: Facts)
      requires Valid()
      modifies this
      ensures Valid()
      ensures Value() == AdoptSpec(old(Value()), reader, probed)
      ensures adopted == Merge(old(Value()), reader, probed)
    {
      OwnClaim(Value(), reader);
      AdoptKeepsInverse(Value(), reader, probed);
      var known := reader in facts;
      var cached := if known then facts[reader] else NO_FACTS;
      adopted := probed;
      if adopted.serial == "" && known && cached.serial != "" {
        adopted := adopted.(serial := cached.serial);
      }
      if adopted.port != "" {
        if adopted.port in byPort && byPort[adopted.port] != reader {
          adopted := adopted.(port := "");
        }
      }
      if adopted.port == "" && known && cached.port != "" {
        if cached.port !in byPort || byPort[cached.port] == reader {
          adopted := adopted.(port := cached.port);
        }
      }
      assert adopted == Merge(old(Value()), reader, probed);
      if known && cached.port != "" && cached.port != adopted.port {
        if cached.port in byPort && byPort[cached.port] == reader {
          byPort := byPort - {cached.port};
        }
      }
      if adopted.port != "" {
        byPort := byPort[adopted.port := reader];
      }
      facts := facts[reader := adopted];
      assert byPort == AdoptSpec(old(Value()), reader, probed).byPort;
    }

    method Forget(reader: string)
      requires Valid()
      modifies this
      ensures Valid()
      ensures Value() == ForgetSpec(old(Value()), reader)
    {
      ForgetKeepsInverse(Value(), reader);
      if reader !in facts {
        assert facts - {reader} == facts;
        return;
      }
      var known := facts[reader];
      if known.port != "" {
        if known.port in byPort && byPort[known.port] == reader {
          byPort := byPort - {known.port};
        }
      }
      facts := facts - {reader};
    }
  }
}
