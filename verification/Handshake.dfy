/**
 The header-less CMD_VERSION conversation: the client's downgrade retry
 (pcsc/ipc.go) against the daemon's negotiation loop (internal/pcscfake).
 */
module Handshake {
  import opened Common

  const MAJOR: u32 := 4
  const PREFERRED_MINOR: u32 := 4
  const OLDEST_MINOR: u32 := 2
  const DUMP_DIALECT_MINOR: u32 := 4
  const SERVICE_STOPPED: u32 := 0x8010001E

  datatype Version = Version(major: u32, minor: u32, rv: u32)

  datatype Failure = UnsupportedMajor(major: u32, minor: u32) | Refused(rv: u32)

  /** One connection of the daemon while it negotiates: every proposal gets one answer. */
  class Daemon {
    const offered: u32
    /** The negotiation loop has ended; commands are served from here on. */
    var agreed: bool
    /** Proposals answered so far. */
    var rounds: nat

    constructor (offered: u32)
      ensures this.offered == offered && !agreed && rounds == 0
    {
      this.offered := offered;
      agreed, rounds := false, 0;
    }

    method Answer(req: Version) returns (resp: Version)
      requires !agreed
      modifies this
      ensures agreed <==> (req.major == MAJOR && req.minor == offered) || (offered == 5 && req.minor == 4)
      ensures resp == Version(MAJOR, offered, if agreed then 0 else SERVICE_STOPPED)
      ensures rounds == old(rounds) + 1
    {
      agreed := (req.major == 4 && req.minor == offered) || (offered == 5 && req.minor == 4);
      rounds := rounds + 1;
      resp := Version(4, offered, if agreed then 0 else SERVICE_STOPPED);
    }

    /** The wait requests of this daemon are answered with a state dump. */
    predicate UsesDumpDialect() {
      offered >= DUMP_DIALECT_MINOR
    }
  }

  /** The client's connection state. */
  class IpcClient {
    var major: u32
    var minor: u32

    constructor ()
      ensures major == 0 && minor == 0
    {
      major, minor := 0, 0;
    }

    /** waitChange picks the wait dialect by the negotiated minor. */
    predicate ExpectsDumpDialect()
      reads this
    {
      minor >= DUMP_DIALECT_MINOR
    }

    /**
     Both sides settle on the offered minor within two rounds exactly when it is
     one the client can still talk to, and then they agree on the wait dialect.
     */
    method Handshake(d: Daemon) returns (failure: Option<Failure>)
      requires !d.agreed && d.rounds == 0
      modifies this, d
      ensures failure.None? <==> d.offered >= 2
      ensures failure.None? <==> d.agreed
      ensures failure.None? ==> major == 4 && minor == d.offered
      ensures failure.None? ==> (ExpectsDumpDialect() <==> d.offered >= 4) && (d.UsesDumpDialect() <==> d.offered >= 4)
      ensures failure.Some? ==> failure.value == Refused(0x8010001E) && major == old(major) && minor == old(minor)
      ensures d.rounds == if d.offered in {4, 5} || d.offered < 2 then 1 else 2
    {
      var proposedMajor, proposedMinor := MAJOR, PREFERRED_MINOR;
      var round := 0;
      while round < 2
        invariant 0 <= round <= 2 && d.rounds == round && !d.agreed
        invariant major == old(major) && minor == old(minor) && proposedMajor == MAJOR
        invariant round == 0 ==> proposedMinor == PREFERRED_MINOR
        invariant round > 0 ==> proposedMinor == d.offered >= OLDEST_MINOR && d.offered !in {4, 5}
        invariant round < 2
        decreases 2 - round
      {
        var resp := d.Answer(Version(proposedMajor, proposedMinor, 0));
        if resp.rv == 0 {
          if resp.major != MAJOR {
            return Some(UnsupportedMajor(resp.major, resp.minor));
          }
          major, minor := resp.major, resp.minor;
          return None;
        }
        if resp.rv == SERVICE_STOPPED && resp.major == MAJOR && resp.minor >= OLDEST_MINOR {
          proposedMajor, proposedMinor := resp.major, resp.minor;
          round := round + 1;
          continue;
        }
        return Some(Refused(resp.rv));
      }
      return Some(Refused(SERVICE_STOPPED));
    }
  }
}
