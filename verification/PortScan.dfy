/**
 How a probe singles out the USB port of a reader: by its channel id, by a unique
 matching device, by USB traffic, or by elimination (readerid.go).
 */
module PortScan {
  import opened Common
  import opened UnitRegistry

  type Snapshot = Option<map<string, u32>>

  const MIN_DELTA := 2
  const MARGIN := 2

  // ---------------------------------------------------------------------------
  // Slot qualified port identities

  predicate IsSpace(c: char) {
    || '\t' <= c <= '\r' || c in [' ', '\U{85}', '\U{A0}', '\U{1680}', '\U{2028}', '\U{2029}', '\U{202F}',
                                 '\U{205F}', '\U{3000}']
    || '\U{2000}' <= c <= '\U{200A}'
  }

  function WordLength(s: string): (n: nat)
    ensures n <= |s|
    ensures s != "" && !IsSpace(s[0]) ==> n > 0
  {
    if s == "" || IsSpace(s[0]) then 0 else 1 + WordLength(s[1..])
  }

  function Fields(s: string): seq<string>
    decreases |s|
  {
    if s == "" then []
    else if IsSpace(s[0]) then Fields(s[1..])
    else var n := WordLength(s); [s[..n]] + Fields(s[n..])
  }

  predicate IsHexGroup(s: string) {
    |s| == 2 && forall c :: c in s ==> '0' <= c <= '9' || 'a' <= c <= 'f' || 'A' <= c <= 'F'
  }

  function Lower(c: char): char {
    if 'A' <= c <= 'Z' then (c as int + 32) as char else c
  }

  /** The slot of a hotplug reader name beyond its first slot, lower cased; empty otherwise. */
  function ExtraSlot(reader: string): string {
    var fields := Fields(reader);
    if |fields| < 2 then ""
    else
      var slot, digit := fields[|fields| - 1], fields[|fields| - 2];
      if !IsHexGroup(slot) || !IsHexGroup(digit) || slot == "00" then ""
      else [Lower(slot[0]), Lower(slot[1])]
  }

  function PortIdentity(reader: string, devpath: string): string {
    if ExtraSlot(reader) == "" then devpath else devpath + "#" + ExtraSlot(reader)
  }

  /** Two readers get one port identity exactly when they are the same slot of one device. */
  lemma PortIdentityTellsSlotsApart(r1: string, d1: string, r2: string, d2: string)
    requires '#' !in d1 && '#' !in d2
    ensures PortIdentity(r1, d1) == PortIdentity(r2, d2) <==> d1 == d2 && ExtraSlot(r1) == ExtraSlot(r2)
  {
    var p1, p2 := PortIdentity(r1, d1), PortIdentity(r2, d2);
    assert ExtraSlot(r1) != "" ==> p1[|d1|] == '#';
    assert ExtraSlot(r2) != "" ==> p2[|d2|] == '#';
    if p1 == p2 && ExtraSlot(r1) != "" && ExtraSlot(r2) != "" {
      assert |d1| == |d2|;
      assert d1 == p1[..|d1|] && d2 == p2[..|d2|];
      assert ExtraSlot(r1) == p1[|d1| + 1..] && ExtraSlot(r2) == p2[|d2| + 1..];
    }
  }

  // ---------------------------------------------------------------------------
  // The traffic winner

  function Delta(before: map<string, u32>, after: map<string, u32>, c: string): int
    requires c in before
  {
    (if c in after then after[c] as int else 0) - before[c] as int
  }

  /** The k-th candidate moved, and outran every other device of the first snapshot by the margin. */
  ghost predicate Decisive(before: map<string, u32>, after: map<string, u32>, candidates: seq<string>, k: int) {
    && 0 <= k < |candidates|
    && candidates[k] != "" && candidates[k] in before
    && Delta(before, after, candidates[k]) >= MIN_DELTA
    && forall j :: 0 <= j < |candidates| && j != k && candidates[j] in before ==>
         Delta(before, after, candidates[k]) >= Delta(before, after, candidates[j]) + MARGIN
  }

  ghost function Winner(before: Snapshot, after: Snapshot, candidates: seq<string>): Option<string> {
    if before.Some? && after.Some? && exists k :: Decisive(before.value, after.value, candidates, k) then
      var k :| Decisive(before.value, after.value, candidates, k);
      Some(candidates[k])
    else None
  }

  /** Only one position can be decisive, so the answer is a matter of the devices alone. */
  lemma DecisiveIsUnique(b: map<string, u32>, a: map<string, u32>, candidates: seq<string>, i: int, j: int)
    requires Decisive(b, a, candidates, i) && Decisive(b, a, candidates, j)
    ensures i == j
  {
  }

  /**
   Among distinct devices a winner is the one of the first snapshot that moved by at least 2
   between the snapshots and by at least 2 more than every other device of the first one; a
   device missing from the second snapshot counts as moved back to zero.
   */
  lemma WinnerIff(b: map<string, u32>, a: map<string, u32>, candidates: seq<string>, c: string)
    requires forall i, j :: 0 <= i < j < |candidates| ==> candidates[i] != candidates[j]
    requires c in candidates && c != ""
    ensures Winner(Some(b), Some(a), candidates) == Some(c)
       <==> c in b
            && (var moved: int := (if c in a then a[c] as int else 0) - b[c] as int;
                moved >= 2 &&
                forall d :: d in candidates && d != c && d in b ==>
                  moved >= (if d in a then a[d] as int else 0) - b[d] as int + 2)
  {
    var k :| 0 <= k < |candidates| && candidates[k] == c;
    if c in b && Delta(b, a, c) >= 2
       && forall d :: d in candidates && d != c && d in b ==> Delta(b, a, c) >= Delta(b, a, d) + 2 {
      assert Decisive(b, a, candidates, k);
    }
    forall i | Decisive(b, a, candidates, i)
      ensures forall d :: d in candidates && d != candidates[i] && d in b ==>
        Delta(b, a, candidates[i]) >= Delta(b, a, d) + 2
    {
      forall d | d in candidates && d != candidates[i] && d in b
        ensures Delta(b, a, candidates[i]) >= Delta(b, a, d) + 2
      {
        var j :| 0 <= j < |candidates| && candidates[j] == d;
      }
    }
  }

  lemma WinnerIgnoresOrder(before: Snapshot, after: Snapshot, c1: seq<string>, c2: seq<string>)
    requires multiset(c1) == multiset(c2)
    requires forall i, j :: 0 <= i < j < |c1| ==> c1[i] != c1[j]
    ensures Winner(before, after, c1) == Winner(before, after, c2)
  {
    if before.Some? && after.Some? {
      MirrorDecisive(before.value, after.value, c1, c2);
      DistinctByMultiset(c1, c2);
      MirrorDecisive(before.value, after.value, c2, c1);
    }
  }

  lemma DistinctByMultiset(c1: seq<string>, c2: seq<string>)
    requires multiset(c1) == multiset(c2)
    requires forall i, j :: 0 <= i < j < |c1| ==> c1[i] != c1[j]
    ensures forall i, j :: 0 <= i < j < |c2| ==> c2[i] != c2[j]
  {
    forall i, j | 0 <= i < j < |c2|
      ensures c2[i] != c2[j]
    {
      if c2[i] == c2[j] {
        assert c2 == c2[..i] + [c2[i]] + c2[i + 1..j] + [c2[j]] + c2[j + 1..];
        assert multiset(c2)[c2[i]] >= 2;
        OccursOnce(c1, c2[i]);
      }
    }
  }

  lemma {:induction false} OccursOnce(c: seq<string>, x: string)
    requires forall i, j :: 0 <= i < j < |c| ==> c[i] != c[j]
    ensures multiset(c)[x] <= 1
  {
    if c == [] {
    } else {
      var last := |c| - 1;
      OccursOnce(c[..last], x);
      assert c == c[..last] + [c[last]];
      assert multiset(c) == multiset(c[..last]) + multiset{c[last]};
      if c[last] == x {
        assert x !in c[..last];
        assert x !in multiset(c[..last]);
      }
    }
  }

  lemma MirrorDecisive(b: map<string, u32>, a: map<string, u32>, c1: seq<string>, c2: seq<string>)
    requires multiset(c1) == multiset(c2)
    requires forall i, j :: 0 <= i < j < |c1| ==> c1[i] != c1[j]
    ensures forall k :: Decisive(b, a, c1, k) ==> exists k' :: Decisive(b, a, c2, k') && c2[k'] == c1[k]
  {
    DistinctByMultiset(c1, c2);
    forall k | Decisive(b, a, c1, k)
      ensures exists k' :: Decisive(b, a, c2, k') && c2[k'] == c1[k]
    {
      assert c1[k] in multiset(c2);
      var k' :| 0 <= k' < |c2| && c2[k'] == c1[k];
      forall j | 0 <= j < |c2| && j != k' && c2[j] in b
        ensures Delta(b, a, c2[k']) >= Delta(b, a, c2[j]) + MARGIN
      {
        assert c2[j] in multiset(c1);
        var j' :| 0 <= j' < |c1| && c1[j'] == c2[j];
      }
      assert Decisive(b, a, c2, k');
    }
  }

  method UsbUrbWinner(before: Snapshot, after: Snapshot, candidates: seq<string>) returns (name: string, ok: bool)
    ensures ok <==> before.Some? && after.Some? && exists k :: Decisive(before.value, after.value, candidates, k)
    ensures ok ==> Winner(before, after, candidates) == Some(name)
    ensures !ok ==> Winner(before, after, candidates) == None
  {
    if before.None? || after.None? {
      return "", false;
    }
    var b, a := before.value, after.value;
    var winner, winnerDelta, runnerUp := "", 0, 0;
    ghost var at, second := -1, -1;
    for i := 0 to |candidates|
      invariant 0 <= runnerUp <= winnerDelta
      invariant if at < 0 then at == -1 && winner == "" && winnerDelta == 0
                else at < i && winner == candidates[at] && winner in b && Delta(b, a, winner) == winnerDelta > 0
      invariant second == -1 ==> runnerUp == 0
      invariant second >= 0 ==> second < i && second != at && candidates[second] in b
                                && Delta(b, a, candidates[second]) == runnerUp
      invariant -1 <= second
      invariant forall j :: 0 <= j < i && j != at && candidates[j] in b ==> Delta(b, a, candidates[j]) <= runnerUp
    {
      var candidate := candidates[i];
      if candidate !in b {
        continue;
      }
      var delta := (if candidate in a then a[candidate] as int else 0) - b[candidate] as int;
      if delta > winnerDelta {
        runnerUp := winnerDelta;
        winner, winnerDelta := candidate, delta;
        at, second := i, at;
      } else if delta > runnerUp {
        runnerUp := delta;
        second := i;
      }
    }
    if winner == "" || winnerDelta < MIN_DELTA || winnerDelta - runnerUp < MARGIN {
      forall k
        ensures !Decisive(b, a, candidates, k)
      {
        if 0 <= k < |candidates| && k != at && candidates[k] in b {
          assert Delta(b, a, candidates[k]) <= runnerUp;
        }
      }
      return "", false;
    }
    assert Decisive(b, a, candidates, at);
    forall k | Decisive(b, a, candidates, k) ensures k == at {
      DecisiveIsUnique(b, a, candidates, k, at);
    }
    return winner, true;
  }

  // ---------------------------------------------------------------------------
  // The scan

  /** The qualified port of a device, empty when it carries no device path. */
  function Resolve(reader: string, devpaths: map<string, string>, device: string): string {
    if device in devpaths && devpaths[device] != "" then PortIdentity(reader, devpaths[device]) else ""
  }

  /** The ports of the candidates no other reader owns, in candidate order. */
  function FreePorts(reader: string, devpaths: map<string, string>, candidates: seq<string>,
                     claims: map<string, string>): seq<string>
  {
    if candidates == [] then []
    else
      var n := |candidates| - 1;
      var rest, port := FreePorts(reader, devpaths, candidates[..n], claims), Resolve(reader, devpaths, candidates[n]);
      if OwnedByOther(claims, port, reader) then rest else rest + [port]
  }

  lemma {:induction false} FreePortsAreUnowned(reader: string, devpaths: map<string, string>, candidates: seq<string>,
                                               claims: map<string, string>, p: string)
    ensures p in FreePorts(reader, devpaths, candidates, claims) <==>
      !OwnedByOther(claims, p, reader) && exists c :: c in candidates && Resolve(reader, devpaths, c) == p
  {
    if candidates == [] {
    } else {
      var n := |candidates| - 1;
      FreePortsAreUnowned(reader, devpaths, candidates[..n], claims, p);
      assert candidates == candidates[..n] + [candidates[n]];
    }
  }

  function Unclaimed(reader: string, claims: map<string, string>, port: string): string {
    if OwnedByOther(claims, port, reader) then "" else port
  }

  /**
   The port of the one candidate, of the traffic winner, or of the one candidate left
   over by the claims; empty when nothing singles a free device out.
   */
  ghost function Scan(reader: string, devpaths: map<string, string>, candidates: seq<string>,
                      before: Snapshot, after: Snapshot, claims: map<string, string>): string {
    var winner := Winner(before, after, candidates);
    if |candidates| == 0 then ""
    else if |candidates| == 1 then Unclaimed(reader, claims, Resolve(reader, devpaths, candidates[0]))
    else if winner.Some? then Unclaimed(reader, claims, Resolve(reader, devpaths, winner.value))
    else if exists c :: c in candidates && Resolve(reader, devpaths, c) == "" then ""
    else
      var free := FreePorts(reader, devpaths, candidates, claims);
      if |free| == 1 then free[0] else ""
  }

  predicate OnlyFree(reader: string, devpaths: map<string, string>, candidates: seq<string>, claims: map<string, string>,
                     k: int, port: string) {
    && 0 <= k < |candidates| && Resolve(reader, devpaths, candidates[k]) == port && !(port in claims && claims[port] != reader)
    && forall j :: 0 <= j < |candidates| && j != k ==>
         var other := Resolve(reader, devpaths, candidates[j]); other in claims && claims[other] != reader
  }

  lemma {:induction false} NoneFree(reader: string, devpaths: map<string, string>, candidates: seq<string>,
                                    claims: map<string, string>)
    ensures FreePorts(reader, devpaths, candidates, claims) == [] <==>
      forall c :: c in candidates ==> OwnedByOther(claims, Resolve(reader, devpaths, c), reader)
  {
    if candidates == [] {
    } else {
      var n := |candidates| - 1;
      NoneFree(reader, devpaths, candidates[..n], claims);
      assert candidates == candidates[..n] + [candidates[n]];
    }
  }

  lemma OneMoreFree(reader: string, devpaths: map<string, string>, candidates: seq<string>, claims: map<string, string>,
                    port: string, n: nat)
    requires n + 1 == |candidates|
    ensures var last := Resolve(reader, devpaths, candidates[n]);
            (exists k :: OnlyFree(reader, devpaths, candidates, claims, k, port)) <==>
              if OwnedByOther(claims, last, reader) then exists k :: OnlyFree(reader, devpaths, candidates[..n], claims, k, port)
              else last == port && forall c :: c in candidates[..n] ==> OwnedByOther(claims, Resolve(reader, devpaths, c), reader)
  {
    var last, first := Resolve(reader, devpaths, candidates[n]), candidates[..n];
    if k :| OnlyFree(reader, devpaths, candidates, claims, k, port) {
      if k < n {
        assert OnlyFree(reader, devpaths, first, claims, k, port);
      }
    }
    if OwnedByOther(claims, last, reader) {
      if k :| OnlyFree(reader, devpaths, first, claims, k, port) {
        assert OnlyFree(reader, devpaths, candidates, claims, k, port);
      }
    } else if last == port && forall c :: c in first ==> OwnedByOther(claims, Resolve(reader, devpaths, c), reader) {
      assert forall j :: 0 <= j < n ==> candidates[j] == first[j] && first[j] in first;
      assert OnlyFree(reader, devpaths, candidates, claims, n, port);
    }
  }

  lemma {:induction false} OneFree(reader: string, devpaths: map<string, string>, candidates: seq<string>,
                                   claims: map<string, string>, port: string)
    ensures FreePorts(reader, devpaths, candidates, claims) == [port] <==>
      exists k :: OnlyFree(reader, devpaths, candidates, claims, k, port)
  {
    if candidates == [] {
    } else {
      var n := |candidates| - 1;
      var last, rest := Resolve(reader, devpaths, candidates[n]), FreePorts(reader, devpaths, candidates[..n], claims);
      OneFree(reader, devpaths, candidates[..n], claims, port);
      NoneFree(reader, devpaths, candidates[..n], claims);
      OneMoreFree(reader, devpaths, candidates, claims, port, n);
      assert (rest + [last])[|rest|] == last;
      assert rest + [last] == [port] <==> rest == [] && last == port;
    }
  }

  /**
   Without a traffic winner a port is found if and only if every candidate resolves and it
   is the one of exactly one candidate, all others being owned by other readers.
   */
  lemma EliminationFindsIff(reader: string, devpaths: map<string, string>, candidates: seq<string>,
                            before: Snapshot, after: Snapshot, claims: map<string, string>, port: string)
    requires |candidates| > 1 && Winner(before, after, candidates).None? && port != ""
    ensures Scan(reader, devpaths, candidates, before, after, claims) == port <==>
      && (forall c :: c in candidates ==> Resolve(reader, devpaths, c) != "")
      && exists k :: OnlyFree(reader, devpaths, candidates, claims, k, port)
  {
    OneFree(reader, devpaths, candidates, claims, port);
    var free := FreePorts(reader, devpaths, candidates, claims);
    assert |free| == 1 ==> free == [free[0]];
  }

  /** A single candidate or a traffic winner decides alone: its port, or none when that is unknown or owned by another reader. */
  lemma SingledDeviceDecides(reader: string, devpaths: map<string, string>, candidates: seq<string>,
                             before: Snapshot, after: Snapshot, claims: map<string, string>, device: string)
    requires candidates == [device] || (|candidates| > 1 && Winner(before, after, candidates) == Some(device))
    ensures Scan(reader, devpaths, candidates, before, after, claims)
         == if device !in devpaths || devpaths[device] == "" then ""
            else
              var port := PortIdentity(reader, devpaths[device]);
              if port in claims && claims[port] != reader then "" else port
  {}

  method UsbPortPathByReader(reader: string, devpaths: map<string, string>, candidates: seq<string>,
                             before: Snapshot, after: Snapshot, claims: map<string, string>) returns (port: string)
    ensures port == Scan(reader, devpaths, candidates, before, after, claims)
  {
    if |candidates| == 0 {
      return "";
    }
    if |candidates| == 1 {
      port := Resolve(reader, devpaths, candidates[0]);
      if port == "" || OwnedByOther(claims, port, reader) {
        return "";
      }
      return port;
    }
    var winner, ok := UsbUrbWinner(before, after, candidates);
    if ok {
      port := Resolve(reader, devpaths, winner);
      if port == "" || OwnedByOther(claims, port, reader) {
        return "";
      }
      return port;
    }
    var free, resolved := UnownedCandidates(reader, devpaths, candidates, claims);
    if resolved && |free| == 1 {
      return free[0];
    }
    return "";
  }

  /** The elimination: every candidate must resolve, the unowned ones stay. */
  method UnownedCandidates(reader: string, devpaths: map<string, string>, candidates: seq<string>,
                           claims: map<string, string>) returns (free: seq<string>, resolved: bool)
    ensures resolved <==> forall c :: c in candidates ==> Resolve(reader, devpaths, c) != ""
    ensures resolved ==> free == FreePorts(reader, devpaths, candidates, claims)
  {
    free := [];
    for i := 0 to |candidates|
      invariant free == FreePorts(reader, devpaths, candidates[..i], claims)
      invariant forall j :: 0 <= j < i ==> Resolve(reader, devpaths, candidates[j]) != ""
    {
      var port := Resolve(reader, devpaths, candidates[i]);
      assert candidates[..i + 1][..i] == candidates[..i];
      if port == "" {
        return [], false;
      }
      if !OwnedByOther(claims, port, reader) {
        free := free + [port];
      }
    }
    assert candidates[..|candidates|] == candidates;
    return free, true;
  }

  /** Whatever path resolved it, a scanned port is nobody else's. */
  lemma ScannedPortIsUnowned(reader: string, devpaths: map<string, string>, candidates: seq<string>,
                             before: Snapshot, after: Snapshot, claims: map<string, string>)
    requires "" !in claims
    ensures !OwnedByOther(claims, Scan(reader, devpaths, candidates, before, after, claims), reader)
  {
    var port := Scan(reader, devpaths, candidates, before, after, claims);
    FreePortsAreUnowned(reader, devpaths, candidates, claims, port);
  }

  /** Handed to the registry whose claims it was scanned against, it is adopted unchanged. */
  lemma ScannedPortIsAdopted(reg: Registry, reader: string, devpaths: map<string, string>, candidates: seq<string>,
                             before: Snapshot, after: Snapshot, probed: Facts)
    requires Inverse(reg)
    requires probed.port == Scan(reader, devpaths, candidates, before, after, reg.byPort) != ""
    ensures Merge(reg, reader, probed).port == probed.port
  {
    ScannedPortIsUnowned(reader, devpaths, candidates, before, after, reg.byPort);
    AdoptTakesPortIffUnowned(reg, reader, probed);
  }

  // ---------------------------------------------------------------------------
  // Scanning a physically consistent tree

  /**
   The reader's own device is among the candidates and resolves to its home port, and
   in a completed probe window it was there from the start and moved the most.
   */
  ghost predicate OwnDevice(reader: string, home: string, devpaths: map<string, string>, candidates: seq<string>,
                            before: Snapshot, after: Snapshot, device: string) {
    && device in candidates
    && Resolve(reader, devpaths, device) == home
    && (before.Some? && after.Some? ==>
          && device in before.value
          && forall c :: c in candidates && c in before.value ==>
               Delta(before.value, after.value, c) <= Delta(before.value, after.value, device))
  }

  lemma TrafficFindsOwnDevice(reader: string, home: string, devpaths: map<string, string>, candidates: seq<string>,
                              before: Snapshot, after: Snapshot, device: string)
    requires OwnDevice(reader, home, devpaths, candidates, before, after, device)
    requires Winner(before, after, candidates).Some?
    ensures Winner(before, after, candidates).value == device
  {
    var b, a := before.value, after.value;
    var k :| Decisive(b, a, candidates, k) && candidates[k] == Winner(before, after, candidates).value;
    var j :| 0 <= j < |candidates| && candidates[j] == device;
    assert candidates[k] in candidates;
  }

  /** All three resolving paths find the true port or refuse, provided the claims are true. */
  lemma ScanFindsHomeOrRefuses(reader: string, home: string, devpaths: map<string, string>, candidates: seq<string>,
                               before: Snapshot, after: Snapshot, device: string, claims: map<string, string>)
    requires OwnDevice(reader, home, devpaths, candidates, before, after, device)
    requires !OwnedByOther(claims, home, reader)
    ensures Scan(reader, devpaths, candidates, before, after, claims) in {"", home}
  {
    if |candidates| > 1 {
      if Winner(before, after, candidates).Some? {
        TrafficFindsOwnDevice(reader, home, devpaths, candidates, before, after, device);
      } else {
        FreePortsAreUnowned(reader, devpaths, candidates, claims, home);
      }
    }
  }

  /**
   What it takes to single out the reader's own device: no other candidate, decisive
   traffic, or all candidates resolved and all ports but one owned by others.
   */
  ghost predicate SingledOut(reader: string, devpaths: map<string, string>, candidates: seq<string>,
                             before: Snapshot, after: Snapshot, claims: map<string, string>) {
    || |candidates| == 1
    || (|candidates| > 1 && before.Some? && after.Some? && exists k :: Decisive(before.value, after.value, candidates, k))
    || (|candidates| > 1 && (forall c :: c in candidates ==> Resolve(reader, devpaths, c) != "")
        && |FreePorts(reader, devpaths, candidates, claims)| == 1)
  }

  /** The scan finds the home port exactly when the device is singled out, and nothing otherwise. */
  lemma ScanFindsHomeIff(reader: string, home: string, devpaths: map<string, string>, candidates: seq<string>,
                         before: Snapshot, after: Snapshot, device: string, claims: map<string, string>)
    requires OwnDevice(reader, home, devpaths, candidates, before, after, device)
    requires home != "" && !OwnedByOther(claims, home, reader)
    ensures Scan(reader, devpaths, candidates, before, after, claims)
         == if SingledOut(reader, devpaths, candidates, before, after, claims) then home else ""
  {
    if |candidates| > 1 {
      if Winner(before, after, candidates).Some? {
        TrafficFindsOwnDevice(reader, home, devpaths, candidates, before, after, device);
      } else {
        FreePortsAreUnowned(reader, devpaths, candidates, claims, home);
      }
    }
  }
}
