/** The answer to reset told in the numbers of its bytes, section 8.2 of ISO/IEC 7816-3. */
module AtrBytes {
  import opened Common
  import opened Atr

  /** How many interface bytes the four high bits of T0 or of a TD announce. */
  function Count(d: int): int {
    d / 16 % 2 + d / 32 % 2 + d / 64 % 2 + d / 128 % 2
  }

  /** The last byte of a group, which is its TD when its highest bit was announced. */
  function LastOf(group: seq<byte>): int {
    if group == [] then 0 else group[|group| - 1] as int
  }

  /** Groups of as many bytes as announced, for as long as a TD announces another. */
  predicate Links(d: int, groups: seq<seq<byte>>)
    decreases |groups|
  {
    if d < 16 then groups == []
    else groups != [] && |groups[0]| == Count(d) && Links(if d >= 128 then LastOf(groups[0]) else 0, groups[1..])
  }

  /** The TD bytes of a chain. */
  function Tds(d: int, groups: seq<seq<byte>>): seq<int>
    decreases |groups|
  {
    if groups == [] || d < 128 then [] else [LastOf(groups[0])] + Tds(LastOf(groups[0]), groups[1..])
  }

  /** The low halves of the TD bytes after those already offered, each at its first appearance. */
  function Added(offered: seq<int>, tds: seq<int>): seq<int>
    decreases |tds|
  {
    if tds == [] then offered
    else Added(if tds[0] % 16 in offered then offered else offered + [tds[0] % 16], tds[1..])
  }

  function Numbers(ps: seq<nibble>): (ns: seq<int>)
    ensures |ns| == |ps| && forall i :: 0 <= i < |ps| ==> ns[i] == ps[i] as int
  {
    seq(|ps|, i requires 0 <= i < |ps| => ps[i] as int)
  }

  ghost predicate Structure(a: ATR) {
    && (a.ts == 0x3B || a.ts == 0x3F)
    && Links(a.t0 as int, a.interfaceBytes)
    && |a.historical| == a.t0 as int % 16
    && Numbers(a.protocols) == Added([0], Tds(a.t0 as int, a.interfaceBytes))
    && (a.hasTCK <==> exists td :: td in Tds(a.t0 as int, a.interfaceBytes) && td % 16 != 0)
    && (!a.hasTCK ==> a.tck == 0)
  }

  lemma HalvesOf(b: byte)
    ensures Low(b) as int == b as int % 16
    ensures (High(b) == NONE <==> b as int < 16) && (High(b).td <==> b as int >= 128)
    ensures Announced(High(b), KINDS) == Count(b as int)
  {
    var m, d := High(b), b as int;
    assert Announced(m, 1) == if m.ta then 1 else 0;
    assert Announced(m, 2) == Announced(m, 1) + if m.tb then 1 else 0;
    assert Announced(m, 3) == Announced(m, 2) + if m.tc then 1 else 0;
    assert Announced(m, 4) == Announced(m, 3) + if m.td then 1 else 0;
    assert (m.ta <==> d / 16 % 2 == 1) && (m.tb <==> d / 32 % 2 == 1) && (m.tc <==> d / 64 % 2 == 1);
    assert (m.td <==> d / 128 % 2 == 1);
  }

  lemma NumbersOfAdded(ps: seq<nibble>, b: byte)
    ensures Numbers(WithProtocol(ps, Low(b)))
         == if b as int % 16 in Numbers(ps) then Numbers(ps) else Numbers(ps) + [b as int % 16]
  {
    HalvesOf(b);
    assert Low(b) in ps <==> b as int % 16 in Numbers(ps) by {
      if Low(b) in ps {
        var i :| 0 <= i < |ps| && ps[i] == Low(b);
        assert Numbers(ps)[i] == b as int % 16;
      }
      if b as int % 16 in Numbers(ps) {
        var i :| 0 <= i < |ps| && Numbers(ps)[i] == b as int % 16;
        assert ps[i] == Low(b);
      }
    }
  }

  lemma LinksUnfold(d: int, groups: seq<seq<byte>>)
    requires d >= 16
    ensures Links(d, groups)
       <==> groups != [] && |groups[0]| == Count(d) && Links(if d >= 128 then LastOf(groups[0]) else 0, groups[1..])
  {}

  lemma ChainedUnfold(mask: Mask, groups: seq<seq<byte>>)
    requires mask != NONE
    ensures Chained(mask, groups)
       <==> groups != [] && |groups[0]| == Announced(mask, KINDS) && Chained(NextMask(mask, groups[0]), groups[1..])
    ensures Announced(mask, KINDS) > 0
  {
    AnnouncesSomething(mask);
  }

  lemma NoMore(groups: seq<seq<byte>>)
    ensures Chained(NONE, groups) <==> groups == []
    ensures Links(0, groups) <==> groups == []
  {}

  /** A chain of bytes is a chain of presence bits. */
  lemma {:induction false} ChainedIsLinked(b: byte, groups: seq<seq<byte>>)
    ensures Chained(High(b), groups) <==> Links(b as int, groups)
    decreases |groups|
  {
    HalvesOf(b);
    if b as int >= 16 {
      LinksUnfold(b as int, groups);
      ChainedUnfold(High(b), groups);
      if groups != [] && groups[0] != [] {
        NoMore(groups[1..]);
        ChainedIsLinked(groups[0][|groups[0]| - 1], groups[1..]);
      }
    }
  }

  lemma {:induction false} NothingOffered(groups: seq<seq<byte>>, ps: seq<nibble>)
    requires Chained(NONE, groups)
    ensures Offered(NONE, groups, ps) == ps
  {}

  lemma {:induction false} OfferedAreAdded(b: byte, groups: seq<seq<byte>>, ps: seq<nibble>)
    requires Chained(High(b), groups)
    ensures Numbers(Offered(High(b), groups, ps)) == Added(Numbers(ps), Tds(b as int, groups))
    decreases |groups|
  {
    HalvesOf(b);
    if groups == [] {
    } else {
      AnnouncesSomething(High(b));
      var g := groups[0];
      var td := g[|g| - 1];
      if High(b).td {
        NumbersOfAdded(ps, td);
        OfferedAreAdded(td, groups[1..], WithProtocol(ps, Low(td)));
        assert ([td as int] + Tds(td as int, groups[1..]))[1..] == Tds(td as int, groups[1..]);
      } else {
        NothingOffered(groups[1..], ps);
      }
    }
  }

  lemma {:induction false} AddedGrowsIff(offered: seq<int>, tds: seq<int>)
    requires offered != [] && offered[0] == 0
    ensures |Added(offered, tds)| >= |offered|
    ensures |Added(offered, tds)| > 1 <==> |offered| > 1 || exists td :: td in tds && td % 16 != 0
    decreases |tds|
  {
    if tds == [] {
    } else {
      var x := tds[0] % 16;
      assert offered[0] in offered;
      AddedGrowsIff(if x in offered then offered else offered + [x], tds[1..]);
      assert tds == [tds[0]] + tds[1..];
      if x != 0 {
        assert tds[0] in tds;
        if x in offered {
          var i :| 0 <= i < |offered| && offered[i] == x;
        }
      } else {
        assert forall td :: td in tds[1..] ==> td in tds;
        assert forall td :: td in tds && td % 16 != 0 ==> td in tds[1..];
      }
    }
  }

  lemma WellFormedIffStructure(a: ATR)
    ensures WellFormed(a) <==> Structure(a)
  {
    var d := a.t0 as int;
    HalvesOf(a.t0);
    ChainedIsLinked(a.t0, a.interfaceBytes);
    if Chained(High(a.t0), a.interfaceBytes) {
      var tds := Tds(d, a.interfaceBytes);
      OfferedAreAdded(a.t0, a.interfaceBytes, [0]);
      AddedGrowsIff([0], tds);
      assert Numbers([0]) == [0];
      SameNumbers(a.protocols, Offered(High(a.t0), a.interfaceBytes, [0]));
    }
  }

  lemma SameNumbers(ps: seq<nibble>, qs: seq<nibble>)
    ensures Numbers(ps) == Numbers(qs) <==> ps == qs
  {
    if Numbers(ps) == Numbers(qs) {
      assert |ps| == |qs|;
      forall i | 0 <= i < |ps|
        ensures ps[i] == qs[i]
      {
        assert Numbers(ps)[i] == Numbers(qs)[i];
      }
    }
  }

  /**
   The accepted byte strings and what they are read as: TS 3B or 3F, T0, the groups its high
   half and those of the TD bytes announce, as many historical bytes as its low half says,
   and a check byte exactly if the low half of some TD is not zero.
   */
  lemma ParsedIffStructure(b: seq<byte>, a: ATR)
    ensures Parse(b) == Ok(a)
       <==> Structure(a) && b == [a.ts, a.t0] + Flat(a.interfaceBytes) + a.historical + if a.hasTCK then [a.tck] else []
  {
    ParseIffPrint(b, a);
    WellFormedIffStructure(a);
  }

  /** Bytes after a whole answer are refused and counted. */
  lemma TrailingBytesAreCounted(a: ATR, extra: seq<byte>)
    requires Structure(a) && extra != []
    ensures Parse([a.ts, a.t0] + Flat(a.interfaceBytes) + a.historical + (if a.hasTCK then [a.tck] else []) + extra)
         == Err(Trailing(|extra|))
  {
    WellFormedIffStructure(a);
    var flat, tail := Flat(a.interfaceBytes), if a.hasTCK then [a.tck] else [];
    var b := [a.ts, a.t0] + flat + a.historical + tail + extra;
    assert b[2..2 + |flat|] == flat;
    ChainIsScanned(b, 2, High(a.t0), a.interfaceBytes);
  }

  // ---------------------------------------------------------------------------
  // Answers cut short

  lemma FirstGroupOfCut(b: seq<byte>, pos: nat, g: seq<byte>, later: seq<byte>)
    requires pos + |g| <= |b| < pos + |g| + |later| && b[pos..] == (g + later)[..|b| - pos]
    ensures b[pos..pos + |g|] == g && b[pos + |g|..] == later[..|b| - pos - |g|]
  {
    var rest := b[pos..];
    assert b[pos..pos + |g|] == rest[..|g|] && b[pos + |g|..] == rest[|g|..];
  }

  /** A chain of groups cut anywhere misses its next byte. */
  lemma {:induction false} CutChain(b: seq<byte>, pos: nat, mask: Mask, groups: seq<seq<byte>>)
    requires Chained(mask, groups) && pos <= |b| < pos + |Flat(groups)| && b[pos..] == Flat(groups)[..|b| - pos]
    ensures ScanGroups(b, pos, mask) == Err(MissingInterface(|b|))
    decreases |groups|
  {
    assert groups != [];
    var g := groups[0];
    ChainedUnfold(mask, groups);
    if pos + |g| <= |b| {
      FirstGroupOfCut(b, pos, g, Flat(groups[1..]));
      CutChain(b, pos + |g|, NextMask(mask, g), groups[1..]);
    }
  }

  lemma CutInGroups(b: seq<byte>, a: ATR, flat: seq<byte>)
    requires WellFormed(a) && flat == Flat(a.interfaceBytes) && 2 <= |b| < 2 + |flat|
    requires b[0] == a.ts && b[1] == a.t0 && b[2..] == flat[..|b| - 2]
    ensures Parse(b) == Err(MissingInterface(|b|))
  {
    CutChain(b, 2, High(a.t0), a.interfaceBytes);
  }

  lemma CutAfterGroups(b: seq<byte>, a: ATR, flat: seq<byte>)
    requires WellFormed(a) && flat == Flat(a.interfaceBytes) && 2 + |flat| <= |b|
    requires b[0] == a.ts && b[1] == a.t0 && b[2..2 + |flat|] == flat
    requires |b| < 2 + |flat| + |a.historical| + if a.hasTCK then 1 else 0
    ensures Parse(b) == Err(if |b| < 2 + |flat| + |a.historical| then MissingHistorical(|a.historical|, |b| - 2 - |flat|)
                            else MissingTCK)
  {
    ChainIsScanned(b, 2, High(a.t0), a.interfaceBytes);
  }

  /**
   Every proper beginning of an accepted answer is refused, and the error tells where it was
   cut: no accepted answer is the beginning of another.
   */
  lemma CutAnswerIsRefused(a: ATR, n: nat)
    requires Structure(a)
    requires n < |[a.ts, a.t0] + Flat(a.interfaceBytes) + a.historical + if a.hasTCK then [a.tck] else []|
    ensures var flat := |Flat(a.interfaceBytes)|;
            Parse(([a.ts, a.t0] + Flat(a.interfaceBytes) + a.historical + if a.hasTCK then [a.tck] else [])[..n])
            == Err(if n < 2 then TooShort(n)
                   else if n < 2 + flat then MissingInterface(n)
                   else if n < 2 + flat + |a.historical| then MissingHistorical(|a.historical|, n - 2 - flat)
                   else MissingTCK)
  {
    WellFormedIffStructure(a);
    var flat, tail := Flat(a.interfaceBytes), if a.hasTCK then [a.tck] else [];
    var b := ([a.ts, a.t0] + flat + a.historical + tail)[..n];
    if 2 <= n < 2 + |flat| {
      assert b[2..] == flat[..n - 2];
      CutInGroups(b, a, flat);
    } else if n >= 2 {
      assert b[2..2 + |flat|] == flat;
      CutAfterGroups(b, a, flat);
    }
  }

  lemma {:induction false} ScanOnlyMisses(b: seq<byte>, pos: nat, mask: Mask)
    requires pos <= |b|
    ensures ScanGroups(b, pos, mask).Err? ==> ScanGroups(b, pos, mask).error == MissingInterface(|b|)
    decreases |b| - pos
  {
    if mask == NONE {
    } else {
      ChainedUnfold(mask, []);
      var end := pos + Announced(mask, KINDS);
      if end <= |b| {
        ScanOnlyMisses(b, end, NextMask(mask, b[pos..end]));
      }
    }
  }

  /** An answer is refused for its first byte exactly if that is neither 3B nor 3F. */
  lemma OtherStartIsRefusedIff(b: seq<byte>)
    ensures Parse(b).Err? && Parse(b).error.BadInitial? <==> |b| >= 2 && b[0] != 0x3B && b[0] != 0x3F
  {
    if |b| >= 2 {
      ScanOnlyMisses(b, 2, High(b[1]));
    }
  }
}
