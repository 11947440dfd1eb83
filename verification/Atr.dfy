/** The answer to reset of ISO/IEC 7816-3 as parsed by atr.go: parser, printer and checksum. */
module Atr {
  import opened Common

  datatype ATR = ATR(
    ts: byte,
    t0: byte,
    interfaceBytes: seq<seq<byte>>,
    historical: seq<byte>,
    protocols: seq<nibble>,
    hasTCK: bool,
    tck: byte)

  datatype Error =
    | TooShort(length: nat)
    | BadInitial(ts: byte)
    | MissingInterface(at: nat)
    | MissingHistorical(expected: nat, left: nat)
    | MissingTCK
    | Trailing(count: nat)

  const DIRECT: byte := 0x3B
  const INVERSE: byte := 0x3F

  newtype nibble = x: int | 0 <= x < 16

  function Low(b: byte): nibble {
    (b % 16) as nibble
  }

  /** The presence bits of a group: which of TA, TB, TC and TD follow. */
  datatype Mask = Mask(ta: bool, tb: bool, tc: bool, td: bool)

  const NONE := Mask(false, false, false, false)

  /** The high nibble of T0 or of a TD, lowest bit first. */
  function High(b: byte): Mask {
    Mask((b / 16) % 2 == 1, (b / 32) % 2 == 1, (b / 64) % 2 == 1, b >= 128)
  }

  /** Interface bytes a group may have. */
  const KINDS: nat := 4

  predicate Present(mask: Mask, k: nat)
    requires k < KINDS
  {
    if k == 0 then mask.ta else if k == 1 then mask.tb else if k == 2 then mask.tc else mask.td
  }

  // ---------------------------------------------------------------------------
  // Well-formed structures and their bytes

  /** Interface bytes announced by the first n presence bits. */
  function Announced(mask: Mask, n: nat): nat
    requires n <= KINDS
  {
    if n == 0 then 0 else Announced(mask, n - 1) + if Present(mask, n - 1) then 1 else 0
  }

  lemma AnnouncesSomething(mask: Mask)
    requires mask != NONE
    ensures 0 < Announced(mask, KINDS) <= 4
    ensures mask.td ==> Announced(mask, 3) + 1 == Announced(mask, KINDS)
  {
    assert Present(mask, 0) || Present(mask, 1) || Present(mask, 2) || mask.td;
    assert Announced(mask, 1) == if Present(mask, 0) then 1 else 0;
    assert Announced(mask, 2) == Announced(mask, 1) + if Present(mask, 1) then 1 else 0;
    assert Announced(mask, 3) == Announced(mask, 2) + if Present(mask, 2) then 1 else 0;
  }

  /** The presence bits of the next group: the high nibble of this group's TD. */
  function NextMask(mask: Mask, group: seq<byte>): Mask {
    if mask.td && group != [] then High(group[|group| - 1]) else NONE
  }

  /** Groups chained by their TD nibbles, each as long as its presence bits say. */
  predicate Chained(mask: Mask, groups: seq<seq<byte>>)
    decreases |groups|
  {
    if mask == NONE then groups == []
    else groups != [] && |groups[0]| == Announced(mask, KINDS) && Chained(NextMask(mask, groups[0]), groups[1..])
  }

  function WithProtocol(protocols: seq<nibble>, p: nibble): seq<nibble> {
    if p in protocols then protocols else protocols + [p]
  }

  /** The protocols after a group: its TD byte, if any, offers one in its low nibble. */
  function OfferedBy(mask: Mask, group: seq<byte>, protocols: seq<nibble>): seq<nibble> {
    if mask.td && group != [] then WithProtocol(protocols, Low(group[|group| - 1])) else protocols
  }

  /** The protocols the TD bytes offer, in order of first appearance. */
  function Offered(mask: Mask, groups: seq<seq<byte>>, protocols: seq<nibble>): seq<nibble>
    decreases |groups|
  {
    if groups == [] then protocols
    else
      Offered(NextMask(mask, groups[0]), groups[1..], OfferedBy(mask, groups[0], protocols))
  }

  predicate WellFormed(a: ATR) {
    && a.ts in {DIRECT, INVERSE}
    && Chained(High(a.t0), a.interfaceBytes)
    && |a.historical| == Low(a.t0) as int
    && a.protocols == Offered(High(a.t0), a.interfaceBytes, [0])
    && a.hasTCK == (|a.protocols| > 1)
    && (!a.hasTCK ==> a.tck == 0)
  }

  function Flat(groups: seq<seq<byte>>): seq<byte> {
    if groups == [] then [] else groups[0] + Flat(groups[1..])
  }

  function Print(a: ATR): seq<byte> {
    [a.ts, a.t0] + Flat(a.interfaceBytes) + a.historical + if a.hasTCK then [a.tck] else []
  }

  // ---------------------------------------------------------------------------
  // The parser

  datatype Scan = Scan(groups: seq<seq<byte>>, pos: nat)

  /** The interface byte groups from one position on, and the position after them. */
  function ScanGroups(b: seq<byte>, pos: nat, mask: Mask): (r: Result<Scan, Error>)
    requires pos <= |b|
    ensures r.Ok? ==> pos <= r.value.pos <= |b|
    decreases |b| - pos
  {
    if mask == NONE then Ok(Scan([], pos))
    else
      AnnouncesSomething(mask);
      var end := pos + Announced(mask, KINDS);
      if end > |b| then Err(MissingInterface(|b|))
      else Prefixed([b[pos..end]], ScanGroups(b, end, NextMask(mask, b[pos..end])))
  }

  function Prefixed(groups: seq<seq<byte>>, r: Result<Scan, Error>): Result<Scan, Error> {
    match r
    case Ok(s) => Ok(Scan(groups + s.groups, s.pos))
    case Err(e) => Err(e)
  }

  function Finish(b: seq<byte>, groups: seq<seq<byte>>, protocols: seq<nibble>, pos: nat): Result<ATR, Error>
    requires |b| >= 2 && pos <= |b|
  {
    var count := Low(b[1]) as int;
    var end, hasTCK := pos + count, |protocols| > 1;
    if end > |b| then Err(MissingHistorical(count, |b| - pos))
    else if hasTCK && end >= |b| then Err(MissingTCK)
    else
      var last := if hasTCK then end + 1 else end;
      if last != |b| then Err(Trailing(|b| - last))
      else Ok(ATR(b[0], b[1], groups, b[pos..end], protocols, hasTCK, if hasTCK then b[end] else 0))
  }

  function Parse(b: seq<byte>): Result<ATR, Error> {
    if |b| < 2 then Err(TooShort(|b|))
    else if b[0] !in {DIRECT, INVERSE} then Err(BadInitial(b[0]))
    else
      match ScanGroups(b, 2, High(b[1]))
      case Err(e) => Err(e)
      case Ok(s) => Finish(b, s.groups, Offered(High(b[1]), s.groups, [0]), s.pos)
  }

  /** One interface byte group: its bytes, the next mask, and the protocols with the one its TD offers. */
  method ReadGroup(b: seq<byte>, start: nat, mask: Mask, known: seq<nibble>)
    returns (group: seq<byte>, next: Mask, protocols: seq<nibble>, complete: bool)
    requires start <= |b|
    ensures complete <==> start + Announced(mask, KINDS) <= |b|
    ensures complete ==> group == b[start..start + Announced(mask, KINDS)] && next == NextMask(mask, group)
    ensures complete ==> protocols == OfferedBy(mask, group, known)
  {
    group, next, protocols := [], NONE, known;
    var pos := start;
    for k := 0 to KINDS
      invariant pos == start + Announced(mask, k) <= |b|
      invariant group == b[start..pos]
      invariant k < KINDS ==> next == NONE && protocols == known
      invariant k == KINDS ==> next == NextMask(mask, group)
      invariant k == KINDS ==> protocols == OfferedBy(mask, group, known)
    {
      if !Present(mask, k) {
        continue;
      }
      if pos >= |b| {
        AnnouncedGrows(mask, k + 1);
        return group, next, protocols, false;
      }
      var value := b[pos];
      pos := pos + 1;
      if k == 3 {
        protocols := WithProtocol(protocols, Low(value));
        next := High(value);
      }
      group := group + [value];
    }
    complete := true;
  }

  method ParseATR(b: seq<byte>) returns (r: Result<ATR, Error>)
    ensures r == Parse(b)
  {
    if |b| < 2 {
      return Err(TooShort(|b|));
    }
    var ts := b[0];
    if ts != 0x3B && ts != 0x3F {
      return Err(BadInitial(ts));
    }
    var pos, protocols, groups, complete := ReadGroups(b, High(b[1]));
    assert ScanGroups(b, 2, High(b[1])).Ok? ==>
      [] + ScanGroups(b, 2, High(b[1])).value.groups == ScanGroups(b, 2, High(b[1])).value.groups;
    if !complete {
      return Err(MissingInterface(|b|));
    }
    r := ParseTail(b, groups, protocols, pos);
  }

  /** What the group loop ends with: all groups, the position after them and all protocols. */
  datatype Chain = Chain(groups: seq<seq<byte>>, pos: nat, protocols: seq<nibble>)

  /** The end of the group loop, from one of its states. */
  function ChainFrom(b: seq<byte>, pos: nat, mask: Mask, groups: seq<seq<byte>>, protocols: seq<nibble>): Result<Chain, Error>
    requires pos <= |b|
  {
    match ScanGroups(b, pos, mask)
    case Err(e) => Err(e)
    case Ok(s) => Ok(Chain(groups + s.groups, s.pos, Offered(mask, s.groups, protocols)))
  }

  lemma GroupMoves(b: seq<byte>, pos: nat, mask: Mask, groups: seq<seq<byte>>, g: seq<byte>, protocols: seq<nibble>)
    requires mask != NONE && pos + |g| <= |b| && |g| == Announced(mask, KINDS) && g == b[pos..pos + |g|]
    ensures ChainFrom(b, pos, mask, groups, protocols)
         == ChainFrom(b, pos + |g|, NextMask(mask, g), groups + [g], OfferedBy(mask, g, protocols))
  {
    AnnouncesSomething(mask);
    var later := ScanGroups(b, pos + |g|, NextMask(mask, g));
    if later.Ok? {
      var rest := later.value.groups;
      assert groups + ([g] + rest) == groups + [g] + rest;
      assert ([g] + rest)[1..] == rest;
    }
  }

  lemma NoMoreGroups(b: seq<byte>, pos: nat, groups: seq<seq<byte>>, protocols: seq<nibble>)
    requires pos <= |b|
    ensures ChainFrom(b, pos, NONE, groups, protocols) == Ok(Chain(groups, pos, protocols))
  {
    assert groups + [] == groups;
  }

  lemma CutGroup(b: seq<byte>, pos: nat, mask: Mask, groups: seq<seq<byte>>, protocols: seq<nibble>)
    requires pos <= |b| && mask != NONE && pos + Announced(mask, KINDS) > |b|
    ensures ChainFrom(b, pos, mask, groups, protocols) == Err(MissingInterface(|b|))
  {}

  /** The group loop: groups follow each other for as long as a TD announces another. */
  method ReadGroups(b: seq<byte>, first: Mask)
    returns (pos: nat, protocols: seq<nibble>, groups: seq<seq<byte>>, complete: bool)
    requires |b| >= 2
    ensures ChainFrom(b, 2, first, [], [0])
         == if complete then Ok(Chain(groups, pos, protocols)) else Err(MissingInterface(|b|))
  {
    pos, protocols, groups := 2, [0], [];
    var mask := first;
    while mask != NONE
      invariant 2 <= pos <= |b|
      invariant ChainFrom(b, 2, first, [], [0]) == ChainFrom(b, pos, mask, groups, protocols)
      decreases |b| - pos
    {
      AnnouncesSomething(mask);
      var group, next, offered, whole := ReadGroup(b, pos, mask, protocols);
      if !whole {
        CutGroup(b, pos, mask, groups, protocols);
        complete := false;
        return;
      }
      GroupMoves(b, pos, mask, groups, group, protocols);
      groups := groups + [group];
      pos := pos + |group|;
      mask, protocols := next, offered;
    }
    NoMoreGroups(b, pos, groups, protocols);
    complete := true;
  }

  /** Historical bytes and checksum, once the groups are read. */
  method ParseTail(b: seq<byte>, groups: seq<seq<byte>>, protocols: seq<nibble>, start: nat) returns (r: Result<ATR, Error>)
    requires |b| >= 2 && start <= |b|
    ensures r == Finish(b, groups, protocols, start)
  {
    var pos, historicalCount := start, Low(b[1]) as int;
    if pos + historicalCount > |b| {
      return Err(MissingHistorical(historicalCount, |b| - pos));
    }
    var historical := b[pos..pos + historicalCount];
    pos := pos + historicalCount;
    var tck: byte := 0;
    var hasTCK := |protocols| > 1;
    if hasTCK {
      if pos >= |b| {
        return Err(MissingTCK);
      }
      tck := b[pos];
      pos := pos + 1;
    }
    if pos != |b| {
      return Err(Trailing(|b| - pos));
    }
    return Ok(ATR(b[0], b[1], groups, historical, protocols, hasTCK, tck));
  }

  lemma AnnouncedGrows(mask: Mask, k: nat)
    requires k <= KINDS
    ensures Announced(mask, k) <= Announced(mask, KINDS)
    decreases KINDS - k
  {
    if k < KINDS {
      AnnouncedGrows(mask, k + 1);
    }
  }

  // ---------------------------------------------------------------------------
  // Parser and printer undo each other

  lemma {:induction false} ScanFindsChain(b: seq<byte>, pos: nat, mask: Mask)
    requires pos <= |b| && ScanGroups(b, pos, mask).Ok?
    ensures var s := ScanGroups(b, pos, mask).value;
            Chained(mask, s.groups) && Flat(s.groups) == b[pos..s.pos]
    decreases |b| - pos
  {
    if mask == NONE {
    } else {
      AnnouncesSomething(mask);
      var end := pos + Announced(mask, KINDS);
      var g := b[pos..end];
      ScanFindsChain(b, end, NextMask(mask, g));
      var s, rest := ScanGroups(b, pos, mask).value, ScanGroups(b, end, NextMask(mask, g)).value;
      assert s.groups[1..] == rest.groups;
      assert b[pos..s.pos] == g + b[end..s.pos];
    }
  }

  lemma SplitSlice(b: seq<byte>, pos: nat, u: seq<byte>, v: seq<byte>)
    requires pos + |u| + |v| <= |b| && b[pos..pos + |u| + |v|] == u + v
    ensures b[pos..pos + |u|] == u && b[pos + |u|..pos + |u| + |v|] == v
  {
    assert b[pos..pos + |u|] == (u + v)[..|u|];
    assert b[pos + |u|..pos + |u| + |v|] == (u + v)[|u|..];
  }

  lemma {:induction false} ChainIsScanned(b: seq<byte>, pos: nat, mask: Mask, chain: seq<seq<byte>>)
    requires pos + |Flat(chain)| <= |b| && b[pos..pos + |Flat(chain)|] == Flat(chain)
    requires Chained(mask, chain)
    ensures ScanGroups(b, pos, mask) == Ok(Scan(chain, pos + |Flat(chain)|))
    decreases |chain|
  {
    if mask == NONE {
    } else {
      AnnouncesSomething(mask);
      var g, rest := chain[0], chain[1..];
      assert Flat(chain) == g + Flat(rest);
      SplitSlice(b, pos, g, Flat(rest));
      ChainIsScanned(b, pos + |g|, NextMask(mask, g), rest);
      assert [g] + rest == chain;
    }
  }

  lemma SplitAt(b: seq<byte>, i: nat, j: nat)
    requires 2 <= i <= j <= |b|
    ensures b == b[..2] + b[2..i] + b[i..j] + b[j..]
  {
  }

  lemma ParsedPrints(b: seq<byte>)
    requires Parse(b).Ok?
    ensures WellFormed(Parse(b).value) && Print(Parse(b).value) == b
  {
    var a, s := Parse(b).value, ScanGroups(b, 2, High(b[1])).value;
    ScanFindsChain(b, 2, High(b[1]));
    var end := s.pos + |a.historical|;
    assert b[..2] == [a.ts, a.t0] && b[end..] == if a.hasTCK then [a.tck] else [];
    SplitAt(b, s.pos, end);
  }

  lemma PrintedParses(a: ATR)
    requires WellFormed(a)
    ensures Parse(Print(a)) == Ok(a)
  {
    var b, flat, tail := Print(a), Flat(a.interfaceBytes), if a.hasTCK then [a.tck] else [];
    assert b[2..2 + |flat|] == flat;
    ChainIsScanned(b, 2, High(a.t0), a.interfaceBytes);
    var start, end := 2 + |flat|, 2 + |flat| + |a.historical|;
    assert b[start..end] == a.historical && b[end..] == tail;
  }

  /** The accepted byte strings are in bijection with the well-formed structures. */
  lemma ParseIffPrint(b: seq<byte>, a: ATR)
    ensures Parse(b) == Ok(a) <==> WellFormed(a) && Print(a) == b
  {
    if Parse(b).Ok? {
      ParsedPrints(b);
    }
    if WellFormed(a) {
      PrintedParses(a);
    }
  }

  lemma {:induction false} OfferedWithoutDuplicates(mask: Mask, groups: seq<seq<byte>>, protocols: seq<nibble>)
    requires protocols != [] && forall i, j :: 0 <= i < j < |protocols| ==> protocols[i] != protocols[j]
    ensures var ps := Offered(mask, groups, protocols);
            protocols <= ps && forall i, j :: 0 <= i < j < |ps| ==> ps[i] != ps[j]
    decreases |groups|
  {
    if groups == [] {
    } else {
      var g := groups[0];
      var offered := OfferedBy(mask, g, protocols);
      OfferedWithoutDuplicates(NextMask(mask, g), groups[1..], offered);
    }
  }

  /** Some TD of the chain offers a protocol other than T=0. */
  predicate OffersOther(mask: Mask, groups: seq<seq<byte>>)
    decreases |groups|
  {
    groups != [] &&
    ((mask.td && groups[0] != [] && Low(groups[0][|groups[0]| - 1]) != 0)
     || OffersOther(NextMask(mask, groups[0]), groups[1..]))
  }

  lemma {:induction false} OtherProtocolIffOffered(mask: Mask, groups: seq<seq<byte>>, protocols: seq<nibble>)
    requires protocols != [] && protocols[0] == 0
    ensures |Offered(mask, groups, protocols)| > 1 <==> |protocols| > 1 || OffersOther(mask, groups)
    decreases |groups|
  {
    if groups == [] {
    } else {
      var g := groups[0];
      var offered := OfferedBy(mask, g, protocols);
      OtherProtocolIffOffered(NextMask(mask, g), groups[1..], offered);
    }
  }

  /** Protocols start with T=0 without repetition; TCK is there exactly when another one is offered. */
  lemma ParsedProtocols(b: seq<byte>, a: ATR)
    requires Parse(b) == Ok(a)
    ensures a.protocols != [] && a.protocols[0] == 0
    ensures forall i, j :: 0 <= i < j < |a.protocols| ==> a.protocols[i] != a.protocols[j]
    ensures a.hasTCK <==> OffersOther(High(a.t0), a.interfaceBytes)
  {
    ParseIffPrint(b, a);
    OfferedWithoutDuplicates(High(a.t0), a.interfaceBytes, [0]);
    OtherProtocolIffOffered(High(a.t0), a.interfaceBytes, [0]);
  }

  // ---------------------------------------------------------------------------
  // The checksum, section 8.2 of ISO/IEC 7816-3

  /** The n low bits of a number, the lowest first. */
  function ToBits(x: nat, n: nat): (bits: seq<bool>)
    ensures |bits| == n
    decreases n
  {
    if n == 0 then [] else [x % 2 == 1] + ToBits(x / 2, n - 1)
  }

  function FromBits(bits: seq<bool>): nat {
    if bits == [] then 0 else 2 * FromBits(bits[1..]) + if bits[0] then 1 else 0
  }

  function Pow2(n: nat): nat {
    if n == 0 then 1 else 2 * Pow2(n - 1)
  }

  lemma {:induction false} BitsOfNumber(bits: seq<bool>)
    ensures ToBits(FromBits(bits), |bits|) == bits
    ensures FromBits(bits) < Pow2(|bits|)
  {
    if bits == [] {
    } else {
      BitsOfNumber(bits[1..]);
    }
  }

  lemma {:induction false} NumberOfBits(x: nat, n: nat)
    requires x < Pow2(n)
    ensures FromBits(ToBits(x, n)) == x
    decreases n
  {
    if n == 0 {
    } else {
      NumberOfBits(x / 2, n - 1);
      assert ToBits(x, n)[1..] == ToBits(x / 2, n - 1);
    }
  }

  lemma EightBits()
    ensures Pow2(8) == 256
  {
    assert Pow2(2) == 4 && Pow2(4) == 4 * Pow2(2) && Pow2(6) == 4 * Pow2(4) && Pow2(8) == 4 * Pow2(6);
  }

  function Differ(a: seq<bool>, b: seq<bool>): (c: seq<bool>)
    requires |a| == |b|
    ensures |c| == |a|
  {
    seq(|a|, i requires 0 <= i < |a| => a[i] != b[i])
  }

  /** Exclusive or of two bytes. */
  function Xor(x: byte, y: byte): byte {
    var bits := Differ(ToBits(x as int, 8), ToBits(y as int, 8));
    BitsOfNumber(bits);
    EightBits();
    FromBits(bits) as byte
  }

  lemma BitsOfXor(x: byte, y: byte)
    ensures ToBits(Xor(x, y) as int, 8) == Differ(ToBits(x as int, 8), ToBits(y as int, 8))
  {
    BitsOfNumber(Differ(ToBits(x as int, 8), ToBits(y as int, 8)));
  }

  lemma SameBits(x: byte, y: byte)
    requires ToBits(x as int, 8) == ToBits(y as int, 8)
    ensures x == y
  {
    EightBits();
    NumberOfBits(x as int, 8);
    NumberOfBits(y as int, 8);
  }

  lemma DifferAssociates(a: seq<bool>, b: seq<bool>, c: seq<bool>)
    requires |a| == |b| == |c|
    ensures Differ(Differ(a, b), c) == Differ(a, Differ(b, c))
  {
  }

  lemma XorAssociates(x: byte, y: byte, z: byte)
    ensures Xor(Xor(x, y), z) == Xor(x, Xor(y, z))
  {
    BitsOfXor(x, y);
    BitsOfXor(y, z);
    BitsOfXor(Xor(x, y), z);
    BitsOfXor(x, Xor(y, z));
    DifferAssociates(ToBits(x as int, 8), ToBits(y as int, 8), ToBits(z as int, 8));
    SameBits(Xor(Xor(x, y), z), Xor(x, Xor(y, z)));
  }

  lemma XorCommutes(x: byte, y: byte)
    ensures Xor(x, y) == Xor(y, x)
  {
    assert Differ(ToBits(x as int, 8), ToBits(y as int, 8)) == Differ(ToBits(y as int, 8), ToBits(x as int, 8));
  }

  lemma {:induction false} NoBits(n: nat)
    ensures forall i :: 0 <= i < n ==> !ToBits(0, n)[i]
    decreases n
  {
    if n == 0 {
    } else {
      NoBits(n - 1);
    }
  }

  lemma XorIsZero(x: byte, y: byte)
    ensures Xor(x, y) == 0 <==> x == y
    ensures Xor(x, 0) == x
  {
    NoBits(8);
    BitsOfXor(x, 0);
    SameBits(Xor(x, 0), x);
    BitsOfXor(x, y);
    if Xor(x, y) == 0 {
      var a, b := ToBits(x as int, 8), ToBits(y as int, 8);
      assert forall i :: 0 <= i < 8 ==> a[i] == b[i] by {
        assert forall i :: 0 <= i < 8 ==> !Differ(a, b)[i];
      }
      SameBits(x, y);
    } else if x == y {
      SameBits(Xor(x, x), 0);
    }
  }

  function Sum(s: seq<byte>): byte {
    if s == [] then 0 else Xor(Sum(s[..|s| - 1]), s[|s| - 1])
  }

  predicate ChecksumHolds(b: seq<byte>, a: ATR) {
    !a.hasTCK || |b| < 3 || Sum(b[1..|b| - 1]) == a.tck
  }

  method ChecksumOK(a: ATR, atr: seq<byte>) returns (ok: bool)
    ensures ok <==> ChecksumHolds(atr, a)
  {
    if !a.hasTCK || |atr| < 3 {
      return true;
    }
    var body := atr[1..|atr| - 1];
    var sum: byte := 0;
    for i := 0 to |body|
      invariant sum == Sum(body[..i])
    {
      assert body[..i + 1][..i] == body[..i];
      sum := Xor(sum, body[i]);
    }
    assert body[..|body|] == body;
    return sum == a.tck;
  }

  /** The bytes after TS end with the TCK. */
  lemma TckIsLast(b: seq<byte>, a: ATR)
    requires Parse(b) == Ok(a) && a.hasTCK
    ensures |b| >= 3 && b[|b| - 1] == a.tck
  {
    ParseIffPrint(b, a);
    ParsedProtocols(b, a);
  }

  /** With a TCK the check is that all bytes after TS cancel out. */
  lemma ChecksumIsZeroSum(b: seq<byte>, a: ATR)
    requires Parse(b) == Ok(a) && a.hasTCK
    ensures ChecksumHolds(b, a) <==> Sum(b[1..]) == 0
  {
    TckIsLast(b, a);
    var n := |b| - 1;
    assert b[1..][..n - 1] == b[1..n];
    XorIsZero(Sum(b[1..n]), a.tck);
  }

  /** Replacing one byte shifts the sum by the difference. */
  lemma {:induction false} SumOfUpdate(s: seq<byte>, i: nat, v: byte)
    requires i < |s|
    ensures Sum(s[i := v]) == Xor(Sum(s), Xor(s[i], v))
  {
    var n := |s| - 1;
    if i == n {
      assert s[i := v][..n] == s[..n];
      LastReplaced(Sum(s[..n]), s[n], v);
    } else {
      SumOfUpdate(s[..n], i, v);
      assert s[i := v][..n] == s[..n][i := v];
      DifferenceMovesOut(Sum(s[..n]), Xor(s[i], v), s[n]);
    }
  }

  lemma LastReplaced(sum: byte, x: byte, v: byte)
    ensures Xor(sum, v) == Xor(Xor(sum, x), Xor(x, v))
  {
    XorAssociates(sum, x, Xor(x, v));
    XorAssociates(x, x, v);
    XorIsZero(x, x);
    XorCommutes(0, v);
    XorIsZero(v, 0);
  }

  lemma DifferenceMovesOut(sum: byte, d: byte, x: byte)
    ensures Xor(Xor(sum, d), x) == Xor(Xor(sum, x), d)
  {
    XorAssociates(sum, d, x);
    XorCommutes(d, x);
    XorAssociates(sum, x, d);
  }

  /** The bytes parse with a TCK, and the TCK holds. */
  predicate Intact(b: seq<byte>) {
    var r := Parse(b);
    r.Ok? && r.value.hasTCK && ChecksumHolds(b, r.value)
  }

  /** No two intact ATRs differ in a single byte after TS: such a corruption is always noticed. */
  lemma SingleCorruptionIsDetected(b: seq<byte>, i: nat, v: byte)
    requires 1 <= i < |b| && v != b[i]
    ensures !(Intact(b) && Intact(b[i := v]))
  {
    var c := b[i := v];
    if Intact(b) && Intact(c) {
      ChecksumIsZeroSum(b, Parse(b).value);
      ChecksumIsZeroSum(c, Parse(c).value);
      OneByteApart(b, i, v);
      assert false;
    }
  }

  lemma OneByteApart(b: seq<byte>, i: nat, v: byte)
    requires 1 <= i < |b| && v != b[i] && Sum(b[1..]) == 0
    ensures Sum(b[i := v][1..]) != 0
  {
    assert b[i := v][1..] == b[1..][i - 1 := v];
    SumOfUpdate(b[1..], i - 1, v);
    XorCommutes(0, Xor(b[i], v));
    XorIsZero(Xor(b[i], v), 0);
    XorIsZero(b[i], v);
  }
}
