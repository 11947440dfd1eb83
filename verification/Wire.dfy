/**
 The pcscd wire structs (pcsc/wire.go and internal/pcscfake/pcscfake.go): what one
 side writes into fixed-layout buffers is what the other side reads out of them.
 */
module Wire {
  import opened Common

  // ---------------------------------------------------------------------------
  // Little endian words

  function LE32(x: u32): (b: seq<byte>)
    ensures |b| == 4
  {
    [(x % 256) as byte, (x / 256 % 256) as byte, (x / 65536 % 256) as byte, (x / 16777216) as byte]
  }

  function FromLE32(b: seq<byte>): u32
    requires |b| == 4
  {
    b[0] as int + 256 * (b[1] as int) + 65536 * (b[2] as int) + 16777216 * (b[3] as int)
  }

  lemma WordRoundTrip(x: u32)
    ensures FromLE32(LE32(x)) == x
  {
    var q1 := x / 256;
    var q2 := q1 / 256;
    assert x / 65536 == q2 && x / 16777216 == q2 / 256;
  }

  /** The lowest byte stands first. */
  lemma LowestByteFirst(x: u32)
    ensures var b := LE32(x);
            x == b[0] as int + 0x100 * (b[1] as int) + 0x1_0000 * (b[2] as int) + 0x100_0000 * (b[3] as int)
  {
    var q1 := x / 256;
    var q2 := q1 / 256;
    assert x / 65536 == q2 && x / 16777216 == q2 / 256;
  }

  function PackLE(fields: seq<u32>): (b: seq<byte>)
    ensures |b| == 4 * |fields|
  {
    if fields == [] then [] else PackLE(fields[..|fields| - 1]) + LE32(fields[|fields| - 1])
  }

  lemma {:induction false} PackedWord(fields: seq<u32>, i: nat)
    requires i < |fields|
    ensures FromLE32(PackLE(fields)[4 * i..4 * i + 4]) == fields[i]
  {
    var n := |fields| - 1;
    if i == n {
      assert PackLE(fields)[4 * i..4 * i + 4] == LE32(fields[n]);
      WordRoundTrip(fields[n]);
    } else {
      PackedWord(fields[..n], i);
      assert PackLE(fields)[4 * i..4 * i + 4] == PackLE(fields[..n])[4 * i..4 * i + 4];
    }
  }

  /** The words packed in some bytes. */
  function Words(b: seq<byte>): (fields: seq<u32>)
    ensures |fields| == |b| / 4
  {
    if |b| < 4 then [] else Words(b[..|b| - 4]) + [FromLE32(b[|b| - 4..])]
  }

  lemma {:induction false} PackedWords(fields: seq<u32>)
    ensures Words(PackLE(fields)) == fields
  {
    if fields == [] {
      assert Words([]) == [];
    } else {
      var n := |fields| - 1;
      var b := PackLE(fields);
      PackedWords(fields[..n]);
      assert b[..|b| - 4] == PackLE(fields[..n]) && b[|b| - 4..] == LE32(fields[n]);
      WordRoundTrip(fields[n]);
    }
  }

  // ---------------------------------------------------------------------------
  // Reads of fixed size

  /** The parts read off a stream, fewer than asked for when it was too short, and what is left of it. */
  datatype Parts = Parts(parts: seq<seq<byte>>, rest: seq<byte>)

  /** Reads of the given sizes, one after the other; one that comes up short consumes what is there and ends them. */
  function ReadParts(stream: seq<byte>, sizes: seq<nat>): (r: Parts)
    ensures |r.parts| <= |sizes| && forall i :: 0 <= i < |r.parts| ==> |r.parts[i]| == sizes[i]
    decreases |sizes|
  {
    if sizes == [] then Parts([], stream)
    else if |stream| < sizes[0] then Parts([], [])
    else
      var later := ReadParts(stream[sizes[0]..], sizes[1..]);
      Parts([stream[..sizes[0]]] + later.parts, later.rest)
  }

  lemma OnePart(stream: seq<byte>, n: nat)
    ensures ReadParts(stream, [n]) == if |stream| < n then Parts([], []) else Parts([stream[..n]], stream[n..])
  {
    assert [n][1..] == [];
  }

  lemma TwoParts(stream: seq<byte>, m: nat, n: nat)
    requires |stream| >= m + n
    ensures ReadParts(stream, [m, n]) == Parts([stream[..m], stream[m..m + n]], stream[m + n..])
  {
    assert [m, n][1..] == [n];
    OnePart(stream[m..], n);
    assert stream[m..][..n] == stream[m..m + n] && stream[m..][n..] == stream[m + n..];
  }

  function Joined(parts: seq<seq<byte>>): seq<byte>
    decreases |parts|
  {
    if parts == [] then [] else parts[0] + Joined(parts[1..])
  }

  function Sizes(parts: seq<seq<byte>>): (sizes: seq<nat>)
    ensures |sizes| == |parts|
    decreases |parts|
  {
    if parts == [] then [] else [|parts[0]|] + Sizes(parts[1..])
  }

  function Total(sizes: seq<nat>): nat
    decreases |sizes|
  {
    if sizes == [] then 0 else sizes[0] + Total(sizes[1..])
  }

  lemma {:induction false} JoinedLength(parts: seq<seq<byte>>)
    ensures |Joined(parts)| == Total(Sizes(parts))
    decreases |parts|
  {
    if parts == [] {
      assert Joined(parts) == [];
    } else {
      JoinedLength(parts[1..]);
      assert Sizes(parts)[1..] == Sizes(parts[1..]);
    }
  }

  lemma FirstPart(part: seq<byte>, later: seq<byte>, rest: seq<byte>)
    ensures (part + later + rest)[..|part|] == part && (part + later + rest)[|part|..] == later + rest
  {}

  /** Parts written one after the other are read back by reads of their sizes, with what follows left over. */
  lemma {:induction false} PartsReadBack(parts: seq<seq<byte>>, rest: seq<byte>)
    ensures ReadParts(Joined(parts) + rest, Sizes(parts)) == Parts(parts, rest)
    decreases |parts|
  {
    if parts == [] {
      assert Joined(parts) + rest == rest;
    } else {
      var later := Joined(parts[1..]);
      PartsReadBack(parts[1..], rest);
      FirstPart(parts[0], later, rest);
      assert Sizes(parts)[1..] == Sizes(parts[1..]);
      assert [parts[0]] + parts[1..] == parts;
    }
  }

  // ---------------------------------------------------------------------------
  // Writing into a buffer

  function Zeros(n: nat): (z: seq<byte>)
    ensures |z| == n && forall i :: 0 <= i < n ==> z[i] == 0
  {
    seq(n, _ => 0)
  }

  predicate Blank(s: seq<byte>) {
    forall i :: 0 <= i < |s| ==> s[i] == 0
  }

  /** Go's copy into buf[off:]: as much as fits. */
  function Put(buf: seq<byte>, off: nat, data: seq<byte>): (r: seq<byte>)
    requires off <= |buf|
    ensures |r| == |buf|
  {
    if off + |data| <= |buf| then buf[..off] + data + buf[off + |data|..]
    else buf[..off] + data[..|buf| - off]
  }

  lemma SliceApart(buf: seq<byte>, off: nat, data: seq<byte>, lo: nat, hi: nat)
    requires off <= |buf| && lo <= hi <= |buf|
    requires hi <= off || off + |data| <= lo
    ensures Put(buf, off, data)[lo..hi] == buf[lo..hi]
  {
  }

  lemma SlicePut(buf: seq<byte>, off: nat, data: seq<byte>)
    requires off + |data| <= |buf|
    ensures Put(buf, off, data)[off..off + |data|] == data
  {
  }

  method Copy(buf: array<byte>, off: nat, data: seq<byte>)
    requires off <= buf.Length
    modifies buf
    ensures buf[..] == Put(old(buf[..]), off, data)
  {
    var n := if off + |data| <= buf.Length then |data| else buf.Length - off;
    for i := 0 to n
      invariant forall k :: off <= k < off + i ==> buf[k] == data[k - off]
      invariant forall k :: 0 <= k < off || off + i <= k < buf.Length ==> buf[k] == old(buf[k])
    {
      buf[off + i] := data[i];
    }
    forall k | 0 <= k < n
      ensures buf[off..off + n][k] == data[..n][k]
    {
      assert buf[off..off + n][k] == buf[off + k];
    }
    assert buf[off..off + n] == data[..n];
    assert buf[..off] == old(buf[..off]) && buf[off + n..] == old(buf[off + n..]);
    assert buf[..] == buf[..off] + buf[off..off + n] + buf[off + n..];
  }

  method PutUint32(buf: array<byte>, off: nat, x: u32)
    requires off + 4 <= buf.Length
    modifies buf
    ensures buf[..] == Put(old(buf[..]), off, LE32(x))
  {
    var word := LE32(x);
    buf[off], buf[off + 1], buf[off + 2], buf[off + 3] := word[0], word[1], word[2], word[3];
  }

  // ---------------------------------------------------------------------------
  // NUL terminated names

  predicate NulFree(name: seq<byte>) {
    forall i :: 0 <= i < |name| ==> name[i] != 0
  }

  function CString(b: seq<byte>): (name: seq<byte>)
    ensures |name| <= |b|
  {
    if b == [] || b[0] == 0 then [] else [b[0]] + CString(b[1..])
  }

  lemma {:induction false} CStringOfPadded(name: seq<byte>, pad: seq<byte>)
    requires Blank(pad)
    ensures CString(name + pad) == name <==> NulFree(name)
  {
    if name == [] {
      assert name + pad == pad;
    } else {
      CStringOfPadded(name[1..], pad);
      assert (name + pad)[1..] == name[1..] + pad;
      assert name == [name[0]] + name[1..];
      assert NulFree(name) <==> name[0] != 0 && NulFree(name[1..]);
    }
  }

  // ---------------------------------------------------------------------------
  // READER_STATE

  const MAX_READERS: nat := 16
  const ENTRY: nat := 184
  const ARRAY_SIZE: nat := 2944
  const NAME_SIZE: nat := 128
  const MAX_ATR: nat := 33
  const STATE_ABSENT: u32 := 0x0002
  const STATE_PRESENT: u32 := 0x0074
  const T1: u32 := 2

  /** A reader as the daemon holds it. */
  datatype Reader = Reader(atr: seq<byte>, present: bool, eventCounter: u32)

  /** A reader as the client sees it. */
  datatype ReaderState = ReaderState(reader: seq<byte>, eventCounter: u32, state: u32, atr: seq<byte>, protocol: u32)

  function SentAtr(r: Reader): (atr: seq<byte>)
    ensures |atr| <= MAX_ATR
  {
    if |r.atr| <= MAX_ATR then r.atr else r.atr[..MAX_ATR]
  }

  function StateBits(r: Reader): u32 {
    if r.present then STATE_PRESENT else STATE_ABSENT
  }

  function ProtocolOf(r: Reader): u32 {
    if r.present then T1 else 0
  }

  /** One copy into the buffer. */
  datatype Write = Write(off: nat, data: seq<byte>)

  function PutAll(buf: seq<byte>, writes: seq<Write>): (b: seq<byte>)
    requires forall w :: w in writes ==> w.off <= |buf|
    ensures |b| == |buf|
  {
    if writes == [] then buf
    else
      var n := |writes| - 1;
      Put(PutAll(buf, writes[..n]), writes[n].off, writes[n].data)
  }

  lemma OneMoreWrite(buf: seq<byte>, writes: seq<Write>, w: Write)
    requires w.off <= |buf| && forall v :: v in writes ==> v.off <= |buf|
    ensures PutAll(buf, writes + [w]) == Put(PutAll(buf, writes), w.off, w.data)
  {
    assert (writes + [w])[..|writes|] == writes;
  }

  function EndOf(w: Write): nat {
    w.off + |w.data|
  }

  predicate Apart(w: Write, lo: nat, hi: nat) {
    EndOf(w) <= lo || hi <= w.off
  }

  /** A range no write touches stays as it was. */
  lemma {:induction false} UntouchedRange(buf: seq<byte>, writes: seq<Write>, lo: nat, hi: nat)
    requires lo <= hi <= |buf| && forall w :: w in writes ==> w.off <= |buf| && Apart(w, lo, hi)
    ensures PutAll(buf, writes)[lo..hi] == buf[lo..hi]
  {
    if writes == [] {
    } else {
      var n := |writes| - 1;
      UntouchedRange(buf, writes[..n], lo, hi);
      assert writes[n] in writes;
      SliceApart(PutAll(buf, writes[..n]), writes[n].off, writes[n].data, lo, hi);
    }
  }

  /** A field no later write touches holds what was written. */
  lemma {:induction false} WrittenField(buf: seq<byte>, writes: seq<Write>, i: nat)
    requires i < |writes| && EndOf(writes[i]) <= |buf|
    requires forall w :: w in writes ==> w.off <= |buf|
    requires forall j :: i < j < |writes| ==> Apart(writes[j], writes[i].off, EndOf(writes[i]))
    ensures PutAll(buf, writes)[writes[i].off..EndOf(writes[i])] == writes[i].data
  {
    var n := |writes| - 1;
    var before := PutAll(buf, writes[..n]);
    if i == n {
      SlicePut(before, writes[i].off, writes[i].data);
    } else {
      WrittenField(buf, writes[..n], i);
      SliceApart(before, writes[n].off, writes[n].data, writes[i].off, EndOf(writes[i]));
    }
  }

  /** The fields of an entry in the order they are written; a long name runs on into what follows. */
  function EntryWrites(base: nat, name: seq<byte>, r: Reader): seq<Write> {
    [Write(base, name), Write(base + 128, LE32(r.eventCounter)), Write(base + 132, LE32(StateBits(r))),
     Write(base + 140, SentAtr(r)), Write(base + 176, LE32(|SentAtr(r)|)), Write(base + 180, LE32(ProtocolOf(r)))]
  }

  function EntryInto(buf: seq<byte>, base: nat, name: seq<byte>, r: Reader): (b: seq<byte>)
    requires base + ENTRY <= |buf|
    ensures |b| == |buf|
  {
    PutAll(buf, EntryWrites(base, name, r))
  }

  lemma EntryExpands(buf: seq<byte>, base: nat, name: seq<byte>, r: Reader)
    requires base + ENTRY <= |buf|
    ensures EntryInto(buf, base, name, r) ==
      var b1 := Put(buf, base, name);
      var b2 := Put(b1, base + 128, LE32(r.eventCounter));
      var b3 := Put(b2, base + 132, LE32(StateBits(r)));
      var b4 := Put(b3, base + 140, SentAtr(r));
      var b5 := Put(b4, base + 176, LE32(|SentAtr(r)|));
      Put(b5, base + 180, LE32(ProtocolOf(r)))
  {
    var w1 := [Write(base, name)];
    var w2 := w1 + [Write(base + 128, LE32(r.eventCounter))];
    var w3 := w2 + [Write(base + 132, LE32(StateBits(r)))];
    var w4 := w3 + [Write(base + 140, SentAtr(r))];
    var w5 := w4 + [Write(base + 176, LE32(|SentAtr(r)|))];
    assert [] + w1 == w1 && EntryWrites(base, name, r) == w5 + [Write(base + 180, LE32(ProtocolOf(r)))];
    OneMoreWrite(buf, [], w1[0]);
    OneMoreWrite(buf, w1, Write(base + 128, LE32(r.eventCounter)));
    OneMoreWrite(buf, w2, Write(base + 132, LE32(StateBits(r))));
    OneMoreWrite(buf, w3, Write(base + 140, SentAtr(r)));
    OneMoreWrite(buf, w4, Write(base + 176, LE32(|SentAtr(r)|)));
    OneMoreWrite(buf, w5, Write(base + 180, LE32(ProtocolOf(r))));
  }

  method EncodeReaderStateInto(buf: array<byte>, base: nat, name: seq<byte>, r: Reader)
    requires base + ENTRY <= buf.Length
    modifies buf
    ensures buf[..] == EntryInto(old(buf[..]), base, name, r)
  {
    EntryExpands(buf[..], base, name, r);
    Copy(buf, base, name);
    PutUint32(buf, base + 128, r.eventCounter);
    var state := STATE_ABSENT;
    if r.present {
      state := STATE_PRESENT;
    }
    PutUint32(buf, base + 132, state);
    var atr := if |r.atr| <= MAX_ATR then r.atr else r.atr[..MAX_ATR];
    Copy(buf, base + 140, atr);
    PutUint32(buf, base + 176, |atr|);
    var proto: u32 := 0;
    if r.present {
      proto := T1;
    }
    PutUint32(buf, base + 180, proto);
  }

  function EncodeSpec(names: seq<seq<byte>>, readers: map<seq<byte>, Reader>, n: nat): (b: seq<byte>)
    requires n <= |names| && n <= MAX_READERS && forall name :: name in names ==> name in readers
    ensures |b| == ARRAY_SIZE
  {
    if n == 0 then Zeros(ARRAY_SIZE)
    else EntryInto(EncodeSpec(names, readers, n - 1), At(n - 1), names[n - 1], readers[names[n - 1]])
  }

  /** The state array of the first sixteen names; names are the sorted keys of the reader table. */
  method EncodeStates(names: seq<seq<byte>>, readers: map<seq<byte>, Reader>) returns (buf: array<byte>)
    requires forall name :: name in names ==> name in readers
    ensures fresh(buf)
    ensures buf[..] == EncodeSpec(names, readers, Sent(names))
  {
    buf := new byte[ARRAY_SIZE](_ => 0);
    assert buf[..] == Zeros(ARRAY_SIZE);
    for i := 0 to |names|
      invariant i <= MAX_READERS
      invariant buf.Length == ARRAY_SIZE && buf[..] == EncodeSpec(names, readers, i)
    {
      if i >= MAX_READERS {
        break;
      }
      EncodeReaderStateInto(buf, At(i), names[i], readers[names[i]]);
    }
  }

  function Sent(names: seq<seq<byte>>): nat {
    if |names| <= MAX_READERS then |names| else MAX_READERS
  }

  function DecodeReaderState(e: seq<byte>): ReaderState
    requires |e| == ENTRY
  {
    var claimed := FromLE32(e[176..180]) as nat;
    var atrLen := if claimed > MAX_ATR then 0 else claimed;
    ReaderState(CString(e[0..128]), FromLE32(e[128..132]), FromLE32(e[132..136]), e[140..140 + atrLen], FromLE32(e[180..184]))
  }

  /** Offset of the i-th entry. */
  function At(i: nat): nat {
    184 * i
  }

  /** The i-th entry of a state array. */
  function Slot(raw: seq<byte>, i: nat): (e: seq<byte>)
    requires |raw| == ARRAY_SIZE && i < MAX_READERS
    ensures |e| == ENTRY
  {
    raw[At(i)..At(i + 1)]
  }

  /** The entries of the array that carry a name, in array order. */
  function DecodeSpec(raw: seq<byte>, n: nat): seq<ReaderState>
    requires |raw| == ARRAY_SIZE && n <= MAX_READERS
  {
    if n == 0 then []
    else
      var entry := DecodeReaderState(Slot(raw, n - 1));
      DecodeSpec(raw, n - 1) + if entry.reader == [] then [] else [entry]
  }

  lemma DecodeOneMore(raw: seq<byte>, i: nat, entry: ReaderState, before: seq<ReaderState>)
    requires |raw| == ARRAY_SIZE && i < MAX_READERS
    requires entry == DecodeReaderState(Slot(raw, i)) && before == DecodeSpec(raw, i)
    ensures DecodeSpec(raw, i + 1) == if entry.reader == [] then before else before + [entry]
  {
    assert before + [] == before;
  }

  method DecodeStates(raw: seq<byte>) returns (states: seq<ReaderState>)
    requires |raw| == ARRAY_SIZE
    ensures states == DecodeSpec(raw, MAX_READERS)
  {
    states := [];
    for i := 0 to MAX_READERS
      invariant states == DecodeSpec(raw, i)
    {
      var entry := DecodeReaderState(Slot(raw, i));
      DecodeOneMore(raw, i, entry, states);
      if entry.reader == [] {
        continue;
      }
      states := states + [entry];
    }
  }

  // ---------------------------------------------------------------------------
  // The client decodes what the daemon encodes

  function Seen(name: seq<byte>, r: Reader): ReaderState {
    ReaderState(name, r.eventCounter, StateBits(r), SentAtr(r), ProtocolOf(r))
  }

  /** An entry whose fields hold the given reader. */
  predicate Holds(e: seq<byte>, name: seq<byte>, r: Reader)
    requires |e| == ENTRY && |name| <= NAME_SIZE
  {
    && e[0..128] == name + Zeros(128 - |name|)
    && e[128..132] == LE32(r.eventCounter)
    && e[132..136] == LE32(StateBits(r))
    && e[140..140 + |SentAtr(r)|] == SentAtr(r)
    && e[176..180] == LE32(|SentAtr(r)|)
    && e[180..184] == LE32(ProtocolOf(r))
  }

  lemma DecodeHolding(e: seq<byte>, name: seq<byte>, r: Reader)
    requires |e| == ENTRY && |name| <= NAME_SIZE && Holds(e, name, r)
    ensures DecodeReaderState(e) == Seen(name, r) <==> NulFree(name)
  {
    WordRoundTrip(r.eventCounter);
    WordRoundTrip(StateBits(r));
    WordRoundTrip(|SentAtr(r)|);
    WordRoundTrip(ProtocolOf(r));
    CStringOfPadded(name, Zeros(128 - |name|));
  }

  lemma SliceOfSlice(b: seq<byte>, base: nat, e: seq<byte>, i: nat, j: nat, lo: nat, hi: nat)
    requires i <= j <= |e| && base + |e| <= |b| && e == b[base..base + |e|]
    requires lo == base + i && hi == base + j
    ensures e[i..j] == b[lo..hi]
  {
    forall k | 0 <= k < j - i
      ensures e[i..j][k] == b[lo..hi][k]
    {
      assert e[i + k] == b[base + (i + k)];
    }
    assert e[i..j] == b[lo..hi];
  }

  /** Every number and the ATR of an entry stand at their offsets. */
  lemma EntryNumbers(buf: seq<byte>, base: nat, name: seq<byte>, r: Reader)
    requires base + ENTRY <= |buf|
    ensures var b, n := EntryInto(buf, base, name, r), |SentAtr(r)|;
            && b[base + 128..base + 132] == LE32(r.eventCounter)
            && b[base + 132..base + 136] == LE32(StateBits(r))
            && b[base + 140..base + 140 + n] == SentAtr(r)
            && b[base + 176..base + 180] == LE32(n)
            && b[base + 180..base + 184] == LE32(ProtocolOf(r))
  {
    var writes := EntryWrites(base, name, r);
    WrittenField(buf, writes, 1);
    WrittenField(buf, writes, 2);
    WrittenField(buf, writes, 3);
    WrittenField(buf, writes, 4);
    WrittenField(buf, writes, 5);
  }

  lemma EntryName(buf: seq<byte>, base: nat, name: seq<byte>, r: Reader)
    requires base + ENTRY <= |buf| && |name| <= NAME_SIZE
    requires buf[base..base + ENTRY] == Zeros(ENTRY)
    ensures EntryInto(buf, base, name, r)[base..base + 128] == name + Zeros(128 - |name|)
  {
    var writes, b, n := EntryWrites(base, name, r), EntryInto(buf, base, name, r), |name|;
    WrittenField(buf, writes, 0);
    UntouchedRange(buf, writes, base + n, base + 128);
    SliceOfSlice(buf, base, Zeros(ENTRY), n, 128, base + n, base + 128);
    assert Zeros(ENTRY)[n..128] == Zeros(128 - n);
    assert b[base..base + 128] == b[base..base + n] + b[base + n..base + 128];
  }

  lemma EntryHolds(buf: seq<byte>, base: nat, name: seq<byte>, r: Reader)
    requires base + ENTRY <= |buf| && |name| <= NAME_SIZE
    requires buf[base..base + ENTRY] == Zeros(ENTRY)
    ensures Holds(EntryInto(buf, base, name, r)[base..base + ENTRY], name, r)
  {
    EntryName(buf, base, name, r);
    EntryNumbers(buf, base, name, r);
    var b := EntryInto(buf, base, name, r);
    var e, n := b[base..base + ENTRY], |SentAtr(r)|;
    SliceOfSlice(b, base, e, 0, 128, base, base + 128);
    SliceOfSlice(b, base, e, 128, 132, base + 128, base + 132);
    SliceOfSlice(b, base, e, 132, 136, base + 132, base + 136);
    SliceOfSlice(b, base, e, 140, 140 + n, base + 140, base + 140 + n);
    SliceOfSlice(b, base, e, 176, 180, base + 176, base + 180);
    SliceOfSlice(b, base, e, 180, 184, base + 180, base + 184);
  }

  /** An entry with a name of at most 128 bytes stays within its 184 bytes. */
  lemma EntryStaysInPlace(buf: seq<byte>, base: nat, name: seq<byte>, r: Reader, lo: nat, hi: nat)
    requires base + ENTRY <= |buf| && |name| <= NAME_SIZE
    requires lo <= hi <= |buf| && (hi <= base || base + ENTRY <= lo)
    ensures EntryInto(buf, base, name, r)[lo..hi] == buf[lo..hi]
  {
    UntouchedRange(buf, EntryWrites(base, name, r), lo, hi);
  }

  /** Names the daemon can serve without spilling: the reader table the round trip is about. */
  predicate Servable(names: seq<seq<byte>>, readers: map<seq<byte>, Reader>) {
    forall name :: name in names ==> name in readers && |name| <= NAME_SIZE
  }

  lemma WrittenSlot(raw: seq<byte>, i: nat, name: seq<byte>, r: Reader)
    requires |raw| == ARRAY_SIZE && i < MAX_READERS && |name| <= NAME_SIZE
    requires Blank(Slot(raw, i))
    ensures Holds(Slot(EntryInto(raw, At(i), name, r), i), name, r)
  {
    assert Slot(raw, i) == Zeros(ENTRY);
    EntryHolds(raw, At(i), name, r);
  }

  lemma OtherSlot(raw: seq<byte>, i: nat, name: seq<byte>, r: Reader, j: nat)
    requires |raw| == ARRAY_SIZE && i < MAX_READERS && j < MAX_READERS && i != j && |name| <= NAME_SIZE
    ensures Slot(EntryInto(raw, At(i), name, r), j) == Slot(raw, j)
  {
    assert At(j + 1) <= At(i) || At(i + 1) <= At(j);
    EntryStaysInPlace(raw, At(i), name, r, At(j), At(j + 1));
  }

  lemma BlankSlot(raw: seq<byte>, i: nat)
    requires |raw| == ARRAY_SIZE && Blank(raw) && i < MAX_READERS
    ensures Blank(Slot(raw, i))
  {
  }

  /** A blank entry decodes to a state without a name. */
  lemma BlankDecodes(e: seq<byte>)
    requires |e| == ENTRY && Blank(e)
    ensures DecodeReaderState(e).reader == []
  {
    assert e[0..128][0] == e[0] == 0;
  }

  lemma SlotKept(names: seq<seq<byte>>, readers: map<seq<byte>, Reader>, n: nat, i: nat)
    requires Servable(names, readers) && n < |names| && n < MAX_READERS && i < MAX_READERS && i != n
    ensures Slot(EncodeSpec(names, readers, n + 1), i) == Slot(EncodeSpec(names, readers, n), i)
  {
    assert names[n] in names;
    OtherSlot(EncodeSpec(names, readers, n), n, names[n], readers[names[n]], i);
  }

  lemma {:induction false} UntouchedSlot(names: seq<seq<byte>>, readers: map<seq<byte>, Reader>, n: nat, i: nat)
    requires Servable(names, readers) && n <= |names| && n <= i < MAX_READERS
    ensures Slot(EncodeSpec(names, readers, n), i) == Slot(Zeros(ARRAY_SIZE), i)
    decreases n
  {
    if n == 0 {
    } else {
      UntouchedSlot(names, readers, n - 1, i);
      SlotKept(names, readers, n - 1, i);
    }
  }

  lemma UnwrittenSlot(names: seq<seq<byte>>, readers: map<seq<byte>, Reader>, n: nat, i: nat)
    requires Servable(names, readers) && n <= |names| && n <= i < MAX_READERS
    ensures Blank(Slot(EncodeSpec(names, readers, n), i))
  {
    UntouchedSlot(names, readers, n, i);
    BlankSlot(Zeros(ARRAY_SIZE), i);
  }

  lemma LastSlotWritten(names: seq<seq<byte>>, readers: map<seq<byte>, Reader>, n: nat)
    requires Servable(names, readers) && n < |names| && n < MAX_READERS
    ensures names[n] in names && Holds(Slot(EncodeSpec(names, readers, n + 1), n), names[n], readers[names[n]])
  {
    assert names[n] in names;
    UnwrittenSlot(names, readers, n, n);
    WrittenSlot(EncodeSpec(names, readers, n), n, names[n], readers[names[n]]);
  }

  lemma HoldsAlike(e: seq<byte>, e': seq<byte>, name: seq<byte>, r: Reader)
    requires |e| == ENTRY && |name| <= NAME_SIZE && Holds(e, name, r) && e' == e
    ensures Holds(e', name, r)
  {}

  /** An entry holds its reader in every array after it was written. */
  lemma HeldOn(names: seq<seq<byte>>, readers: map<seq<byte>, Reader>, n: nat, i: nat, name: seq<byte>, r: Reader,
               before: seq<byte>, raw: seq<byte>)
    requires Servable(names, readers) && n < |names| && n < MAX_READERS && i < n && |name| <= NAME_SIZE
    requires before == EncodeSpec(names, readers, n) && raw == EncodeSpec(names, readers, n + 1)
    requires Holds(Slot(before, i), name, r)
    ensures Holds(Slot(raw, i), name, r)
  {
    SlotKept(names, readers, n, i);
    HoldsAlike(Slot(before, i), Slot(raw, i), name, r);
  }

  lemma {:induction false} HeldInSlot(names: seq<seq<byte>>, readers: map<seq<byte>, Reader>, n: nat, i: nat, raw: seq<byte>)
    requires Servable(names, readers) && i < n <= |names| && n <= MAX_READERS && raw == EncodeSpec(names, readers, n)
    ensures names[i] in names && Holds(Slot(raw, i), names[i], readers[names[i]])
    decreases n
  {
    if i == n - 1 {
      LastSlotWritten(names, readers, i);
    } else {
      var before := EncodeSpec(names, readers, n - 1);
      HeldInSlot(names, readers, n - 1, i, before);
      HeldOn(names, readers, n - 1, i, names[i], readers[names[i]], before, raw);
    }
  }

  lemma EncodedSlot(names: seq<seq<byte>>, readers: map<seq<byte>, Reader>, n: nat, i: nat)
    requires Servable(names, readers) && i < n <= |names| && n <= MAX_READERS
    ensures names[i] in names && Holds(Slot(EncodeSpec(names, readers, n), i), names[i], readers[names[i]])
  {
    HeldInSlot(names, readers, n, i, EncodeSpec(names, readers, n));
  }

  /** What the client should see: the named readers among the first n, in order. */
  function Expected(names: seq<seq<byte>>, readers: map<seq<byte>, Reader>, n: nat): seq<ReaderState>
    requires n <= |names| && forall name :: name in names ==> name in readers
  {
    if n == 0 then []
    else Expected(names, readers, n - 1) + if names[n - 1] == [] then [] else [Seen(names[n - 1], readers[names[n - 1]])]
  }

  lemma DecodedSlot(names: seq<seq<byte>>, readers: map<seq<byte>, Reader>, n: nat, i: nat, raw: seq<byte>)
    requires Servable(names, readers) && i < n <= |names| && n <= MAX_READERS && raw == EncodeSpec(names, readers, n)
    requires names[i] in names && NulFree(names[i])
    ensures DecodeReaderState(Slot(raw, i)) == Seen(names[i], readers[names[i]])
  {
    HeldInSlot(names, readers, n, i, raw);
    DecodeHolding(Slot(raw, i), names[i], readers[names[i]]);
  }

  lemma SeenOneMore(raw: seq<byte>, i: nat, name: seq<byte>, entry: ReaderState, before: seq<ReaderState>)
    requires |raw| == ARRAY_SIZE && i < MAX_READERS && entry.reader == name
    requires DecodeReaderState(Slot(raw, i)) == entry && before == DecodeSpec(raw, i)
    ensures DecodeSpec(raw, i + 1) == before + if name == [] then [] else [entry]
  {
    DecodeOneMore(raw, i, entry, before);
    assert before + [] == before;
  }

  lemma DecodedOneMore(names: seq<seq<byte>>, readers: map<seq<byte>, Reader>, i: nat, raw: seq<byte>, before: seq<ReaderState>)
    requires Servable(names, readers) && i < Sent(names) && raw == EncodeSpec(names, readers, Sent(names))
    requires names[i] in names && NulFree(names[i])
    requires before == DecodeSpec(raw, i) && before == Expected(names, readers, i)
    ensures DecodeSpec(raw, i + 1) == Expected(names, readers, i + 1)
  {
    DecodedSlot(names, readers, Sent(names), i, raw);
    SeenOneMore(raw, i, names[i], Seen(names[i], readers[names[i]]), before);
  }

  lemma {:induction false} DecodedUpTo(names: seq<seq<byte>>, readers: map<seq<byte>, Reader>, n: nat, raw: seq<byte>)
    requires Servable(names, readers) && n <= Sent(names) && raw == EncodeSpec(names, readers, Sent(names))
    requires forall name :: name in names ==> NulFree(name)
    ensures DecodeSpec(raw, n) == Expected(names, readers, n)
    decreases n
  {
    if n > 0 {
      assert names[n - 1] in names;
      DecodedUpTo(names, readers, n - 1, raw);
      DecodedOneMore(names, readers, n - 1, raw, Expected(names, readers, n - 1));
    }
  }

  lemma {:induction false} BlankSlotsDecodeToNothing(raw: seq<byte>, k: nat, n: nat)
    requires |raw| == ARRAY_SIZE && k <= n <= MAX_READERS
    requires forall i :: k <= i < n ==> Blank(Slot(raw, i))
    ensures DecodeSpec(raw, n) == DecodeSpec(raw, k)
    decreases n
  {
    if n == k {
    } else {
      BlankSlotsDecodeToNothing(raw, k, n - 1);
      BlankDecodes(Slot(raw, n - 1));
    }
  }

  lemma PaddingIsSilent(names: seq<seq<byte>>, readers: map<seq<byte>, Reader>, n: nat)
    requires Servable(names, readers) && Sent(names) <= n <= MAX_READERS
    ensures var raw := EncodeSpec(names, readers, Sent(names));
            DecodeSpec(raw, n) == DecodeSpec(raw, Sent(names))
  {
    var raw := EncodeSpec(names, readers, Sent(names));
    forall i | Sent(names) <= i < n
      ensures Blank(Slot(raw, i))
    {
      UnwrittenSlot(names, readers, Sent(names), i);
    }
    BlankSlotsDecodeToNothing(raw, Sent(names), n);
  }

  /**
   The client's decode of the daemon's array is exactly the first sixteen readers in the
   daemon's order, with their counters, state bits, protocols and cut ATRs; the zero
   padding yields no phantom reader.
   */
  lemma StatesRoundTrip(names: seq<seq<byte>>, readers: map<seq<byte>, Reader>)
    requires Servable(names, readers) && forall name :: name in names ==> NulFree(name)
    ensures DecodeSpec(EncodeSpec(names, readers, Sent(names)), MAX_READERS) == Expected(names, readers, Sent(names))
  {
    DecodedUpTo(names, readers, Sent(names), EncodeSpec(names, readers, Sent(names)));
    PaddingIsSilent(names, readers, MAX_READERS);
  }

  lemma {:induction false} CStringIsNulFree(b: seq<byte>)
    ensures NulFree(CString(b))
  {
    if b == [] || b[0] == 0 {
    } else {
      CStringIsNulFree(b[1..]);
    }
  }

  /** A name a client can decode. */
  predicate Fits(name: seq<byte>) {
    |name| <= 128 && NulFree(name)
  }

  lemma {:induction false} DecodedNamesFit(raw: seq<byte>, n: nat)
    requires |raw| == ARRAY_SIZE && n <= MAX_READERS
    ensures forall st :: st in DecodeSpec(raw, n) ==> 0 < |st.reader| && Fits(st.reader)
  {
    if n == 0 {
    } else {
      DecodedNamesFit(raw, n - 1);
      CStringIsNulFree(Slot(raw, n - 1)[0..128]);
    }
  }

  lemma {:induction false} EncodedOfFirst(names: seq<seq<byte>>, readers: map<seq<byte>, Reader>, k: nat, n: nat)
    requires n <= k <= |names| && n <= MAX_READERS && forall name :: name in names ==> name in readers
    ensures EncodeSpec(names[..k], readers, n) == EncodeSpec(names, readers, n)
    ensures Expected(names[..k], readers, n) == Expected(names, readers, n)
    decreases n
  {
    if n == 0 {
    } else {
      EncodedOfFirst(names, readers, k, n - 1);
    }
  }

  lemma {:induction false} ExpectedNamed(names: seq<seq<byte>>, readers: map<seq<byte>, Reader>, n: nat, i: nat)
    requires i < n <= |names| && forall name :: name in names ==> name in readers
    requires names[i] != []
    ensures Seen(names[i], readers[names[i]]) in Expected(names, readers, n)
    decreases n
  {
    if i == n - 1 {
    } else {
      ExpectedNamed(names, readers, n - 1, i);
    }
  }

  /**
   The client decodes what the daemon meant to tell, if and only if each of the first
   sixteen names is NUL-free and at most 128 bytes long.
   */
  lemma StatesRoundTripIff(names: seq<seq<byte>>, readers: map<seq<byte>, Reader>)
    requires forall name :: name in names ==> name in readers
    ensures DecodeSpec(EncodeSpec(names, readers, Sent(names)), MAX_READERS) == Expected(names, readers, Sent(names))
        <==> forall name :: name in names[..Sent(names)] ==> Fits(name)
  {
    var k := Sent(names);
    var raw, first := EncodeSpec(names, readers, k), names[..k];
    if forall name :: name in first ==> Fits(name) {
      EncodedOfFirst(names, readers, k, k);
      StatesRoundTrip(first, readers);
    }
    if DecodeSpec(raw, MAX_READERS) == Expected(names, readers, k) {
      DecodedNamesFit(raw, MAX_READERS);
      forall name | name in first
        ensures Fits(name)
      {
        var i :| 0 <= i < k && names[i] == name;
        if name != [] {
          ExpectedNamed(names, readers, k, i);
        }
      }
    }
  }

  /** What one decoded state tells of a reader, in its own bytes and bits. */
  predicate Tells(st: ReaderState, name: seq<byte>, r: Reader) {
    && st.reader == name && st.eventCounter == r.eventCounter
    && (st.state / 4 % 2 == 1 <==> r.present)
    && st.atr == (if |r.atr| <= 33 then r.atr else r.atr[..33])
    && st.protocol == if r.present then 2 else 0
  }

  lemma SeenTells(name: seq<byte>, r: Reader)
    ensures Tells(Seen(name, r), name, r)
  {}

  lemma {:induction false} ExpectedAreServed(names: seq<seq<byte>>, readers: map<seq<byte>, Reader>, n: nat, st: ReaderState)
    requires n <= |names| && forall name :: name in names ==> name in readers
    requires st in Expected(names, readers, n)
    ensures exists i :: 0 <= i < n && names[i] != [] && Tells(st, names[i], readers[names[i]])
    decreases n
  {
    if names[n - 1] != [] && st == Seen(names[n - 1], readers[names[n - 1]]) {
      SeenTells(names[n - 1], readers[names[n - 1]]);
    } else {
      ExpectedAreServed(names, readers, n - 1, st);
    }
  }

  /**
   What the client concludes: of each of the first sixteen readers its name, event counter,
   presence bit, first 33 ATR bytes and protocol, and of no other reader anything.
   */
  lemma ClientLearnsReaders(names: seq<seq<byte>>, readers: map<seq<byte>, Reader>)
    requires forall name :: name in names ==> name in readers
    requires forall name :: name in names[..Sent(names)] ==> Fits(name)
    ensures Sent(names) == if |names| <= 16 then |names| else 16
    ensures var seen := DecodeSpec(EncodeSpec(names, readers, Sent(names)), MAX_READERS);
            && (forall i :: 0 <= i < Sent(names) && names[i] != [] ==>
                  exists st :: st in seen && Tells(st, names[i], readers[names[i]]))
            && (forall st :: st in seen ==>
                  exists i :: 0 <= i < Sent(names) && names[i] != [] && Tells(st, names[i], readers[names[i]]))
  {
    var k := Sent(names);
    StatesRoundTripIff(names, readers);
    forall i | 0 <= i < k && names[i] != []
      ensures exists st :: st in Expected(names, readers, k) && Tells(st, names[i], readers[names[i]])
    {
      ExpectedNamed(names, readers, k, i);
      SeenTells(names[i], readers[names[i]]);
    }
    forall st | st in Expected(names, readers, k)
      ensures exists i :: 0 <= i < k && names[i] != [] && Tells(st, names[i], readers[names[i]])
    {
      ExpectedAreServed(names, readers, k, st);
    }
  }

  /** A single reader is seen as it is if and only if its name is NUL-free, non-empty and at most 128 bytes. */
  lemma ReaderSeenIff(name: seq<byte>, r: Reader)
    ensures DecodeSpec(EncodeSpec([name], map[name := r], 1), MAX_READERS) == [Seen(name, r)]
        <==> name != [] && |name| <= NAME_SIZE && NulFree(name)
  {
    var names, readers := [name], map[name := r];
    var raw := EncodeSpec(names, readers, 1);
    DecodedNamesFit(raw, MAX_READERS);
    assert Seen(name, r) in [Seen(name, r)];
    if 0 < |name| <= NAME_SIZE {
      PaddingIsSilent(names, readers, MAX_READERS);
      EncodedSlot(names, readers, 1, 0);
      DecodeHolding(Slot(raw, 0), name, r);
      assert DecodeSpec(raw, 0) == [];
      var entry := DecodeReaderState(Slot(raw, 0));
      assert DecodeSpec(raw, 1) == if entry.reader == [] then [] else [entry];
    }
  }

  // ---------------------------------------------------------------------------
  // Connect and getset

  const CONNECT_SIZE: nat := 152

  datatype ConnectMsg = ConnectMsg(
    context: u32, reader: seq<byte>, shareMode: u32, preferredProtocols: u32, card: u32, activeProtocol: u32, rv: u32)

  function ConnectWrites(c: ConnectMsg): seq<Write> {
    [Write(0, LE32(c.context)), Write(4, c.reader), Write(132, LE32(c.shareMode)), Write(136, LE32(c.preferredProtocols)),
     Write(140, LE32(c.card)), Write(144, LE32(c.activeProtocol)), Write(148, LE32(c.rv))]
  }

  function EncodeConnect(c: ConnectMsg): (b: seq<byte>)
    ensures |b| == CONNECT_SIZE
  {
    PutAll(Zeros(CONNECT_SIZE), ConnectWrites(c))
  }

  function DecodeConnect(b: seq<byte>): ConnectMsg
    requires |b| == CONNECT_SIZE
  {
    ConnectMsg(FromLE32(b[0..4]), CString(b[4..132]), FromLE32(b[132..136]), FromLE32(b[136..140]),
               FromLE32(b[140..144]), FromLE32(b[144..148]), FromLE32(b[148..152]))
  }

  lemma ConnectNumbers(c: ConnectMsg)
    ensures DecodeConnect(EncodeConnect(c)) == c.(reader := DecodeConnect(EncodeConnect(c)).reader)
  {
    var zero, writes := Zeros(CONNECT_SIZE), ConnectWrites(c);
    WrittenField(zero, writes, 0);
    WrittenField(zero, writes, 2);
    WrittenField(zero, writes, 3);
    WrittenField(zero, writes, 4);
    WrittenField(zero, writes, 5);
    WrittenField(zero, writes, 6);
    WordRoundTrip(c.context);
    WordRoundTrip(c.shareMode);
    WordRoundTrip(c.preferredProtocols);
    WordRoundTrip(c.card);
    WordRoundTrip(c.activeProtocol);
    WordRoundTrip(c.rv);
  }

  /** Every number of a connect struct at its offset. */
  lemma ConnectInFull(c: ConnectMsg)
    ensures var b := EncodeConnect(c);
            && |b| == 152
            && (|c.reader| <= 128 ==> b[0..4] == LE32(c.context))
            && b[132..136] == LE32(c.shareMode) && b[136..140] == LE32(c.preferredProtocols)
            && b[140..144] == LE32(c.card) && b[144..148] == LE32(c.activeProtocol) && b[148..152] == LE32(c.rv)
  {
    var zero, writes := Zeros(CONNECT_SIZE), ConnectWrites(c);
    WrittenField(zero, writes, 0);
    WrittenField(zero, writes, 2);
    WrittenField(zero, writes, 3);
    WrittenField(zero, writes, 4);
    WrittenField(zero, writes, 5);
    WrittenField(zero, writes, 6);
  }

  lemma ConnectName(c: ConnectMsg)
    requires |c.reader| <= NAME_SIZE
    ensures EncodeConnect(c)[4..132] == c.reader + Zeros(128 - |c.reader|)
  {
    var zero, writes, b, n := Zeros(CONNECT_SIZE), ConnectWrites(c), EncodeConnect(c), |c.reader|;
    WrittenField(zero, writes, 1);
    UntouchedRange(zero, writes, 4 + n, 132);
    assert zero[4 + n..132] == Zeros(128 - n);
    assert b[4..132] == b[4..4 + n] + b[4 + n..132];
  }

  /** A connect struct reads back as written if and only if its name is NUL-free and fits its field. */
  lemma ConnectRoundTripIff(c: ConnectMsg)
    ensures DecodeConnect(EncodeConnect(c)) == c <==> |c.reader| <= NAME_SIZE && NulFree(c.reader)
  {
    ConnectNumbers(c);
    if |c.reader| <= NAME_SIZE {
      ConnectName(c);
      CStringOfPadded(c.reader, Zeros(128 - |c.reader|));
    }
  }

  /** The client refuses names of 128 bytes and more before it sends anything. */
  function ConnectRequest(context: u32, reader: seq<byte>, preferred: u32): Option<seq<byte>> {
    if |reader| >= NAME_SIZE then None else Some(EncodeConnect(ConnectMsg(context, reader, 2, preferred, 0, 0, 0)))
  }

  /** The name the daemon looks up: the terminated string of the name field. */
  function RequestedReader(body: seq<byte>): seq<byte>
    requires |body| == CONNECT_SIZE
  {
    CString(body[4..132])
  }

  /** A name arrives at the daemon unchanged if and only if it passes the guard and is NUL-free. */
  lemma ConnectNameArrivesIff(context: u32, reader: seq<byte>, preferred: u32)
    ensures var req := ConnectRequest(context, reader, preferred);
            (req.Some? && RequestedReader(req.value) == reader) <==> |reader| < NAME_SIZE && NulFree(reader)
  {
    var c := ConnectMsg(context, reader, 2, preferred, 0, 0, 0);
    ConnectNumbers(c);
    ConnectRoundTripIff(c);
  }

  function AnswerWrites(body: seq<byte>, handle: u32, present: bool, rv: u32): seq<Write>
    requires |body| == CONNECT_SIZE
  {
    [Write(0, body[..132]), Write(132, body[132..140]), Write(140, LE32(handle)),
     Write(144, if present then LE32(T1) else []), Write(148, LE32(rv))]
  }

  /** The daemon's answer: the request's name and modes copied, then handle, protocol and result. */
  function ConnectAnswer(body: seq<byte>, handle: u32, present: bool, rv: u32): (b: seq<byte>)
    requires |body| == CONNECT_SIZE
    ensures |b| == CONNECT_SIZE
  {
    PutAll(Zeros(CONNECT_SIZE), AnswerWrites(body, handle, present, rv))
  }

  lemma AnswerCopies(body: seq<byte>, handle: u32, present: bool, rv: u32)
    requires |body| == CONNECT_SIZE
    ensures var b := ConnectAnswer(body, handle, present, rv);
            b[0..132] == body[0..132] && b[132..140] == body[132..140]
  {
    var writes := AnswerWrites(body, handle, present, rv);
    WrittenField(Zeros(CONNECT_SIZE), writes, 0);
    WrittenField(Zeros(CONNECT_SIZE), writes, 1);
  }

  lemma AnswerResult(body: seq<byte>, handle: u32, present: bool, rv: u32)
    requires |body| == CONNECT_SIZE
    ensures var b := ConnectAnswer(body, handle, present, rv);
            FromLE32(b[140..144]) == handle && FromLE32(b[148..152]) == rv
  {
    var writes := AnswerWrites(body, handle, present, rv);
    WrittenField(Zeros(CONNECT_SIZE), writes, 2);
    WrittenField(Zeros(CONNECT_SIZE), writes, 4);
    WordRoundTrip(handle);
    WordRoundTrip(rv);
  }

  lemma AnswerProtocol(body: seq<byte>, handle: u32, present: bool, rv: u32)
    requires |body| == CONNECT_SIZE
    ensures FromLE32(ConnectAnswer(body, handle, present, rv)[144..148]) == if present then T1 else 0
  {
    var writes := AnswerWrites(body, handle, present, rv);
    if present {
      WrittenField(Zeros(CONNECT_SIZE), writes, 3);
      WordRoundTrip(T1);
    } else {
      UntouchedRange(Zeros(CONNECT_SIZE), writes, 144, 148);
    }
  }

  /** Buffers that agree on a range agree on every part of it. */
  lemma SamePart(x: seq<byte>, y: seq<byte>, a: nat, b: nat, lo: nat, hi: nat)
    requires a <= lo <= hi <= b <= |x| && b <= |y| && x[a..b] == y[a..b]
    ensures x[lo..hi] == y[lo..hi]
  {
    SliceOfSlice(x, a, x[a..b], lo - a, hi - a, lo, hi);
    SliceOfSlice(y, a, y[a..b], lo - a, hi - a, lo, hi);
  }

  /** The client decodes its own request completed by the daemon's handle, protocol and result. */
  lemma ConnectAnswerArrives(body: seq<byte>, handle: u32, present: bool, rv: u32)
    requires |body| == CONNECT_SIZE
    ensures DecodeConnect(ConnectAnswer(body, handle, present, rv))
         == DecodeConnect(body).(card := handle, activeProtocol := if present then T1 else 0, rv := rv)
  {
    var b := ConnectAnswer(body, handle, present, rv);
    AnswerCopies(body, handle, present, rv);
    AnswerResult(body, handle, present, rv);
    AnswerProtocol(body, handle, present, rv);
    SamePart(b, body, 0, 132, 0, 4);
    SamePart(b, body, 0, 132, 4, 132);
    SamePart(b, body, 132, 140, 132, 136);
    SamePart(b, body, 132, 140, 136, 140);
  }

  const MAX_ATTR: nat := 264
  const GETSET_SIZE: nat := 280

  datatype GetsetMsg = GetsetMsg(card: u32, attrId: u32, attr: seq<byte>, attrLen: u32, rv: u32)

  function GetsetWrites(g: GetsetMsg): seq<Write> {
    [Write(0, LE32(g.card)), Write(4, LE32(g.attrId)), Write(8, g.attr), Write(272, LE32(g.attrLen)), Write(276, LE32(g.rv))]
  }

  function EncodeGetset(g: GetsetMsg): (b: seq<byte>)
    ensures |b| == GETSET_SIZE
  {
    PutAll(Zeros(GETSET_SIZE), GetsetWrites(g))
  }

  function DecodeGetset(b: seq<byte>): GetsetMsg
    requires |b| == GETSET_SIZE
  {
    var claimed := FromLE32(b[272..276]) as nat;
    var attrLen := if claimed > MAX_ATTR then 0 else claimed;
    GetsetMsg(FromLE32(b[0..4]), FromLE32(b[4..8]), b[8..8 + attrLen], attrLen, FromLE32(b[276..280]))
  }

  /** Every field of a getset struct at its offset. */
  lemma GetsetInFull(g: GetsetMsg)
    requires |g.attr| <= 264
    ensures var b := EncodeGetset(g);
            && |b| == 280
            && b[0..4] == LE32(g.card) && b[4..8] == LE32(g.attrId) && b[8..8 + |g.attr|] == g.attr
            && b[272..276] == LE32(g.attrLen) && b[276..280] == LE32(g.rv)
  {
    var zero, writes := Zeros(GETSET_SIZE), GetsetWrites(g);
    WrittenField(zero, writes, 0);
    WrittenField(zero, writes, 1);
    WrittenField(zero, writes, 2);
    WrittenField(zero, writes, 3);
    WrittenField(zero, writes, 4);
  }

  /** An attribute answer reads back as written; a value that overflows the buffer reads as empty, all else intact. */
  lemma AttribRoundTrip(g: GetsetMsg)
    requires g.attrLen == |g.attr|
    ensures DecodeGetset(EncodeGetset(g)) == if |g.attr| <= MAX_ATTR then g else g.(attr := [], attrLen := 0)
  {
    var zero, writes := Zeros(GETSET_SIZE), GetsetWrites(g);
    WrittenField(zero, writes, 0);
    WrittenField(zero, writes, 1);
    WrittenField(zero, writes, 3);
    WrittenField(zero, writes, 4);
    WordRoundTrip(g.card);
    WordRoundTrip(g.attrId);
    WordRoundTrip(g.attrLen);
    WordRoundTrip(g.rv);
    if |g.attr| <= MAX_ATTR {
      WrittenField(zero, writes, 2);
    }
  }

  // ---------------------------------------------------------------------------
  // Framing

  datatype Message = Message(command: u32, body: seq<byte>)

  const MAX_BODY: nat := 0x100000

  function WriteMessage(m: Message): seq<byte>
    requires |m.body| < U32_RANGE
  {
    LE32(|m.body|) + LE32(m.command) + m.body
  }

  /** One framed request off the stream and the rest of it; None when it is cut short or oversized. */
  function ReadMessage(stream: seq<byte>): (r: Option<(Message, seq<byte>)>)
    ensures r.Some? ==> |r.value.1| < |stream|
  {
    if |stream| < 8 then None
    else
      var size := FromLE32(stream[0..4]) as nat;
      if size > MAX_BODY || 8 + size > |stream| then None
      else Some((Message(FromLE32(stream[4..8]), stream[8..8 + size]), stream[8 + size..]))
  }

  function WriteAll(ms: seq<Message>): seq<byte>
    requires forall m :: m in ms ==> |m.body| <= MAX_BODY
  {
    if ms == [] then [] else WriteMessage(ms[0]) + WriteAll(ms[1..])
  }

  function ReadAll(stream: seq<byte>): seq<Message>
    decreases |stream|
  {
    var r := ReadMessage(stream);
    if r.None? then [] else [r.value.0] + ReadAll(r.value.1)
  }

  lemma ReadsFirst(m: Message, rest: seq<byte>)
    requires |m.body| <= MAX_BODY
    ensures ReadMessage(WriteMessage(m) + rest) == Some((m, rest))
  {
    var stream, n := WriteMessage(m) + rest, |m.body|;
    assert stream[0..4] == LE32(n) && stream[4..8] == LE32(m.command);
    assert stream[8..8 + n] == m.body && stream[8 + n..] == rest;
    WordRoundTrip(n);
    WordRoundTrip(m.command);
  }

  /** A frame: the body's size at 0, the command at 4, the body from 8 on. */
  lemma FrameInFull(m: Message)
    requires |m.body| < U32_RANGE
    ensures var b := WriteMessage(m);
            && |b| == 8 + |m.body| && b[8..] == m.body
            && |m.body| == b[0] as int + 0x100 * (b[1] as int) + 0x1_0000 * (b[2] as int) + 0x100_0000 * (b[3] as int)
            && m.command == b[4] as int + 0x100 * (b[5] as int) + 0x1_0000 * (b[6] as int) + 0x100_0000 * (b[7] as int)
  {
    LowestByteFirst(|m.body|);
    LowestByteFirst(m.command);
  }

  /** The daemon reads off the stream exactly the requests the client framed. */
  lemma {:induction false} StreamRoundTrip(ms: seq<Message>)
    requires forall m :: m in ms ==> |m.body| <= MAX_BODY
    ensures ReadAll(WriteAll(ms)) == ms
  {
    if ms != [] {
      assert ms[0] in ms;
      ReadsFirst(ms[0], WriteAll(ms[1..]));
      StreamRoundTrip(ms[1..]);
      assert ms == [ms[0]] + ms[1..];
    } else {
      assert ReadMessage([]).None?;
    }
  }
}
