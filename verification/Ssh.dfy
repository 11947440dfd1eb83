/**
 The SSH wire format of sign.go: the sticky reader, the field encoder, the SSHSIG
 layouts built from it and the OpenSSH private key container (string and uint32 are
 those of section 5 of RFC 4251). Armor, base64, hashing and ed25519 are parameters.
 */
module Ssh {
  import opened Common

  // ---------------------------------------------------------------------------
  // Numbers and text

  /** The n low bytes of a number, the highest first. */
  function BigEndian(x: nat, n: nat): (b: seq<byte>)
    ensures |b| == n
    decreases n
  {
    if n == 0 then [] else BigEndian(x / 256, n - 1) + [(x % 256) as byte]
  }

  function FromBigEndian(b: seq<byte>): nat {
    if b == [] then 0 else 256 * FromBigEndian(b[..|b| - 1]) + b[|b| - 1] as int
  }

  function Limit(n: nat): nat {
    if n == 0 then 1 else 256 * Limit(n - 1)
  }

  lemma {:induction false} BigEndianRoundTrip(x: nat, n: nat)
    requires x < Limit(n)
    ensures FromBigEndian(BigEndian(x, n)) == x
    decreases n
  {
    if n == 0 {
    } else {
      BigEndianRoundTrip(x / 256, n - 1);
      assert BigEndian(x, n)[..n - 1] == BigEndian(x / 256, n - 1);
    }
  }

  lemma {:induction false} BytesRoundTrip(b: seq<byte>)
    ensures BigEndian(FromBigEndian(b), |b|) == b && FromBigEndian(b) < Limit(|b|)
  {
    if b == [] {
    } else {
      var high, low := FromBigEndian(b[..|b| - 1]), b[|b| - 1] as int;
      BytesRoundTrip(b[..|b| - 1]);
      assert (256 * high + low) / 256 == high && (256 * high + low) % 256 == low;
    }
  }

  const WORD: nat := 4

  lemma WordLimit()
    ensures Limit(WORD) == 0x1_0000_0000
  {
    assert Limit(2) == 65536 && Limit(WORD) == 65536 * Limit(2);
  }

  function BE32(x: u32): (b: seq<byte>)
    ensures |b| == 4
  {
    BigEndian(x, WORD)
  }

  function FromBE32(b: seq<byte>): u32
    requires |b| == 4
  {
    BytesRoundTrip(b);
    WordLimit();
    FromBigEndian(b)
  }

  lemma NumberRoundTrip(x: u32)
    ensures FromBE32(BE32(x)) == x
  {
    WordLimit();
    BigEndianRoundTrip(x, WORD);
  }

  /** The highest byte stands first, as in section 5 of RFC 4251. */
  lemma HighestByteFirst(x: u32)
    ensures var b := BE32(x);
            x == 0x100_0000 * (b[0] as int) + 0x1_0000 * (b[1] as int) + 0x100 * (b[2] as int) + b[3] as int
  {
    var q1 := x / 256;
    var q2 := q1 / 256;
    var q3 := q2 / 256;
    var b1 := BigEndian(q3, 1);
    assert b1 == [(q3 % 256) as byte];
    assert BigEndian(q2, 2) == b1 + [(q2 % 256) as byte];
    assert BigEndian(q1, 3) == b1 + [(q2 % 256) as byte] + [(q1 % 256) as byte];
    assert BE32(x) == b1 + [(q2 % 256) as byte] + [(q1 % 256) as byte] + [(x % 256) as byte];
    assert q3 < 256;
  }

  function Ascii(s: string): (b: seq<byte>)
    ensures |b| == |s|
  {
    seq(|s|, i requires 0 <= i < |s| => (s[i] as int % 256) as byte)
  }

  // ---------------------------------------------------------------------------
  // The reader

  datatype Cursor = Cursor(data: seq<byte>, failed: bool)

  function TakeBytes(c: Cursor, n: int): (Cursor, Option<seq<byte>>) {
    if c.failed || n < 0 || |c.data| < n then (c.(failed := true), None)
    else (c.(data := c.data[n..]), Some(c.data[..n]))
  }

  function TakeNumber(c: Cursor): (Cursor, u32) {
    var (c', b) := TakeBytes(c, 4);
    (c', if b.Some? then FromBE32(b.value) else 0)
  }

  /** The length is compared with the remaining length as a uint32. */
  function TakeString(c: Cursor): (Cursor, seq<byte>) {
    var (c1, n) := TakeNumber(c);
    if c1.failed then (c1, [])
    else if n > |c1.data| % 0x1_0000_0000 then (c1.(failed := true), [])
    else
      var (c2, b) := TakeBytes(c1, n);
      (c2, if b.Some? then b.value else [])
  }

  class SshReader {
    var data: seq<byte>
    var failed: bool

    function Value(): Cursor
      reads this
    {
      Cursor(data, failed)
    }

    constructor (data: seq<byte>)
      ensures Value() == Cursor(data, false)
    {
      this.data, failed := data, false;
    }

    method Bytes(n: int) returns (out: Option<seq<byte>>)
      modifies this
      ensures (Value(), out) == TakeBytes(old(Value()), n)
    {
      if failed || n < 0 || |data| < n {
        failed := true;
        return None;
      }
      out := Some(data[..n]);
      data := data[n..];
    }

    method Uint32() returns (x: u32)
      modifies this
      ensures (Value(), x) == TakeNumber(old(Value()))
    {
      var b := Bytes(4);
      if b.Some? {
        return FromBE32(b.value);
      }
      return 0;
    }

    method SshString() returns (s: seq<byte>)
      modifies this
      ensures (Value(), s) == TakeString(old(Value()))
    {
      var n := Uint32();
      if failed {
        return [];
      }
      if n > |data| % 0x1_0000_0000 {
        failed := true;
        return [];
      }
      var b := Bytes(n);
      if b.Some? {
        return b.value;
      }
      return [];
    }
  }

  // ---------------------------------------------------------------------------
  // One appended string

  /** appendSSHString: the length prefix is a uint32 conversion. */
  function AppendSSHString(dst: seq<byte>, s: seq<byte>): seq<byte> {
    dst + BE32(|s| % 0x1_0000_0000) + s
  }

  lemma NumberIsRead(x: u32, rest: seq<byte>)
    ensures TakeNumber(Cursor(BE32(x) + rest, false)) == (Cursor(rest, false), x)
  {
    var data := BE32(x) + rest;
    assert data[..4] == BE32(x) && data[4..] == rest;
    NumberRoundTrip(x);
  }

  /**
   A string is read back, with what follows left over, if and only if its length fits the
   prefix and the remaining length does not wrap below it.
   */
  lemma AppendedStringIsReadIff(s: seq<byte>, rest: seq<byte>)
    ensures TakeString(Cursor(AppendSSHString([], s) + rest, false)) == (Cursor(rest, false), s)
        <==> |s| < U32_RANGE && |s| <= (|s| + |rest|) % 0x1_0000_0000
  {
    var n := |s| % 0x1_0000_0000;
    assert AppendSSHString([], s) + rest == BE32(n) + (s + rest);
    NumberIsRead(n, s + rest);
    if |s| < U32_RANGE {
      assert (s + rest)[..|s|] == s && (s + rest)[|s|..] == rest;
    }
  }

  // ---------------------------------------------------------------------------
  // Lists of fields

  datatype Field = Raw(bytes: seq<byte>) | Num(x: u32) | Str(s: seq<byte>)

  function Bytes(f: Field): seq<byte> {
    match f
    case Raw(b) => b
    case Num(x) => BE32(x)
    case Str(s) => AppendSSHString([], s)
  }

  /** The bytes of all elements, one after the other. */
  function Concat<T>(f: T -> seq<byte>, xs: seq<T>): seq<byte> {
    if xs == [] then [] else f(xs[0]) + Concat(f, xs[1..])
  }

  function Encode(fields: seq<Field>): seq<byte> {
    Concat(Bytes, fields)
  }

  lemma ConcatCons<T>(f: T -> seq<byte>, x: T, xs: seq<T>)
    ensures Concat(f, [x] + xs) == f(x) + Concat(f, xs)
  {
    assert ([x] + xs)[1..] == xs;
  }

  lemma {:induction false} ConcatOfConcat<T>(f: T -> seq<byte>, a: seq<T>, b: seq<T>)
    ensures Concat(f, a + b) == Concat(f, a) + Concat(f, b)
    decreases |a|
  {
    if a == [] {
      assert a + b == b;
    } else {
      ConcatOfConcat(f, a[1..], b);
      ConcatCons(f, a[0], a[1..] + b);
      assert [a[0]] + (a[1..] + b) == a + b;
    }
  }

  lemma EncodeCons(x: Field, f: seq<Field>)
    ensures Encode([x] + f) == Bytes(x) + Encode(f)
  {
    ConcatCons(Bytes, x, f);
  }

  /** Reading a field of the same shape: a failed read answers the empty value. */
  function TakeField(c: Cursor, shape: Field): (Cursor, Field) {
    match shape
    case Raw(b) => var (c', out) := TakeBytes(c, |b|); (c', Raw(if out.Some? then out.value else []))
    case Num(_) => var (c', x) := TakeNumber(c); (c', Num(x))
    case Str(_) => var (c', s) := TakeString(c); (c', Str(s))
  }

  function TakeFields(c: Cursor, shapes: seq<Field>): (Cursor, seq<Field>)
    decreases |shapes|
  {
    if shapes == [] then (c, [])
    else
      var (c1, f) := TakeField(c, shapes[0]);
      var (c2, fs) := TakeFields(c1, shapes[1..]);
      (c2, [f] + fs)
  }

  lemma FieldIsRead(f: Field, rest: seq<byte>)
    requires |Bytes(f)| + |rest| < U32_RANGE
    ensures TakeField(Cursor(Bytes(f) + rest, false), f) == (Cursor(rest, false), f)
  {
    match f
    case Raw(b) => assert (b + rest)[..|b|] == b && (b + rest)[|b|..] == rest;
    case Num(x) => NumberIsRead(x, rest);
    case Str(s) => AppendedStringIsReadIff(s, rest);
  }

  /** Reading field by field recovers every field of a list, with what follows left over. */
  lemma {:induction false} FieldsAreRead(fields: seq<Field>, rest: seq<byte>)
    requires |Encode(fields)| + |rest| < U32_RANGE
    ensures TakeFields(Cursor(Encode(fields) + rest, false), fields) == (Cursor(rest, false), fields)
    decreases |fields|
  {
    if fields == [] {
      assert Encode(fields) + rest == rest;
    } else {
      var later := Encode(fields[1..]);
      assert fields == [fields[0]] + fields[1..];
      EncodeCons(fields[0], fields[1..]);
      assert Encode(fields) + rest == Bytes(fields[0]) + (later + rest);
      FieldIsRead(fields[0], later + rest);
      FieldsAreRead(fields[1..], rest);
      var c := Cursor(later + rest, false);
      assert TakeFields(Cursor(Encode(fields) + rest, false), fields)
          == (TakeFields(c, fields[1..]).0, [fields[0]] + TakeFields(c, fields[1..]).1);
      assert [fields[0]] + fields[1..] == fields;
    }
  }

  lemma {:induction false} FailureSticks(c: Cursor, shapes: seq<Field>)
    requires c.failed
    ensures TakeFields(c, shapes).0 == c
    decreases |shapes|
  {
    if shapes == [] {
    } else {
      FailureSticks(TakeField(c, shapes[0]).0, shapes[1..]);
    }
  }

  lemma CutFieldFails(f: Field, cut: seq<byte>)
    requires cut < Bytes(f) && |Bytes(f)| < U32_RANGE
    ensures TakeField(Cursor(cut, false), f).0.failed
  {
    if f.Str? && |cut| >= 4 {
      assert cut[..4] == Bytes(f)[..4] == BE32(|f.s|);
      NumberRoundTrip(|f.s|);
    }
  }

  /** Every proper prefix of an encoded list ends the reading with the error set. */
  lemma {:induction false} CutListFails(fields: seq<Field>, cut: seq<byte>)
    requires cut < Encode(fields) && |Encode(fields)| < U32_RANGE
    ensures TakeFields(Cursor(cut, false), fields).0.failed
    decreases |fields|
  {
    var first, later := Bytes(fields[0]), Encode(fields[1..]);
    assert fields == [fields[0]] + fields[1..];
    EncodeCons(fields[0], fields[1..]);
    if |cut| < |first| {
      assert first[..|cut|] == (first + later)[..|cut|] == cut;
      CutFieldFails(fields[0], cut);
      FailureSticks(TakeField(Cursor(cut, false), fields[0]).0, fields[1..]);
    } else {
      var rest := cut[|first|..];
      assert cut == first + rest;
      assert rest == (first + later)[|first|..][..|rest|];
      FieldIsRead(fields[0], rest);
      CutListFails(fields[1..], rest);
    }
  }

  // ---------------------------------------------------------------------------
  // SSHSIG layouts

  const MAGIC := "SSHSIG"
  const NAMESPACE := "pcscid"
  const HASH := "sha512"
  const ALGORITHM := "ssh-ed25519"

  function PublicFields(pub: seq<byte>): seq<Field> {
    [Str(Ascii(ALGORITHM)), Str(pub)]
  }

  function SignatureFields(pub: seq<byte>, signature: seq<byte>): seq<Field> {
    [Raw(Ascii(MAGIC)), Num(1)]
    + [Str(Encode(PublicFields(pub))), Str(Ascii(NAMESPACE))]
    + [Str([]), Str(Ascii(HASH))]
    + [Str(Encode([Str(Ascii(ALGORITHM)), Str(signature)]))]
  }

  function SignedFields(namespace: seq<byte>, digest: seq<byte>): seq<Field> {
    [Raw(Ascii(MAGIC)), Str(namespace), Str([]), Str(Ascii(HASH)), Str(digest)]
  }

  /** The blob of Sign before base64, as the appends build it. */
  function SignBlob(pub: seq<byte>, signature: seq<byte>): seq<byte> {
    var public := AppendSSHString(AppendSSHString([], Ascii(ALGORITHM)), pub);
    var blob := AppendSSHString(AppendSSHString([], Ascii(ALGORITHM)), signature);
    var head := AppendSSHString(Ascii(MAGIC) + BE32(1), public);
    AppendSSHString(AppendSSHString(AppendSSHString(AppendSSHString(head, Ascii(NAMESPACE)), []), Ascii(HASH)), blob)
  }

  function SignedMessage(namespace: seq<byte>, digest: seq<byte>): seq<byte> {
    var head := AppendSSHString(AppendSSHString(Ascii(MAGIC), namespace), []);
    AppendSSHString(AppendSSHString(head, Ascii(HASH)), digest)
  }

  lemma SmallWord(n: nat)
    requires n < 256
    ensures BE32(n) == [0, 0, 0, n as byte]
  {
    assert BigEndian(0, 1) == [0] && BigEndian(0, 2) == [0] + [0] && BigEndian(0, 3) == [0, 0] + [0];
    assert BE32(n) == BigEndian(0, 3) + [n as byte];
  }

  /** The names of the layouts and the first bytes of a key container. */
  lemma NamesInBytes()
    ensures Ascii(MAGIC) == [0x53, 0x53, 0x48, 0x53, 0x49, 0x47]
    ensures Ascii(ALGORITHM) == [0x73, 0x73, 0x68, 0x2D, 0x65, 0x64, 0x32, 0x35, 0x35, 0x31, 0x39]
    ensures Ascii(NAMESPACE) == [0x70, 0x63, 0x73, 0x63, 0x69, 0x64]
    ensures Ascii(HASH) == [0x73, 0x68, 0x61, 0x35, 0x31, 0x32]
    ensures Ascii(NONE) == [0x6E, 0x6F, 0x6E, 0x65]
    ensures KeyMagic() == [0x6F, 0x70, 0x65, 0x6E, 0x73, 0x73, 0x68, 0x2D, 0x6B, 0x65, 0x79, 0x2D, 0x76, 0x31, 0]
  {}

  /** Byte strings one after the other. */
  function Chained(parts: seq<seq<byte>>): seq<byte> {
    if parts == [] then [] else Chained(parts[..|parts| - 1]) + parts[|parts| - 1]
  }

  lemma ChainOneMore(parts: seq<seq<byte>>, x: seq<byte>)
    ensures Chained(parts + [x]) == Chained(parts) + x
  {
    assert (parts + [x])[..|parts|] == parts;
  }

  lemma TwoMoreLinks(parts: seq<seq<byte>>, x: seq<byte>, y: seq<byte>)
    ensures Chained(parts + [x, y]) == Chained(parts) + x + y
  {
    ChainOneMore(parts, x);
    ChainOneMore(parts + [x], y);
    assert parts + [x] + [y] == parts + [x, y];
  }

  lemma SizeOf(s: seq<byte>)
    requires |s| < 256
    ensures BE32(|s| % 0x1_0000_0000) == [0, 0, 0, |s| as byte]
  {
    SmallWord(|s|);
  }

  /** A short string behind the four bytes of its length. */
  lemma AppendsTwoParts(dst: seq<byte>, parts: seq<seq<byte>>, s: seq<byte>)
    requires dst == Chained(parts) && |s| < 256
    ensures AppendSSHString(dst, s) == Chained(parts + [[0, 0, 0, |s| as byte], s])
  {
    SizeOf(s);
    TwoMoreLinks(parts, [0, 0, 0, |s| as byte], s);
  }

  lemma OneLink(x: seq<byte>)
    ensures Chained([x]) == x
  {
    ChainOneMore([], x);
    assert [] + [x] == [x] && [] + x == x;
  }

  lemma SignedParts(namespace: seq<byte>, digest: seq<byte>, magic: seq<byte>, hash: seq<byte>)
    requires |namespace| < 256 && |digest| < 256 && Ascii(MAGIC) == magic && Ascii(HASH) == hash && |hash| < 256
    ensures SignedMessage(namespace, digest)
         == Chained([magic] + [[0, 0, 0, |namespace| as byte], namespace] + [[0, 0, 0, 0], []]
                   + [[0, 0, 0, |hash| as byte], hash] + [[0, 0, 0, |digest| as byte], digest])
  {
    OneLink(magic);
    var p1 := [magic] + [[0, 0, 0, |namespace| as byte], namespace];
    var p2 := p1 + [[0, 0, 0, 0], []];
    var p3 := p2 + [[0, 0, 0, |hash| as byte], hash];
    AppendsTwoParts(magic, [magic], namespace);
    AppendsTwoParts(Chained(p1), p1, []);
    AppendsTwoParts(Chained(p2), p2, hash);
    AppendsTwoParts(Chained(p3), p3, digest);
  }

  /** The signed bytes: "SSHSIG", the namespace, nothing, "sha512" and the digest, each behind its length. */
  lemma SignedMessageInFull(namespace: seq<byte>, digest: seq<byte>)
    requires |namespace| < 256 && |digest| < 256
    ensures SignedMessage(namespace, digest)
         == Chained([[0x53, 0x53, 0x48, 0x53, 0x49, 0x47]] + [[0, 0, 0, |namespace| as byte], namespace] + [[0, 0, 0, 0], []]
                   + [[0, 0, 0, 6], [0x73, 0x68, 0x61, 0x35, 0x31, 0x32]] + [[0, 0, 0, |digest| as byte], digest])
  {
    NamesInBytes();
    SignedParts(namespace, digest, [0x53, 0x53, 0x48, 0x53, 0x49, 0x47], [0x73, 0x68, 0x61, 0x35, 0x31, 0x32]);
  }

  /** A key or signature with the name "ssh-ed25519", both behind their lengths. */
  function Named(key: seq<byte>): seq<byte>
    requires |key| < 256
  {
    Chained([[0, 0, 0, 11], [0x73, 0x73, 0x68, 0x2D, 0x65, 0x64, 0x32, 0x35, 0x35, 0x31, 0x39]] + [[0, 0, 0, |key| as byte], key])
  }

  lemma PairParts(key: seq<byte>, name: seq<byte>)
    requires |key| < 256 && Ascii(ALGORITHM) == name && |name| < 256
    ensures AppendSSHString(AppendSSHString([], Ascii(ALGORITHM)), key)
         == Chained([[0, 0, 0, |name| as byte], name] + [[0, 0, 0, |key| as byte], key])
  {
    var p := [[0, 0, 0, |name| as byte], name];
    AppendsTwoParts([], [], name);
    assert [] + p == p;
    AppendsTwoParts(Chained(p), p, key);
  }

  lemma PairInFull(key: seq<byte>)
    requires |key| < 256
    ensures AppendSSHString(AppendSSHString([], Ascii(ALGORITHM)), key) == Named(key)
  {
    NamesInBytes();
    PairParts(key, [0x73, 0x73, 0x68, 0x2D, 0x65, 0x64, 0x32, 0x35, 0x35, 0x31, 0x39]);
  }

  lemma BlobParts(pub: seq<byte>, signature: seq<byte>, magic: seq<byte>, namespace: seq<byte>, hash: seq<byte>,
                  public: seq<byte>, blob: seq<byte>)
    requires Ascii(MAGIC) == magic && Ascii(NAMESPACE) == namespace && Ascii(HASH) == hash
    requires public == AppendSSHString(AppendSSHString([], Ascii(ALGORITHM)), pub)
    requires blob == AppendSSHString(AppendSSHString([], Ascii(ALGORITHM)), signature)
    requires |public| < 256 && |blob| < 256 && |namespace| < 256 && |hash| < 256
    ensures SignBlob(pub, signature)
         == Chained([magic, [0, 0, 0, 1]] + [[0, 0, 0, |public| as byte], public]
                   + [[0, 0, 0, |namespace| as byte], namespace] + [[0, 0, 0, 0], []]
                   + [[0, 0, 0, |hash| as byte], hash] + [[0, 0, 0, |blob| as byte], blob])
  {
    var p0 := [magic, [0, 0, 0, 1]];
    SmallWord(1);
    OneLink(magic);
    ChainOneMore([magic], [0, 0, 0, 1]);
    assert [magic] + [[0, 0, 0, 1]] == p0;
    var p1 := p0 + [[0, 0, 0, |public| as byte], public];
    var p2 := p1 + [[0, 0, 0, |namespace| as byte], namespace];
    var p3 := p2 + [[0, 0, 0, 0], []];
    var p4 := p3 + [[0, 0, 0, |hash| as byte], hash];
    AppendsTwoParts(Chained(p0), p0, public);
    AppendsTwoParts(Chained(p1), p1, namespace);
    AppendsTwoParts(Chained(p2), p2, []);
    AppendsTwoParts(Chained(p3), p3, hash);
    AppendsTwoParts(Chained(p4), p4, blob);
  }

  lemma NamedLength(key: seq<byte>)
    requires |key| < 237
    ensures |AppendSSHString(AppendSSHString([], Ascii(ALGORITHM)), key)| == |key| + 19
  {}

  /**
   The signature blob byte by byte, for keys and signatures of any usual length: "SSHSIG",
   version 1, the public key, "pcscid", nothing, "sha512" and the signature.
   */
  lemma SignBlobInFull(pub: seq<byte>, signature: seq<byte>)
    requires |pub| < 237 && |signature| < 237
    ensures SignBlob(pub, signature)
         == Chained([[0x53, 0x53, 0x48, 0x53, 0x49, 0x47], [0, 0, 0, 1]] + [[0, 0, 0, (|pub| + 19) as byte], Named(pub)]
                   + [[0, 0, 0, 6], [0x70, 0x63, 0x73, 0x63, 0x69, 0x64]] + [[0, 0, 0, 0], []]
                   + [[0, 0, 0, 6], [0x73, 0x68, 0x61, 0x35, 0x31, 0x32]]
                   + [[0, 0, 0, (|signature| + 19) as byte], Named(signature)])
  {
    NamedLength(pub);
    NamedLength(signature);
    PairInFull(pub);
    PairInFull(signature);
    NamesInBytes();
    BlobParts(pub, signature, [0x53, 0x53, 0x48, 0x53, 0x49, 0x47], [0x70, 0x63, 0x73, 0x63, 0x69, 0x64],
              [0x73, 0x68, 0x61, 0x35, 0x31, 0x32], Named(pub), Named(signature));
  }

  lemma AppendIsOneMoreField(dst: seq<byte>, fields: seq<Field>, s: seq<byte>)
    requires dst == Encode(fields)
    ensures AppendSSHString(dst, s) == Encode(fields + [Str(s)])
  {
    ConcatOfConcat(Bytes, fields, [Str(s)]);
    assert [Str(s)] + [] == [Str(s)];
    EncodeCons(Str(s), []);
    assert AppendSSHString(dst, s) == dst + AppendSSHString([], s);
  }

  lemma PairIsFields(first: seq<byte>, second: seq<byte>)
    ensures AppendSSHString(AppendSSHString([], first), second) == Encode([Str(first), Str(second)])
  {
    assert [] + [Str(first)] == [Str(first)] && [Str(first)] + [Str(second)] == [Str(first), Str(second)];
    AppendIsOneMoreField([], [], first);
    AppendIsOneMoreField(AppendSSHString([], first), [Str(first)], second);
  }

  lemma HeadIsFields()
    ensures Ascii(MAGIC) + BE32(1) == Encode([Raw(Ascii(MAGIC)), Num(1)])
  {
    var f: seq<Field> := [Raw(Ascii(MAGIC)), Num(1)];
    assert f == [Raw(Ascii(MAGIC))] + ([Num(1)] + []);
    EncodeCons(Raw(Ascii(MAGIC)), [Num(1)] + []);
    EncodeCons(Num(1), []);
  }

  lemma TwoMoreFields(dst: seq<byte>, fields: seq<Field>, first: seq<byte>, second: seq<byte>)
    requires dst == Encode(fields)
    ensures AppendSSHString(AppendSSHString(dst, first), second) == Encode(fields + [Str(first), Str(second)])
  {
    AppendIsOneMoreField(dst, fields, first);
    AppendIsOneMoreField(AppendSSHString(dst, first), fields + [Str(first)], second);
    assert fields + [Str(first)] + [Str(second)] == fields + [Str(first), Str(second)];
  }

  lemma SignBlobIsFields(pub: seq<byte>, signature: seq<byte>)
    ensures SignBlob(pub, signature) == Encode(SignatureFields(pub, signature))
  {
    HeadIsFields();
    PairIsFields(Ascii(ALGORITHM), pub);
    PairIsFields(Ascii(ALGORITHM), signature);
    var public, blob := Encode(PublicFields(pub)), Encode([Str(Ascii(ALGORITHM)), Str(signature)]);
    var f1: seq<Field> := [Raw(Ascii(MAGIC)), Num(1)];
    var f2 := f1 + [Str(public), Str(Ascii(NAMESPACE))];
    var f3 := f2 + [Str([]), Str(Ascii(HASH))];
    TwoMoreFields(Encode(f1), f1, public, Ascii(NAMESPACE));
    TwoMoreFields(Encode(f2), f2, [], Ascii(HASH));
    AppendIsOneMoreField(Encode(f3), f3, blob);
  }

  lemma SignBlobLength(pub: seq<byte>, signature: seq<byte>)
    ensures |SignBlob(pub, signature)| == 80 + |pub| + |signature|
  {
  }

  /** A signature blob reads back field by field with nothing left; cut anywhere, it ends in the error. */
  lemma SignBlobRoundTrip(pub: seq<byte>, signature: seq<byte>, cut: seq<byte>)
    requires |pub| == 32 && |signature| == 64
    ensures TakeFields(Cursor(SignBlob(pub, signature), false), SignatureFields(pub, signature))
         == (Cursor([], false), SignatureFields(pub, signature))
    ensures TakeFields(Cursor(Encode(PublicFields(pub)), false), PublicFields(pub)) == (Cursor([], false), PublicFields(pub))
    ensures cut < SignBlob(pub, signature) ==>
      TakeFields(Cursor(cut, false), SignatureFields(pub, signature)).0.failed
  {
    SignBlobIsFields(pub, signature);
    SignBlobLength(pub, signature);
    PairIsFields(Ascii(ALGORITHM), pub);
    var blob, public := SignBlob(pub, signature), Encode(PublicFields(pub));
    assert blob + [] == blob && public + [] == public;
    FieldsAreRead(SignatureFields(pub, signature), []);
    FieldsAreRead(PublicFields(pub), []);
    if cut < blob {
      CutListFails(SignatureFields(pub, signature), cut);
    }
  }

  predicate SameShape(a: seq<Field>, b: seq<Field>) {
    |a| == |b| && forall i :: 0 <= i < |a| ==>
      (a[i].Raw? && b[i].Raw? && |a[i].bytes| == |b[i].bytes|) || (a[i].Num? && b[i].Num?) || (a[i].Str? && b[i].Str?)
  }

  lemma {:induction false} ShapeDecidesReading(c: Cursor, a: seq<Field>, b: seq<Field>)
    requires SameShape(a, b)
    ensures TakeFields(c, a) == TakeFields(c, b)
    decreases |a|
  {
    if a == [] {
    } else {
      ShapeDecidesReading(TakeField(c, a[0]).0, a[1..], b[1..]);
    }
  }

  lemma SignedMessageIsFields(namespace: seq<byte>, digest: seq<byte>)
    ensures SignedMessage(namespace, digest) == Encode(SignedFields(namespace, digest))
  {
    var f1: seq<Field> := [Raw(Ascii(MAGIC))];
    assert f1 == [Raw(Ascii(MAGIC))] + [];
    EncodeCons(Raw(Ascii(MAGIC)), []);
    assert Encode(f1) == Ascii(MAGIC);
    var f2, f3 := f1 + [Str(namespace)], f1 + [Str(namespace), Str([])];
    var f4 := f3 + [Str(Ascii(HASH))];
    assert f3 == f2 + [Str([])] && SignedFields(namespace, digest) == f4 + [Str(digest)];
    AppendIsOneMoreField(Encode(f1), f1, namespace);
    AppendIsOneMoreField(Encode(f2), f2, []);
    AppendIsOneMoreField(Encode(f3), f3, Ascii(HASH));
    AppendIsOneMoreField(Encode(f4), f4, digest);
  }

  /** The signed bytes determine the namespace and the digest: no two payloads share one. */
  lemma SignedMessageIsInjective(n1: seq<byte>, d1: seq<byte>, n2: seq<byte>, d2: seq<byte>)
    ensures |SignedMessage(n1, d1)| < U32_RANGE ==>
      (SignedMessage(n1, d1) == SignedMessage(n2, d2) <==> n1 == n2 && d1 == d2)
  {
    if SignedMessage(n1, d1) == SignedMessage(n2, d2) && |SignedMessage(n1, d1)| < U32_RANGE {
      SignedMessageIsFields(n1, d1);
      SignedMessageIsFields(n2, d2);
      var f1, f2, m := SignedFields(n1, d1), SignedFields(n2, d2), SignedMessage(n1, d1);
      assert m + [] == m;
      FieldsAreRead(f1, []);
      FieldsAreRead(f2, []);
      ShapeDecidesReading(Cursor(m, false), f1, f2);
      assert f1[1] == f2[1] && f1[4] == f2[4];
    }
  }

  // ---------------------------------------------------------------------------
  // The private key container

  const KEY_MAGIC := "openssh-key-v1"
  const NONE := "none"
  const SEED_SIZE: nat := 32
  const PRIVATE_SIZE: nat := 64

  function KeyMagic(): (b: seq<byte>)
    ensures |b| == 15
  {
    Ascii(KEY_MAGIC) + [0]
  }

  datatype KeyError =
    | NotAnOpenSSHKey | Truncated | Encrypted | NoKey | CheckMismatch
    | UnsupportedType | BadPrivateHalf(length: nat) | PublicMismatch | SelfTestFailed

  function ParsePrivate(rest: seq<byte>, selfTest: seq<byte> -> bool): Result<seq<byte>, KeyError> {
    var (p1, check1) := TakeNumber(Cursor(rest, false));
    var (p2, check2) := TakeNumber(p1);
    var (p3, keyType) := TakeString(p2);
    var (p4, pub) := TakeString(p3);
    var (p5, priv) := TakeString(p4);
    if p2.failed then Err(Truncated)
    else if check1 != check2 then Err(CheckMismatch)
    else if keyType != Ascii(ALGORITHM) then Err(UnsupportedType)
    else if p5.failed then Err(Truncated)
    else if |priv| != PRIVATE_SIZE then Err(BadPrivateHalf(|priv|))
    else if priv[SEED_SIZE..] != pub then Err(PublicMismatch)
    else if !selfTest(priv) then Err(SelfTestFailed)
    else Ok(priv)
  }

  function ParseKey(blob: seq<byte>, selfTest: seq<byte> -> bool): Result<seq<byte>, KeyError> {
    var (r1, magic) := TakeBytes(Cursor(blob, false), |KeyMagic()|);
    var (r2, cipher) := TakeString(r1);
    var (r3, kdf) := TakeString(r2);
    var (r4, _) := TakeString(r3);
    var (r5, n) := TakeNumber(r4);
    var (r6, _) := TakeString(r5);
    var (r7, rest) := TakeString(r6);
    if magic != Some(KeyMagic()) then Err(NotAnOpenSSHKey)
    else if r4.failed then Err(Truncated)
    else if cipher != Ascii(NONE) || kdf != Ascii(NONE) then Err(Encrypted)
    else if !r5.failed && n < 1 then Err(NoKey)
    else if r7.failed then Err(Truncated)
    else ParsePrivate(rest, selfTest)
  }

  method ParsePrivateSection(rest: seq<byte>, selfTest: seq<byte> -> bool) returns (r: Result<seq<byte>, KeyError>)
    ensures r == ParsePrivate(rest, selfTest)
  {
    var p := new SshReader(rest);
    var check1 := p.Uint32();
    var check2 := p.Uint32();
    if p.failed {
      return Err(Truncated);
    }
    if check1 != check2 {
      return Err(CheckMismatch);
    }
    var keyType := p.SshString();
    if keyType != Ascii(ALGORITHM) {
      return Err(UnsupportedType);
    }
    var pub := p.SshString();
    var priv := p.SshString();
    if p.failed {
      return Err(Truncated);
    }
    if |priv| != PRIVATE_SIZE {
      return Err(BadPrivateHalf(|priv|));
    }
    if priv[SEED_SIZE..] != pub {
      return Err(PublicMismatch);
    }
    if !selfTest(priv) {
      return Err(SelfTestFailed);
    }
    return Ok(priv);
  }

  method ParseOpenSSHEd25519(blob: seq<byte>, selfTest: seq<byte> -> bool) returns (r: Result<seq<byte>, KeyError>)
    ensures r == ParseKey(blob, selfTest)
  {
    var reader := new SshReader(blob);
    var magic := reader.Bytes(|KeyMagic()|);
    if magic != Some(KeyMagic()) {
      return Err(NotAnOpenSSHKey);
    }
    var cipher := reader.SshString();
    var kdf := reader.SshString();
    var _ := reader.SshString();
    if reader.failed {
      return Err(Truncated);
    }
    if cipher != Ascii(NONE) || kdf != Ascii(NONE) {
      return Err(Encrypted);
    }
    var n := reader.Uint32();
    if !reader.failed && n < 1 {
      return Err(NoKey);
    }
    var _ := reader.SshString();
    var rest := reader.SshString();
    if reader.failed {
      return Err(Truncated);
    }
    r := ParsePrivateSection(rest, selfTest);
  }

  /** The outer fields of a container, and those of its private section. */
  function AnyOuter(cipher: seq<byte>, kdf: seq<byte>, options: seq<byte>, keys: u32, public: seq<byte>, section: seq<byte>): seq<Field> {
    [Raw(KeyMagic())] + ([Str(cipher)] + ([Str(kdf)] + ([Str(options)]
    + ([Num(keys)] + ([Str(public)] + ([Str(section)] + []))))))
  }

  function AnySection(check1: u32, check2: u32, keyType: seq<byte>, pub: seq<byte>, priv: seq<byte>): seq<Field> {
    [Num(check1)] + ([Num(check2)] + ([Str(keyType)] + ([Str(pub)] + ([Str(priv)] + []))))
  }

  /** Those of an unencrypted container with a matching public half. */
  function OuterFields(options: seq<byte>, keys: u32, public: seq<byte>, section: seq<byte>): seq<Field> {
    AnyOuter(Ascii(NONE), Ascii(NONE), options, keys, public, section)
  }

  function SectionFields(check: u32, pub: seq<byte>, seed: seq<byte>): seq<Field> {
    AnySection(check, check, Ascii(ALGORITHM), pub, seed + pub)
  }

  /** Reading the first of several fields leaves the others and what follows them. */
  lemma FirstFieldIsRead(x: Field, f: seq<Field>, rest: seq<byte>)
    requires |Encode([x] + f)| + |rest| < U32_RANGE
    ensures TakeField(Cursor(Encode([x] + f) + rest, false), x) == (Cursor(Encode(f) + rest, false), x)
    ensures |Encode(f)| + |rest| < U32_RANGE
  {
    EncodeCons(x, f);
    Associate(Bytes(x), Encode(f), rest);
    FieldIsRead(x, Encode(f) + rest);
  }

  /** What a private section is answered with, by its fields, the errors in the order they are checked. */
  lemma SectionAnswers(check1: u32, check2: u32, keyType: seq<byte>, pub: seq<byte>, priv: seq<byte>, tail: seq<byte>,
                       selfTest: seq<byte> -> bool)
    requires |Encode(AnySection(check1, check2, keyType, pub, priv))| + |tail| < U32_RANGE
    ensures ParsePrivate(Encode(AnySection(check1, check2, keyType, pub, priv)) + tail, selfTest)
         == if check1 != check2 then Err(CheckMismatch)
            else if keyType != [0x73, 0x73, 0x68, 0x2D, 0x65, 0x64, 0x32, 0x35, 0x35, 0x31, 0x39] then Err(UnsupportedType)
            else if |priv| != 64 then Err(BadPrivateHalf(|priv|))
            else if priv[32..] != pub then Err(PublicMismatch)
            else if !selfTest(priv) then Err(SelfTestFailed)
            else Ok(priv)
  {
    var f4: seq<Field> := [Str(priv)] + [];
    var f3 := [Str(pub)] + f4;
    var f2 := [Str(keyType)] + f3;
    var f1 := [Num(check2)] + f2;
    FirstFieldIsRead(Num(check1), f1, tail);
    FirstFieldIsRead(Num(check2), f2, tail);
    FirstFieldIsRead(Str(keyType), f3, tail);
    FirstFieldIsRead(Str(pub), f4, tail);
    FirstFieldIsRead(Str(priv), [], tail);
    NamesInBytes();
  }

  lemma SectionParses(check: u32, pub: seq<byte>, seed: seq<byte>, tail: seq<byte>, selfTest: seq<byte> -> bool)
    requires |pub| == 32 && |seed| == SEED_SIZE
    requires |Encode(SectionFields(check, pub, seed))| + |tail| < U32_RANGE
    ensures ParsePrivate(Encode(SectionFields(check, pub, seed)) + tail, selfTest)
         == if selfTest(seed + pub) then Ok(seed + pub) else Err(SelfTestFailed)
  {
    SectionAnswers(check, check, Ascii(ALGORITHM), pub, seed + pub, tail, selfTest);
    NamesInBytes();
    assert (seed + pub)[SEED_SIZE..] == pub;
  }

  lemma OuterAnswers(cipher: seq<byte>, kdf: seq<byte>, options: seq<byte>, keys: u32, public: seq<byte>,
                     section: seq<byte>, trailing: seq<byte>, selfTest: seq<byte> -> bool)
    requires |Encode(AnyOuter(cipher, kdf, options, keys, public, section))| + |trailing| < U32_RANGE
    ensures ParseKey(Encode(AnyOuter(cipher, kdf, options, keys, public, section)) + trailing, selfTest)
         == if cipher != Ascii(NONE) || kdf != Ascii(NONE) then Err(Encrypted)
            else if keys == 0 then Err(NoKey)
            else ParsePrivate(section, selfTest)
    ensures |section| < U32_RANGE
  {
    var f6: seq<Field> := [Str(section)] + [];
    var f5 := [Str(public)] + f6;
    var f4 := [Num(keys)] + f5;
    var f3 := [Str(options)] + f4;
    var f2 := [Str(kdf)] + f3;
    var f1 := [Str(cipher)] + f2;
    FirstFieldIsRead(Raw(KeyMagic()), f1, trailing);
    FirstFieldIsRead(Str(cipher), f2, trailing);
    FirstFieldIsRead(Str(kdf), f3, trailing);
    FirstFieldIsRead(Str(options), f4, trailing);
    FirstFieldIsRead(Num(keys), f5, trailing);
    FirstFieldIsRead(Str(public), f6, trailing);
    FirstFieldIsRead(Str(section), [], trailing);
    EncodeCons(Str(section), []);
  }

  /** What a container is answered with, by its fields: encrypted, empty, or what its private section says. */
  lemma ContainerAnswers(cipher: seq<byte>, kdf: seq<byte>, options: seq<byte>, keys: u32, public: seq<byte>,
                         section: seq<byte>, trailing: seq<byte>, selfTest: seq<byte> -> bool)
    requires |Encode(AnyOuter(cipher, kdf, options, keys, public, section))| + |trailing| < U32_RANGE
    ensures ParseKey(Encode(AnyOuter(cipher, kdf, options, keys, public, section)) + trailing, selfTest)
         == if cipher != [0x6E, 0x6F, 0x6E, 0x65] || kdf != [0x6E, 0x6F, 0x6E, 0x65] then Err(Encrypted)
            else if keys == 0 then Err(NoKey)
            else ParsePrivate(section, selfTest)
    ensures |section| < U32_RANGE
  {
    OuterAnswers(cipher, kdf, options, keys, public, section, trailing, selfTest);
    NamesInBytes();
  }

  lemma OuterParses(options: seq<byte>, keys: u32, public: seq<byte>, section: seq<byte>, trailing: seq<byte>,
                    selfTest: seq<byte> -> bool)
    requires keys >= 1
    requires |Encode(OuterFields(options, keys, public, section))| + |trailing| < U32_RANGE
    ensures ParseKey(Encode(OuterFields(options, keys, public, section)) + trailing, selfTest)
         == ParsePrivate(section, selfTest)
    ensures |section| < U32_RANGE
  {
    OuterAnswers(Ascii(NONE), Ascii(NONE), options, keys, public, section, trailing, selfTest);
  }

  /** A blob is no key file at all exactly when it does not begin with the fifteen bytes of the magic. */
  lemma MagicDecides(blob: seq<byte>, selfTest: seq<byte> -> bool)
    ensures ParseKey(blob, selfTest) == Err(NotAnOpenSSHKey)
       <==> !([0x6F, 0x70, 0x65, 0x6E, 0x73, 0x73, 0x68, 0x2D, 0x6B, 0x65, 0x79, 0x2D, 0x76, 0x31, 0] <= blob)
  {
    NamesInBytes();
    assert KeyMagic() <= blob <==> |blob| >= 15 && blob[..15] == KeyMagic();
  }

  /**
   Every unencrypted container holding at least one key, whatever its options, public
   field, check number, comment, padding and trailing bytes, yields its ed25519 key, the
   seed followed by the public half, subject to the signing self test.
   */
  lemma ContainerParses(options: seq<byte>, keys: u32, public: seq<byte>, check: u32, pub: seq<byte>, seed: seq<byte>,
                        tail: seq<byte>, trailing: seq<byte>, selfTest: seq<byte> -> bool)
    requires keys >= 1 && |pub| == 32 && |seed| == SEED_SIZE
    requires |Encode(OuterFields(options, keys, public, Encode(SectionFields(check, pub, seed)) + tail))| + |trailing|
             < U32_RANGE
    ensures (var section := Encode(SectionFields(check, pub, seed)) + tail;
             ParseKey(Encode(OuterFields(options, keys, public, section)) + trailing, selfTest))
         == if selfTest(seed + pub) then Ok(seed + pub) else Err(SelfTestFailed)
  {
    var section := Encode(SectionFields(check, pub, seed)) + tail;
    OuterParses(options, keys, public, section, trailing, selfTest);
    SectionParses(check, pub, seed, tail, selfTest);
  }

  // ---------------------------------------------------------------------------
  // And only such containers

  lemma NumberWasThere(c: Cursor)
    requires !c.failed && !TakeNumber(c).0.failed
    ensures var (c', x) := TakeNumber(c); c.data == Bytes(Num(x)) + c'.data
  {
    BytesRoundTrip(c.data[..4]);
  }

  lemma PrefixedString(s: seq<byte>)
    requires |s| < U32_RANGE
    ensures Bytes(Str(s)) == BE32(|s|) + s
  {
  }

  lemma TakenString(c: Cursor)
    requires !c.failed && !TakeString(c).0.failed
    ensures var (c1, n) := TakeNumber(c);
            && !c1.failed && n <= |c1.data|
            && TakeString(c) == (Cursor(c1.data[n..], false), c1.data[..n])
  {}

  lemma PrefixAndString(data: seq<byte>, n: u32, later: seq<byte>)
    requires n <= |later| && data == BE32(n) + later
    ensures data == Bytes(Str(later[..n])) + later[n..]
  {
    PrefixedString(later[..n]);
    Associate(BE32(n), later[..n], later[n..]);
    assert later == later[..n] + later[n..];
  }

  /** A successful read tells what stood there. */
  lemma StringWasThere(c: Cursor)
    requires !c.failed && !TakeString(c).0.failed
    ensures var (c', s) := TakeString(c); c.data == Bytes(Str(s)) + c'.data
  {
    TakenString(c);
    NumberWasThere(c);
    var (c1, n) := TakeNumber(c);
    PrefixAndString(c.data, n, c1.data);
  }

  lemma PutBack(x: Field, f: seq<Field>, rest: seq<byte>)
    ensures Bytes(x) + (Encode(f) + rest) == Encode([x] + f) + rest
  {
    EncodeCons(x, f);
    Associate(Bytes(x), Encode(f), rest);
  }

  /** Five fields standing one after the other. */
  lemma FiveFields(d0: seq<byte>, d1: seq<byte>, d2: seq<byte>, d3: seq<byte>, d4: seq<byte>, d5: seq<byte>,
                   a: Field, b: Field, c: Field, d: Field, e: Field)
    requires d0 == Bytes(a) + d1 && d1 == Bytes(b) + d2 && d2 == Bytes(c) + d3 && d3 == Bytes(d) + d4
    requires d4 == Bytes(e) + d5
    ensures d0 == Encode([a] + ([b] + ([c] + ([d] + ([e] + []))))) + d5
  {
    assert Encode([]) + d5 == d5;
    PutBack(e, [], d5);
    PutBack(d, [e] + [], d5);
    PutBack(c, [d] + ([e] + []), d5);
    PutBack(b, [c] + ([d] + ([e] + [])), d5);
    PutBack(a, [b] + ([c] + ([d] + ([e] + []))), d5);
  }

  /** The bytes of the private section of this key, with whatever follows it. */
  ghost predicate IsSection(section: seq<byte>, key: seq<byte>) {
    |key| == PRIVATE_SIZE &&
    exists check: u32, tail :: section == Encode(SectionFields(check, key[SEED_SIZE..], key[..SEED_SIZE])) + tail
  }

  lemma SectionWasThere(rest: seq<byte>, selfTest: seq<byte> -> bool)
    ensures ParsePrivate(rest, selfTest).Ok? ==>
      IsSection(rest, ParsePrivate(rest, selfTest).value) && selfTest(ParsePrivate(rest, selfTest).value)
  {
    if ParsePrivate(rest, selfTest).Ok? {
      var (p1, check) := TakeNumber(Cursor(rest, false));
      var (p2, check2) := TakeNumber(p1);
      var (p3, keyType) := TakeString(p2);
      var (p4, pub) := TakeString(p3);
      var (p5, key) := TakeString(p4);
      NumberWasThere(Cursor(rest, false));
      NumberWasThere(p1);
      StringWasThere(p2);
      StringWasThere(p3);
      StringWasThere(p4);
      FiveFields(rest, p1.data, p2.data, p3.data, p4.data, p5.data,
                 Num(check), Num(check), Str(keyType), Str(pub), Str(key));
      assert key[..SEED_SIZE] + key[SEED_SIZE..] == key;
      assert rest == Encode(SectionFields(check, key[SEED_SIZE..], key[..SEED_SIZE])) + p5.data;
    }
  }

  lemma MagicWasThere(blob: seq<byte>)
    requires TakeBytes(Cursor(blob, false), |KeyMagic()|).1 == Some(KeyMagic())
    ensures var (r, _) := TakeBytes(Cursor(blob, false), |KeyMagic()|);
            !r.failed && blob == Bytes(Raw(KeyMagic())) + r.data
  {
  }

  /** The bytes of an unencrypted container of this private section, with whatever follows it. */
  ghost predicate Encloses(blob: seq<byte>, section: seq<byte>) {
    exists options, keys: u32, public, trailing ::
      keys >= 1 && blob == Encode(OuterFields(options, keys, public, section)) + trailing
  }

  lemma OuterWasThere(blob: seq<byte>, selfTest: seq<byte> -> bool) returns (section: seq<byte>)
    ensures ParseKey(blob, selfTest).Ok? ==>
      ParsePrivate(section, selfTest) == ParseKey(blob, selfTest) && Encloses(blob, section)
  {
    section := [];
    if ParseKey(blob, selfTest).Ok? {
      var (r1, magic) := TakeBytes(Cursor(blob, false), |KeyMagic()|);
      var (r2, cipher) := TakeString(r1);
      var (r3, kdf) := TakeString(r2);
      var (r4, options) := TakeString(r3);
      var (r5, keys) := TakeNumber(r4);
      var (r6, public) := TakeString(r5);
      var (r7, s) := TakeString(r6);
      section := s;
      MagicWasThere(blob);
      StringWasThere(r1);
      StringWasThere(r2);
      StringWasThere(r3);
      NumberWasThere(r4);
      StringWasThere(r5);
      StringWasThere(r6);
      FiveFields(r2.data, r3.data, r4.data, r5.data, r6.data, r7.data,
                 Str(kdf), Str(options), Num(keys), Str(public), Str(section));
      var inner := [Str(kdf)] + ([Str(options)] + ([Num(keys)] + ([Str(public)] + ([Str(section)] + []))));
      PutBack(Str(cipher), inner, r7.data);
      PutBack(Raw(KeyMagic()), [Str(cipher)] + inner, r7.data);
      assert blob == Encode(OuterFields(options, keys, public, section)) + r7.data;
    }
  }

  /** The bytes of an unencrypted container of this key, with whatever follows its parts. */
  ghost predicate IsContainer(blob: seq<byte>, key: seq<byte>) {
    exists section :: Encloses(blob, section) && IsSection(section, key)
  }

  lemma AcceptedIsContainer(blob: seq<byte>, selfTest: seq<byte> -> bool)
    ensures ParseKey(blob, selfTest).Ok? ==>
      IsContainer(blob, ParseKey(blob, selfTest).value) && selfTest(ParseKey(blob, selfTest).value)
  {
    var section := OuterWasThere(blob, selfTest);
    SectionWasThere(section, selfTest);
  }

  lemma ContainersAreAccepted(blob: seq<byte>, key: seq<byte>, selfTest: seq<byte> -> bool)
    requires |blob| < U32_RANGE && IsContainer(blob, key)
    ensures ParseKey(blob, selfTest) == if selfTest(key) then Ok(key) else Err(SelfTestFailed)
  {
    var section :| Encloses(blob, section) && IsSection(section, key);
    var options, keys: u32, public, trailing :|
      keys >= 1 && blob == Encode(OuterFields(options, keys, public, section)) + trailing;
    var pub, seed := key[SEED_SIZE..], key[..SEED_SIZE];
    var check: u32, tail :| section == Encode(SectionFields(check, pub, seed)) + tail;
    ContainerParses(options, keys, public, check, pub, seed, tail, trailing, selfTest);
    assert seed + pub == key;
  }

  /** A blob yields a key exactly when it is an unencrypted container of that key and the key passes the self test. */
  lemma ParseIffContainer(blob: seq<byte>, key: seq<byte>, selfTest: seq<byte> -> bool)
    requires |blob| < U32_RANGE
    ensures ParseKey(blob, selfTest) == Ok(key) <==> IsContainer(blob, key) && selfTest(key)
  {
    AcceptedIsContainer(blob, selfTest);
    if IsContainer(blob, key) {
      ContainersAreAccepted(blob, key, selfTest);
    }
  }
}
