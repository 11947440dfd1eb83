/** The answers of card commands at their offsets (pcsc/wire.go), and what the client takes off any stream. */
module CardBytes {
  import opened Common
  import opened Card
  import Wire

  lemma TwoWords(b: seq<byte>)
    requires |b| == 8
    ensures Wire.Words(b) == [Wire.FromLE32(b[0..4]), Wire.FromLE32(b[4..8])]
  {
    var head := b[..4];
    assert Wire.Words(head[..0]) == [] && head[0..] == b[0..4];
    assert Wire.Words(head) == [Wire.FromLE32(b[0..4])];
    assert b[4..] == b[4..8];
  }

  lemma ThreeWords(b: seq<byte>)
    requires |b| == 12
    ensures Wire.Words(b) == [Wire.FromLE32(b[0..4]), Wire.FromLE32(b[4..8]), Wire.FromLE32(b[8..12])]
  {
    var head := b[..8];
    TwoWords(head);
    assert head[0..4] == b[0..4] && head[4..8] == b[4..8] && b[8..] == b[8..12];
  }

  /**
   A connect reads 152 bytes: the handle, protocol and result code of the struct in them
   decide, whatever they are; fewer bytes fail and are gone.
   */
  lemma ConnectDecodes(arrived: seq<byte>)
    ensures ReadConnect(arrived) ==
            if |arrived| < 152 then (Failed, [])
            else
              var answer := Wire.DecodeConnect(arrived[..152]);
              (if answer.rv == 0 then Opened(Connection(answer.card, answer.activeProtocol))
               else if answer.rv == 0x8010000F then Mismatch else Failed, arrived[152..])
  {
    if |arrived| < 140 {
      assert Wire.ReadParts(arrived, CONNECT_PARTS) == Wire.Parts([], []);
    } else if |arrived| < 152 {
      Wire.OnePart(arrived[140..], 12);
      assert CONNECT_PARTS[1..] == [12];
    } else {
      Wire.TwoParts(arrived, 140, 12);
      var part, struct := arrived[140..152], arrived[..152];
      ThreeWords(part);
      Wire.SliceOfSlice(arrived, 140, part, 0, 4, 140, 144);
      Wire.SliceOfSlice(arrived, 140, part, 4, 8, 144, 148);
      Wire.SliceOfSlice(arrived, 140, part, 8, 12, 148, 152);
      assert struct[140..144] == arrived[140..144] && struct[144..148] == arrived[144..148]
             && struct[148..152] == arrived[148..152];
    }
  }

  /** A transmit reads a header of 32 bytes, the length at 24 and the result code at 28, then the payload it announces. */
  lemma TransmitDecodes(arrived: seq<byte>)
    ensures ReadExchange(arrived) ==
            if |arrived| < 32 then (Lost, [])
            else
              var length, rv, later := Wire.FromLE32(arrived[24..28]), Wire.FromLE32(arrived[28..32]), arrived[32..];
              if rv != 0 || length > 264 then (Lost, later)
              else if |later| < length then (Lost, [])
              else (Response(later[..length]), later[length..])
  {
    if |arrived| < 24 {
      assert Wire.ReadParts(arrived, HEADER_PARTS) == Wire.Parts([], []);
    } else if |arrived| < 32 {
      Wire.OnePart(arrived[24..], 8);
      assert HEADER_PARTS[1..] == [8];
    } else {
      Wire.TwoParts(arrived, 24, 8);
      var part := arrived[24..32];
      TwoWords(part);
      Wire.SliceOfSlice(arrived, 24, part, 0, 4, 24, 28);
      Wire.SliceOfSlice(arrived, 24, part, 4, 8, 28, 32);
      Wire.OnePart(arrived[32..], Wire.FromLE32(arrived[24..28]));
    }
  }

  /** A disconnect reads 12 bytes and keeps none. */
  lemma CloseDecodes(arrived: seq<byte>)
    ensures ReadClose(arrived) == if |arrived| < 12 then [] else arrived[12..]
  {
    Wire.OnePart(arrived, 12);
  }
}
