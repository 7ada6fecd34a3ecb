/** The tunnel's wire format: a 4-byte big-endian stream id, a type byte, a payload. */
module Frame {
  import opened Text

  newtype byte = x: int | 0 <= x < 0x100
  type StreamId = x: int | 0 <= x < 0x1_0000_0000

  const OP_OPEN: byte := 1
  const OP_OPEN_OK: byte := 2
  const OP_OPEN_ERR: byte := 3
  const OP_DATA: byte := 4
  const OP_CLOSE: byte := 5

  datatype Message = Message(id: StreamId, typ: byte, payload: seq<byte>)

  function BigEndian(id: StreamId): (b: seq<byte>)
    ensures |b| == 4
  {
    [(id / 0x100_0000) as byte, (id / 0x1_0000 % 0x100) as byte, (id / 0x100 % 0x100) as byte, (id % 0x100) as byte]
  }

  /** The bytes of a frame. */
  function Wire(m: Message): (b: seq<byte>)
    ensures |b| == 5 + |m.payload|
  {
    BigEndian(m.id) + [m.typ] + m.payload
  }

  /** Builds a frame by filling a buffer, as `Encode` does. */
  method Encode(id: StreamId, typ: byte, payload: seq<byte>) returns (buf: array<byte>)
    ensures fresh(buf)
    ensures buf[..] == Wire(Message(id, typ, payload))
  {
    buf := new byte[5 + |payload|];
    var head := BigEndian(id);
    buf[0], buf[1], buf[2], buf[3] := head[0], head[1], head[2], head[3];
    buf[4] := typ;
    for i := 0 to |payload|
      invariant buf[..5] == head + [typ]
      invariant buf[5..5 + i] == payload[..i]
    {
      buf[5 + i] := payload[i];
      assert buf[5..5 + i + 1] == buf[5..5 + i] + [payload[i]];
    }
    assert buf[..] == buf[..5] + buf[5..5 + |payload|];
  }

  function ReadBigEndian(a: byte, b: byte, c: byte, d: byte): StreamId {
    ((a as int * 0x100 + b as int) * 0x100 + c as int) * 0x100 + d as int
  }

  lemma BigEndianOfRead(a: byte, b: byte, c: byte, d: byte)
    ensures BigEndian(ReadBigEndian(a, b, c, d)) == [a, b, c, d]
  {
    var hi := a as int * 0x100 + b as int;
    var id := ReadBigEndian(a, b, c, d);
    assert id / 0x100 == hi * 0x100 + c as int;
    assert id / 0x1_0000 == hi;
  }

  lemma ReadOfBigEndian(id: StreamId)
    ensures var b := BigEndian(id); ReadBigEndian(b[0], b[1], b[2], b[3]) == id
  {
    var hi := id / 0x1_0000;
    var lo := id % 0x1_0000;
    assert id == hi * 0x1_0000 + lo;
    assert id / 0x100_0000 == hi / 0x100;
    assert id / 0x100 % 0x100 == lo / 0x100;
    assert id % 0x100 == lo % 0x100;
  }

  /** `None` is the "frame too short" error. */
  function Decode(b: seq<byte>): Option<Message> {
    if |b| < 5 then None
    else Some(Message(ReadBigEndian(b[0], b[1], b[2], b[3]), b[4], b[5..]))
  }

  lemma DecodeOfWire(m: Message)
    ensures Decode(Wire(m)) == Some(m)
  {
    var b := BigEndian(m.id);
    ReadOfBigEndian(m.id);
    assert Wire(m)[5..] == m.payload;
    assert Wire(m)[0] == b[0] && Wire(m)[1] == b[1] && Wire(m)[2] == b[2] && Wire(m)[3] == b[3];
  }

  /** The only inputs `Decode` accepts are encodings, and it loses nothing of them;
      what it rejects is no encoding at all. */
  lemma DecodeIsTheInverse(b: seq<byte>)
    ensures match Decode(b)
            case Some(m) => |b| >= 5 && Wire(m) == b
            case None => |b| < 5 && forall m :: Wire(m) != b
  {
    if |b| >= 5 {
      var m := Decode(b).value;
      BigEndianOfRead(b[0], b[1], b[2], b[3]);
      assert b == [b[0], b[1], b[2], b[3]] + [b[4]] + b[5..];
    }
  }

  /** Go's `string(payload)`: one character per byte. */
  function AsText(p: seq<byte>): (s: string)
    ensures |s| == |p| && forall i :: 0 <= i < |p| ==> s[i] == p[i] as char
  {
    seq(|p|, i requires 0 <= i < |p| => p[i] as char)
  }

  datatype Target = Target(host: string, port: int)

  /** The text of an OPEN payload, split at its last colon; `None` is either error. */
  function ParseOpen(s: string): Option<Target> {
    var idx := LastIndexChar(s, ':');
    if idx < 0 then None
    else
      var p := Atoi(s[idx + 1..]);
      if p.None? || p.value < 1 || p.value > 65535 then None
      else Some(Target(s[..idx], p.value))
  }

  /** What an OPEN payload means, said without an algorithm: some host, a colon and a
      colon-free numeral for a port in 1..65535. */
  ghost predicate IsOpenText(s: string, t: Target) {
    exists numeral :: OpenTextWith(s, t, numeral)
  }

  predicate OpenTextWith(s: string, t: Target, numeral: string) {
    s == t.host + ":" + numeral && ':' !in numeral && Atoi(numeral) == Some(t.port) && 1 <= t.port <= 65535
  }

  lemma ParseOpenExactly(s: string, t: Target)
    ensures ParseOpen(s) == Some(t) <==> IsOpenText(s, t)
  {
    if ParseOpen(s) == Some(t) {
      var idx := LastIndexChar(s, ':');
      assert s == s[..idx] + ":" + s[idx + 1..];
      assert OpenTextWith(s, t, s[idx + 1..]);
    }
    if IsOpenText(s, t) {
      var numeral :| OpenTextWith(s, t, numeral);
      LastIndexCharIs(t.host, ':', numeral);
      assert s == t.host + [':'] + numeral;
      assert s[..|t.host|] == t.host && s[|t.host| + 1..] == numeral;
    }
  }

  /** Every host, colons included, and every port survive printing and parsing. */
  lemma ParseOpenOfPrinted(host: string, port: nat)
    requires 1 <= port <= 65535
    ensures ParseOpen(host + ":" + Decimal(port)) == Some(Target(host, port))
  {
    AtoiOfDecimal(port);
    assert OpenTextWith(host + ":" + Decimal(port), Target(host, port), Decimal(port));
    ParseOpenExactly(host + ":" + Decimal(port), Target(host, port));
  }
}
