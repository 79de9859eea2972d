/** The frame codec of the tunnel: muxPackager and basePackager, and the wire format they implement. */
module Packager {
  import opened Basics
  import opened ByteStream
  import opened Window

  const PING_FLAG: byte := 0
  const NEW_CONN_OK: byte := 1
  const NEW_CONN_FAIL: byte := 2
  const NEW_MSG: byte := 3
  const NEW_MSG_PART: byte := 4
  const MSG_SEND_OK: byte := 5
  const NEW_CONN: byte := 6
  const CONN_CLOSE: byte := 7
  const PING_RETURN: byte := 8

  predicate HasContent(flag: byte) {
    flag == PING_FLAG || flag == PING_RETURN || flag == NEW_MSG || flag == NEW_MSG_PART
  }

  // ---------- little-endian numbers ----------

  function LittleEndian(x: nat, n: nat): (b: seq<byte>)
    ensures |b| == n
  {
    if n == 0 then [] else [x % 256] + LittleEndian(x / 256, n - 1)
  }

  function FromLittleEndian(b: seq<byte>): nat {
    if b == [] then 0 else b[0] + 256 * FromLittleEndian(b[1..])
  }

  function Pow256(n: nat): nat {
    if n == 0 then 1 else 256 * Pow256(n - 1)
  }

  lemma PowValues()
    ensures Pow256(2) == TWO16 && Pow256(4) == TWO32 && Pow256(8) == TWO64
  {
    assert Pow256(3) == 256 * Pow256(2);
    assert Pow256(5) == 256 * Pow256(4);
    assert Pow256(6) == 256 * Pow256(5);
    assert Pow256(7) == 256 * Pow256(6);
  }

  lemma {:induction false} NumberRoundTrip(x: nat, n: nat)
    requires x < Pow256(n)
    ensures FromLittleEndian(LittleEndian(x, n)) == x
    decreases n
  {
    if n > 0 {
      NumberRoundTrip(x / 256, n - 1);
      assert LittleEndian(x, n)[1..] == LittleEndian(x / 256, n - 1);
    }
  }

  lemma {:induction false} BytesRoundTrip(b: seq<byte>)
    ensures FromLittleEndian(b) < Pow256(|b|) && LittleEndian(FromLittleEndian(b), |b|) == b
  {
    if b != [] {
      BytesRoundTrip(b[1..]);
      DivMod(FromLittleEndian(b[1..]), 256, b[0]);
      assert b == [b[0]] + b[1..];
    }
  }

  lemma {:induction false} Pow256Positive(n: nat)
    ensures Pow256(n) > 0
  {
    if n > 0 {
      Pow256Positive(n - 1);
    }
  }

  /** Byte `i` of a number is its digit for 256 to the power of `i`: the low byte stands first. */
  lemma {:induction false} LowByteFirst(x: nat, n: nat, i: nat)
    requires i < n
    ensures Pow256(i) > 0 && LittleEndian(x, n)[i] == x / Pow256(i) % 256
    decreases n
  {
    Pow256Positive(i);
    if i > 0 {
      LowByteFirst(x / 256, n - 1, i - 1);
      Pow256Positive(i - 1);
      DivideTwice(x, 256, Pow256(i - 1));
    }
  }

  /** The reinterpretation of an int32 as a uint32, and back. */
  function ToUnsigned(id: i32): u32 {
    if id < 0 then id + TWO32 else id
  }

  function ToSigned(x: u32): i32 {
    if x >= TWO31 then x - TWO32 else x
  }

  // ---------- the format ----------

  datatype Body = Content(bytes: seq<byte>) | Credit(window: u64) | Empty

  datatype Packet = Packet(flag: byte, id: i32, body: Body)

  /** The packets that UnPack can return: the body suits the flag, and content is within the cap. */
  predicate Fits(p: Packet) {
    if HasContent(p.flag) then p.body.Content? && |p.body.bytes| <= SEGMENT
    else if p.flag == MSG_SEND_OK then p.body.Credit?
    else p.body.Empty?
  }

  function EncodeBody(b: Body): seq<byte>
    requires b.Content? ==> |b.bytes| < TWO16
  {
    match b
    case Content(bytes) => LittleEndian(|bytes|, 2) + bytes
    case Credit(window) => LittleEndian(window, 8)
    case Empty => []
  }

  function Encode(p: Packet): seq<byte>
    requires Fits(p)
  {
    [p.flag] + LittleEndian(ToUnsigned(p.id), 4) + EncodeBody(p.body)
  }

  // ---------- the bytes, spelled out ----------

  lemma TwoBytes(x: nat)
    requires x < 0x1_0000
    ensures LittleEndian(x, 2) == [x % 256, x / 256]
  {
    LowByteFirst(x, 2, 0);
    LowByteFirst(x, 2, 1);
  }

  lemma FourBytes(x: nat)
    ensures LittleEndian(x, 4) == [x % 256, x / 0x100 % 256, x / 0x1_0000 % 256, x / 0x100_0000 % 256]
  {
    LowByteFirst(x, 4, 0);
    LowByteFirst(x, 4, 1);
    LowByteFirst(x, 4, 2);
    LowByteFirst(x, 4, 3);
    assert Pow256(2) == 256 * Pow256(1) && Pow256(3) == 256 * Pow256(2);
  }

  /** A signed number and its unsigned reading have the same bytes. */
  lemma TwosComplement(id: i32)
    ensures var u := ToUnsigned(id);
            && u % 256 == id % 256 && u / 0x100 % 256 == id / 0x100 % 256
            && u / 0x1_0000 % 256 == id / 0x1_0000 % 256 && u / 0x100_0000 % 256 == id / 0x100_0000 % 256
  {
    if id < 0 {
      SameDigit(id, 1, 0x100_0000);
      SameDigit(id, 0x100, 0x1_0000);
      SameDigit(id, 0x1_0000, 0x100);
      SameDigit(id, 0x100_0000, 1);
    }
  }

  lemma SameDigit(x: int, d: nat, n: nat)
    requires d > 0
    ensures (x + d * (256 * n)) / d % 256 == x / d % 256
  {
    var q, m := x / d, 256 * n;
    assert d * (q + m) == d * q + d * m;
    Quotient(x + d * m, d, q + m, x % d);
    SameRemainder(q, n);
  }

  lemma SameRemainder(q: int, n: nat)
    ensures (q + 256 * n) % 256 == q % 256
  {
  }

  lemma Quotient(x: int, d: nat, q: int, r: nat)
    requires d > 0 && x == d * q + r && r < d
    ensures x / d == q
  {
    var q', r' := x / d, x % d;
    assert d * (q' - q) == r - r';
    if q' != q {
      ProperMultiple(d, q' - q, if r >= r' then r - r' else r' - r);
    }
  }

  /** The first five bytes: the flag, and the id with its low byte first, for negative ids in two's complement. */
  lemma HeadLayout(p: Packet)
    requires Fits(p)
    ensures |Encode(p)| >= 5 && Encode(p)[..5] ==
              [p.flag, p.id % 256, p.id / 0x100 % 256, p.id / 0x1_0000 % 256, p.id / 0x100_0000 % 256]
  {
    FourBytes(ToUnsigned(p.id));
    TwosComplement(p.id);
  }

  /** The rest by the number of the flag: for pings, their returns and the two kinds of data the length with its low
      byte first and the content, for a credit the window in eight bytes, the low one first, for the others nothing. */
  lemma BodyLayout(p: Packet)
    requires Fits(p)
    ensures var b := Encode(p)[5..];
            match p.body
            case Content(bytes) =>
              && p.flag in {0, 3, 4, 8} && |bytes| <= 4085
              && b == [|bytes| % 256, |bytes| / 256] + bytes
            case Credit(window) =>
              && p.flag == 5 && |b| == 8
              && forall i :: 0 <= i < 8 ==> Pow256(i) > 0 && b[i] == window / Pow256(i) % 256
            case Empty => p.flag !in {0, 3, 4, 5, 8} && b == []
  {
    assert Encode(p)[5..] == EncodeBody(p.body);
    match p.body
    case Content(bytes) => TwoBytes(|bytes|);
    case Credit(window) =>
      forall i | 0 <= i < 8
        ensures Pow256(i) > 0 && LittleEndian(window, 8)[i] == window / Pow256(i) % 256
      {
        LowByteFirst(window, 8, i);
      }
    case Empty =>
  }

  /** A frame of data with one byte, and a credit, byte by byte. */
  lemma SmallFrames()
    ensures Encode(Packet(NEW_MSG, 1, Content([97]))) == [3, 1, 0, 0, 0, 1, 0, 97]
    ensures Encode(Packet(CONN_CLOSE, -2, Empty)) == [7, 254, 255, 255, 255]
  {
    HeadLayout(Packet(NEW_MSG, 1, Content([97])));
    BodyLayout(Packet(NEW_MSG, 1, Content([97])));
    HeadLayout(Packet(CONN_CLOSE, -2, Empty));
    BodyLayout(Packet(CONN_CLOSE, -2, Empty));
  }

  // ---------- reading ----------

  datatype Parsed = Parsed(p: Packet, used: nat) | Truncated | TooLarge

  function DecodeBody(flag: byte, id: i32, b: seq<byte>): Parsed {
    if HasContent(flag) then
      if |b| < 2 then Truncated
      else
        var l := FromLittleEndian(b[..2]);
        if l > SEGMENT then TooLarge
        else if |b| < 2 + l then Truncated
        else Parsed(Packet(flag, id, Content(b[2..2 + l])), 7 + l)
    else if flag == MSG_SEND_OK then
      if |b| < 8 then Truncated
      else
        BytesRoundTrip(b[..8]);
        PowValues();
        Parsed(Packet(flag, id, Credit(FromLittleEndian(b[..8]))), 13)
    else Parsed(Packet(flag, id, Empty), 5)
  }

  function Decode(b: seq<byte>): Parsed {
    if |b| < 5 then Truncated
    else
      BytesRoundTrip(b[1..5]);
      PowValues();
      DecodeBody(b[0], ToSigned(FromLittleEndian(b[1..5])), b[5..])
  }

  lemma DecodeBodyEncodeBody(p: Packet, rest: seq<byte>)
    requires Fits(p)
    ensures DecodeBody(p.flag, p.id, EncodeBody(p.body) + rest) == Parsed(p, |Encode(p)|)
  {
    var b := EncodeBody(p.body) + rest;
    PowValues();
    match p.body {
      case Content(bytes) =>
        NumberRoundTrip(|bytes|, 2);
        assert b[..2] == LittleEndian(|bytes|, 2);
        assert b[2..2 + |bytes|] == bytes;
      case Credit(window) =>
        NumberRoundTrip(window, 8);
        assert b[..8] == LittleEndian(window, 8);
      case Empty =>
    }
  }

  /** UnPack undoes Pack whatever follows on the stream, negative ids and full 64-bit windows included, and uses
      exactly the bytes that Pack wrote. */
  lemma DecodeEncode(p: Packet, rest: seq<byte>)
    requires Fits(p)
    ensures Decode(Encode(p) + rest) == Parsed(p, |Encode(p)|)
  {
    var b := Encode(p) + rest;
    PowValues();
    NumberRoundTrip(ToUnsigned(p.id), 4);
    assert b[1..5] == LittleEndian(ToUnsigned(p.id), 4);
    assert b[5..] == EncodeBody(p.body) + rest;
    DecodeBodyEncodeBody(p, rest);
  }

  lemma EncodeBodyDecodeBody(flag: byte, id: i32, b: seq<byte>)
    requires DecodeBody(flag, id, b).Parsed?
    ensures var d := DecodeBody(flag, id, b);
            && Fits(d.p) && d.p.flag == flag && d.p.id == id
            && 5 <= d.used <= 5 + |b| && b[..d.used - 5] == EncodeBody(d.p.body)
  {
    PowValues();
    match DecodeBody(flag, id, b).p.body {
      case Content(bytes) =>
        BytesRoundTrip(b[..2]);
        assert b[..2 + |bytes|] == b[..2] + bytes;
      case Credit(window) =>
        BytesRoundTrip(b[..8]);
      case Empty =>
        assert b[..0] == [];
    }
  }

  /** Conversely a packet read from the stream packs to exactly the bytes it was read from. */
  lemma EncodeDecode(b: seq<byte>)
    requires Decode(b).Parsed?
    ensures var d := Decode(b);
            Fits(d.p) && d.used == |Encode(d.p)| && d.used <= |b| && b[..d.used] == Encode(d.p)
  {
    var d, id := Decode(b), b[1..5];
    assert FromLittleEndian(id) < TWO32 && LittleEndian(FromLittleEndian(id), 4) == id by {
      BytesRoundTrip(id);
      PowValues();
    }
    EncodeBodyDecodeBody(b[0], ToSigned(FromLittleEndian(id)), b[5..]);
    assert b[..d.used] == [b[0]] + id + b[5..][..d.used - 5];
  }

  /** A packet cut short is not mistaken for a shorter one. */
  lemma PrefixIsTruncated(p: Packet, k: nat)
    requires Fits(p) && k < |Encode(p)|
    ensures Decode(Encode(p)[..k]) == Truncated
  {
    var b := Encode(p);
    DecodeEncode(p, []);
    assert b + [] == b;
    if k >= 5 {
      assert b[..k][1..5] == b[1..5];
      TakeThenDrop(b, k, 5);
      if p.body.Content? && k >= 7 {
        assert b[..k][5..][..2] == b[5..][..2];
      }
    }
  }

  function EncodeAll(ps: seq<Packet>): seq<byte>
    requires forall p <- ps :: Fits(p)
  {
    if ps == [] then [] else Encode(ps[0]) + EncodeAll(ps[1..])
  }

  /** Reads packets until the stream ends or no further packet is complete. */
  function DecodeAll(b: seq<byte>): (seq<Packet>, seq<byte>)
    decreases |b|
  {
    var d := Decode(b);
    if d.Parsed? then
      EncodeDecode(b);
      var (ps, rest) := DecodeAll(b[d.used..]);
      ([d.p] + ps, rest)
    else ([], b)
  }

  /** Any list of packets survives the stream, with nothing left over. */
  lemma {:induction false} StreamRoundTrip(ps: seq<Packet>)
    requires forall p <- ps :: Fits(p)
    ensures DecodeAll(EncodeAll(ps)) == (ps, [])
  {
    if ps != [] {
      DecodeEncode(ps[0], EncodeAll(ps[1..]));
      assert EncodeAll(ps)[|Encode(ps[0])|..] == EncodeAll(ps[1..]);
      StreamRoundTrip(ps[1..]);
      assert ps == [ps[0]] + ps[1..];
    }
  }

  // ---------- the packager object ----------

  class MuxPackager {
    var flag: byte
    var id: i32
    var window: u64
    var length: u16
    var content: seq<byte>
    const buf: array<byte>

    ghost predicate Valid()
      reads this
    {
      buf.Length == SEGMENT && length <= |content| && length <= SEGMENT
    }

    /** The packet the object stands for. */
    ghost function Value(): Packet
      requires Valid()
      reads this
    {
      Packet(flag, id,
             if HasContent(flag) then Content(content[..length])
             else if flag == MSG_SEND_OK then Credit(window) else Empty)
    }

    constructor ()
      ensures Valid() && fresh(buf) && length == 0
    {
      flag, id, window, length, content := 0, 0, 0, 0, [];
      buf := new byte[SEGMENT](_ => 0);
    }

    /** Content that is missing or over the cap leaves an empty packet; the call still succeeds. */
    method Set(flag: byte, id: i32, content: Option<seq<byte>>, window: u64)
      requires Valid() && length == 0
      modifies this
      ensures Valid() && Fits(Value()) && Value().flag == flag && Value().id == id
      ensures HasContent(flag) ==>
                Value().body == Content(if content.Some? && |content.value| <= SEGMENT then content.value else [])
      ensures flag == MSG_SEND_OK ==> Value().body == Credit(window)
    {
      this.flag, this.id := flag, id;
      if HasContent(flag) {
        this.content := [];
        if content.Some? {
          this.length := 0;
          var n := |content.value|;
          if n > SEGMENT {
            return;
          }
          this.content := content.value;
          this.length := n;
        }
      } else if flag == MSG_SEND_OK {
        this.window := window;
      }
    }

    /** binary.LittleEndian.PutUint16, PutUint32 and PutUint64. */
    method Put(at: nat, x: nat, n: nat)
      requires at + n <= buf.Length
      modifies buf
      ensures buf[at..at + n] == LittleEndian(x, n)
      ensures buf[..at] == old(buf[..at]) && buf[at + n..] == old(buf[at + n..])
      decreases n
    {
      if n > 0 {
        buf[at] := x % 256;
        Put(at + 1, x / 256, n - 1);
        assert buf[at..at + n] == [buf[..at + 1][at]] + buf[at + 1..at + 1 + (n - 1)];
        assert buf[..at] == buf[..at + 1][..at];
      }
    }

    method Pack(writer: Wire)
      requires Valid()
      modifies buf, writer
      ensures Fits(Value()) && writer.data == old(writer.data) + Encode(Value())
    {
      ghost var before, value := writer.data, Value();
      buf[0] := flag;
      Put(1, ToUnsigned(id), 4);
      assert buf[..1] == [flag];
      assert buf[..5] == [flag] + LittleEndian(ToUnsigned(id), 4);
      if HasContent(flag) {
        Put(5, length, 2);
        assert buf[..7] == buf[..5] + buf[5..7];
        writer.Write(buf[..7]);
        writer.Write(content[..length]);
        ghost var head, size := [flag] + LittleEndian(ToUnsigned(id), 4), LittleEndian(length, 2);
        assert writer.data == before + (head + size) + content[..length];
        assert Encode(value) == head + (size + content[..length]);
      } else if flag == MSG_SEND_OK {
        Put(5, window, 8);
        assert buf[..13] == buf[..5] + buf[5..13];
        writer.Write(buf[..13]);
      } else {
        writer.Write(buf[..5]);
      }
    }

    /** basePackager.UnPack. */
    method UnPackContent(reader: Wire) returns (n: nat, ok: bool)
      requires Valid() && HasContent(flag)
      modifies `length, `content, reader
      ensures Valid()
      ensures var d := DecodeBody(flag, id, old(reader.data));
              && (ok <==> d.Parsed?)
              && (ok ==> Value() == d.p && n == d.used - 5 <= |old(reader.data)|)
              && (ok ==> reader.data == old(reader.data)[n..])
    {
      ghost var b := reader.data;
      n, length, content := 0, 0, [];
      var l;
      l, ok := reader.ReadFull(2);
      if !ok {
        return;
      }
      n := 2;
      var len := FromLittleEndian(l);
      if len > SEGMENT {
        ok := false;
        return;
      }
      var bytes;
      bytes, ok := reader.ReadFull(len);
      if !ok {
        return;
      }
      length, content, n := len, bytes, n + len;
      assert bytes == b[2..][..len] == b[2..2 + len] && content[..length] == bytes;
    }

    method UnPackWindow(reader: Wire) returns (n: nat, ok: bool)
      requires Valid() && flag == MSG_SEND_OK
      modifies `window, reader
      ensures Valid()
      ensures var d := DecodeBody(flag, id, old(reader.data));
              && (ok <==> d.Parsed?)
              && (ok ==> Value() == d.p && n == d.used - 5 <= |old(reader.data)|)
              && (ok ==> reader.data == old(reader.data)[n..])
    {
      n := 0;
      var w;
      w, ok := reader.ReadFull(8);
      if ok {
        assert FromLittleEndian(w) < TWO64 by {
          BytesRoundTrip(w);
          PowValues();
        }
        window, n := FromLittleEndian(w), 8;
      }
    }

    method UnPack(reader: Wire) returns (n: nat, ok: bool)
      requires Valid()
      modifies this, reader
      ensures Valid()
      ensures ok <==> Decode(old(reader.data)).Parsed?
      ensures ok ==> Value() == Decode(old(reader.data)).p && n == Decode(old(reader.data)).used
      ensures ok ==> n <= |old(reader.data)| && reader.data == old(reader.data)[n..]
    {
      ghost var b := reader.data;
      n := 0;
      var head, m;
      head, ok := reader.ReadFull(5);
      if !ok {
        return;
      }
      n := 5;
      assert head[1..5] == b[1..5] && FromLittleEndian(head[1..5]) < TWO32 by {
        BytesRoundTrip(head[1..5]);
        PowValues();
      }
      flag, id := head[0], ToSigned(FromLittleEndian(head[1..5]));
      assert Decode(b) == DecodeBody(flag, id, b[5..]);
      if HasContent(flag) {
        m, ok := UnPackContent(reader);
        n := n + m;
      } else if flag == MSG_SEND_OK {
        m, ok := UnPackWindow(reader);
        n := n + m;
      }
      assert ok ==> b[n..] == b[5..][n - 5..];
    }
  }
}
