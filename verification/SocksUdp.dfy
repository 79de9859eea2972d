/** The SOCKS5 UDP datagrams of lib/common (section 7 of RFC 1928), with the reserved field as a length for datagrams
    sent over a stream. */
module SocksUdp {
  import opened Basics
  import opened ByteStream

  const IPV4: byte := 1
  const DOMAIN_NAME: byte := 3
  const IPV6: byte := 4
  const POOL_SIZE_UDP := 1472 + 200

  /** The host of the two IP kinds is the raw address; a host of another length stands for text that does not parse. */
  datatype Addr = Addr(kind: byte, host: seq<byte>, port: u16)

  datatype Header = Header(rsv: u16, frag: byte, addr: Option<Addr>)

  datatype Datagram = Datagram(header: Option<Header>, data: seq<byte>)

  function Zeros(n: nat): (z: seq<byte>)
    ensures |z| == n
  {
    seq(n, _ => 0)
  }

  function Ip(host: seq<byte>, n: nat): (ip: seq<byte>)
    ensures |ip| == n
  {
    if |host| == n then host else Zeros(n)
  }

  // ---------- writing ----------

  /** The kind, with a length for domain names; any other kind becomes the first. */
  function KindBytes(a: Addr): seq<byte> {
    if a.kind == DOMAIN_NAME then [a.kind, |a.host| % 256]
    else if a.kind == IPV4 || a.kind == IPV6 then [a.kind]
    else [IPV4]
  }

  function HostBytes(a: Addr): seq<byte> {
    if a.kind == IPV4 then Ip(a.host, 4)
    else if a.kind == DOMAIN_NAME then a.host
    else if a.kind == IPV6 then Ip(a.host, 16)
    else Zeros(4)
  }

  function AddrBytes(a: Addr): seq<byte> {
    KindBytes(a) + HostBytes(a) + Bytes16(a.port)
  }

  function AddrOf(h: Header): Addr {
    if h.addr.Some? then h.addr.value else Addr(0, [], 0)
  }

  function HeaderOf(d: Datagram): Header {
    if d.header.Some? then d.header.value else Header(0, 0, None)
  }

  function HeaderBytes(h: Header): seq<byte> {
    Bytes16(h.rsv) + [h.frag] + AddrBytes(AddrOf(h))
  }

  function DatagramBytes(d: Datagram): seq<byte> {
    HeaderBytes(HeaderOf(d)) + d.data
  }

  /** Writing the header panics when it does not fit the pooled buffer. */
  predicate Overflows(h: Header) {
    |HeaderBytes(h)| > POOL_SIZE_UDP
  }

  // ---------- reading ----------

  datatype Outcome = Decoded(d: Datagram, rest: seq<byte>) | Failed | Panicked

  function HeaderLength(kind: byte, next: byte): Option<nat> {
    var n: int := next;
    if kind == IPV4 then Some(10)
    else if kind == IPV6 then Some(22)
    else if kind == DOMAIN_NAME then Some(7 + n)
    else None
  }

  /** Where the host stands in an encoded address, whose last two bytes are the port. */
  function HostAt(kind: byte): nat {
    if kind == DOMAIN_NAME then 2 else 1
  }

  function ToAddr(b: seq<byte>): Addr
    requires |b| >= 4
  {
    Addr(b[0], b[HostAt(b[0])..|b| - 2], Word16(b[|b| - 2..]))
  }

  function ToDatagram(s: seq<byte>, hlen: nat): Datagram
    requires 7 <= hlen <= |s|
  {
    Datagram(Some(Header(Word16(s), s[2], Some(ToAddr(s[3..hlen])))), s[hlen..])
  }

  function Read(s: seq<byte>): Outcome {
    if |s| < 5 then Failed
    else
      match HeaderLength(s[3], s[4])
      case None => Failed
      case Some(hlen) =>
        if Word16(s) == 0 then
          if |s| < hlen || |s| > POOL_SIZE_UDP then Panicked else Decoded(ToDatagram(s, hlen), [])
        else
          var end := hlen + Word16(s);
          if end > POOL_SIZE_UDP then Panicked
          else if |s| < end then Failed
          else Decoded(ToDatagram(s[..end], hlen), s[end..])
  }

  // ---------- the bytes and the outcomes, spelled out ----------

  /** An address is its kind, for a domain name the length of the host, the host, and the port with the high byte first.
      A host that does not suit its kind is written as zeros, an unknown kind as the IPv4 address of zeros. */
  lemma AddressLayout(a: Addr)
    ensures var port := [a.port / 256, a.port % 256];
            AddrBytes(a) ==
            if a.kind == 3 then [3, |a.host| % 256] + a.host + port
            else if a.kind == 4 then [4] + (if |a.host| == 16 then a.host else Zeros(16)) + port
            else [1] + (if a.kind == 1 && |a.host| == 4 then a.host else [0, 0, 0, 0]) + port
  {
    BigEndian(a.port, [0, 0]);
    assert Zeros(4) == [0, 0, 0, 0];
  }

  /** A datagram is the reserved field with the high byte first, the fragment number, the address and the data. */
  lemma DatagramLayout(d: Datagram)
    ensures var h := HeaderOf(d);
            DatagramBytes(d) == [h.rsv / 256, h.rsv % 256, h.frag] + AddrBytes(AddrOf(h)) + d.data
    ensures d.header.None? || d.header.value.addr.None? ==> AddrBytes(AddrOf(HeaderOf(d))) == [1, 0, 0, 0, 0, 0, 0]
  {
    BigEndian(HeaderOf(d).rsv, [0, 0]);
    if d.header.None? || d.header.value.addr.None? {
      AddressLayout(AddrOf(HeaderOf(d)));
    }
  }

  /** The length of the header in a stream that starts with it: 10 for IPv4, 22 for IPv6, 7 and the host for a name. */
  function HeaderEnd(s: seq<byte>): int
    requires |s| >= 5
  {
    match s[3]
    case 1 => 10
    case 4 => 22
    case 3 => var n: int := s[4]; 7 + n
    case _ => -1
  }

  /** When a read goes wrong. It fails when the stream is too short for five bytes, for a known kind of address, or for
      the length that the reserved field gives. It panics when that length, or without one the whole stream, is over
      the 1672 bytes of the buffer, or when a stream without a length ends within the header. */
  lemma ReadGoesWrong(s: seq<byte>)
    ensures Read(s).Failed? <==>
            || |s| < 5 || HeaderEnd(s) < 0
            || (var n: int := s[0]; var length := 256 * n + s[1];
                length > 0 && |s| < HeaderEnd(s) + length <= 1672)
    ensures Read(s).Panicked? <==>
            && |s| >= 5 && HeaderEnd(s) > 0
            && (var n: int := s[0]; var length := 256 * n + s[1];
                if length > 0 then HeaderEnd(s) + length > 1672 else |s| < HeaderEnd(s) || |s| > 1672)
  {
    if |s| >= 5 {
      BigEndian(0, s);
    }
  }

  // ---------- reading inverts writing ----------

  /** The datagrams that can be told from their bytes. */
  predicate Transmissible(d: Datagram) {
    && d.header.Some? && d.header.value.addr.Some?
    && (var a := d.header.value.addr.value;
        || (a.kind == IPV4 && |a.host| == 4)
        || (a.kind == DOMAIN_NAME && |a.host| < 256)
        || (a.kind == IPV6 && |a.host| == 16))
    && |DatagramBytes(d)| <= POOL_SIZE_UDP
    && (d.header.value.rsv == 0 || d.header.value.rsv == |d.data|)
  }

  lemma AddrRoundTrip(a: Addr)
    requires (a.kind == IPV4 && |a.host| == 4) || (a.kind == DOMAIN_NAME && |a.host| < 256) ||
             (a.kind == IPV6 && |a.host| == 16)
    ensures ToAddr(AddrBytes(a)) == a
    ensures HeaderLength(a.kind, AddrBytes(a)[1]) == Some(3 + |AddrBytes(a)|)
  {
    var b := AddrBytes(a);
    assert b[|b| - 2..] == Bytes16(a.port);
    assert b[HostAt(a.kind)..|b| - 2] == a.host;
  }

  lemma AddrFromBytes(b: seq<byte>)
    requires |b| >= 4 && HeaderLength(b[0], b[1]) == Some(3 + |b|)
    ensures AddrBytes(ToAddr(b)) == b
  {
    var a := ToAddr(b);
    assert b == b[..HostAt(b[0])] + a.host + b[|b| - 2..];
  }

  lemma WrittenDatagram(d: Datagram)
    requires Transmissible(d)
    ensures var b, hlen := DatagramBytes(d), |HeaderBytes(HeaderOf(d))|;
            && 7 <= hlen <= |b| && HeaderLength(b[3], b[4]) == Some(hlen) && ToDatagram(b, hlen) == d
            && Word16(b) == HeaderOf(d).rsv && |b| == hlen + |d.data|
  {
    var h := HeaderOf(d);
    var a, b, hlen := h.addr.value, DatagramBytes(d), |HeaderBytes(h)|;
    AddrRoundTrip(a);
    assert b[3..hlen] == AddrBytes(a) && b[hlen..] == d.data;
    assert b[3] == AddrBytes(a)[0] && b[4] == AddrBytes(a)[1];
    assert Word16(b) == Word16(Bytes16(h.rsv));
  }

  lemma WriteThenRead(d: Datagram, tail: seq<byte>)
    requires Transmissible(d) && (HeaderOf(d).rsv == 0 ==> tail == [])
    ensures Read(DatagramBytes(d) + tail) == Decoded(d, tail)
  {
    var b := DatagramBytes(d);
    var s := b + tail;
    WrittenDatagram(d);
    assert s[..|b|] == b && s[|b|..] == tail;
    assert s[3] == b[3] && s[4] == b[4] && Word16(s) == Word16(b);
    assert tail == [] ==> s == b;
  }

  lemma BytesOfRead(b: seq<byte>, hlen: nat)
    requires 7 <= hlen <= |b| && HeaderLength(b[3], b[4]) == Some(hlen)
    ensures DatagramBytes(ToDatagram(b, hlen)) == b
  {
    AddrFromBytes(b[3..hlen]);
    assert Bytes16(Word16(b)) == b[..2];
    assert HeaderBytes(HeaderOf(ToDatagram(b, hlen))) == b[..2] + [b[2]] + b[3..hlen] == b[..hlen];
    assert b == b[..hlen] + b[hlen..];
  }

  lemma ReadThenWrite(s: seq<byte>)
    requires Read(s).Decoded?
    ensures var o := Read(s);
            Transmissible(o.d) && s == DatagramBytes(o.d) + o.rest && (HeaderOf(o.d).rsv == 0 ==> o.rest == [])
  {
    var o, hlen := Read(s), HeaderLength(s[3], s[4]).value;
    var end := if Word16(s) == 0 then |s| else hlen + Word16(s);
    assert s[..end] + s[end..] == s && (Word16(s) == 0 ==> s[..end] == s);
    BytesOfRead(s[..end], hlen);
    assert |s[..end][3..hlen]| == hlen - 3;
  }

  /** A reader takes a datagram off a stream exactly when the stream starts with the bytes that Write makes of it, for
      all three kinds of address and in both length modes; with a zero reserved field it must be all there is. */
  lemma ReadExact(s: seq<byte>, d: Datagram, rest: seq<byte>)
    ensures Read(s) == Decoded(d, rest) <==>
            Transmissible(d) && s == DatagramBytes(d) + rest && (HeaderOf(d).rsv == 0 ==> rest == [])
  {
    if Read(s) == Decoded(d, rest) {
      ReadThenWrite(s);
    }
    if Transmissible(d) && s == DatagramBytes(d) + rest && (HeaderOf(d).rsv == 0 ==> rest == []) {
      WriteThenRead(d, rest);
    }
  }

  /** What is written on its own is read back exactly for the transmissible datagrams. */
  lemma RoundTripsExactly(d: Datagram)
    ensures Read(DatagramBytes(d)) == Decoded(d, []) <==> Transmissible(d)
  {
    ReadExact(DatagramBytes(d), d, []);
    assert DatagramBytes(d) + [] == DatagramBytes(d);
  }

  function BytesOfAll(ds: seq<Datagram>): seq<byte> {
    if ds == [] then [] else DatagramBytes(ds[0]) + BytesOfAll(ds[1..])
  }

  /** Datagrams read one after another until one fails or the stream is empty. */
  function ReadAll(s: seq<byte>): (seq<Datagram>, seq<byte>)
    decreases |s|
  {
    var o := Read(s);
    if o.Decoded? then
      ReadThenWrite(s);
      var (ds, rest) := ReadAll(o.rest);
      ([o.d] + ds, rest)
    else ([], s)
  }

  /** In the mode that keeps the data length in the reserved field, a stream of datagrams comes apart into exactly
      those datagrams. */
  lemma {:induction false} StreamRoundTrip(ds: seq<Datagram>)
    requires forall d <- ds :: Transmissible(d) && HeaderOf(d).rsv > 0
    ensures ReadAll(BytesOfAll(ds)) == (ds, [])
  {
    if ds != [] {
      assert Read(BytesOfAll(ds)) == Decoded(ds[0], BytesOfAll(ds[1..])) by {
        WriteThenRead(ds[0], BytesOfAll(ds[1..]));
      }
      StreamRoundTrip(ds[1..]);
      assert ds == [ds[0]] + ds[1..];
    }
  }

  // ---------- the buffer code ----------

  /** copy: as much of `src` as fits from `at` on. */
  method Copy(b: array<byte>, at: nat, src: seq<byte>) returns (n: nat)
    requires at <= b.Length
    modifies b
    ensures n == Min(|src|, b.Length - at)
    ensures b[..at + n] == old(b[..at]) + src[..n] && b[at + n..] == old(b[at + n..])
  {
    n := Min(|src|, b.Length - at);
    for i := 0 to n
      invariant b[..at + i] == old(b[..at]) + src[..i] && b[at + i..] == old(b[at + i..])
    {
      b[at + i] := src[i];
      assert b[..at + i + 1] == b[..at + i] + [src[i]];
      assert src[..i + 1] == src[..i] + [src[i]];
    }
  }

  /** The kind and the host, from `at` on, as far as there is room. */
  method EncodeHost(b: array<byte>, at: nat, addr: Addr) returns (pos: nat)
    requires at + 20 <= b.Length
    modifies b
    ensures pos == Min(at + |KindBytes(addr) + HostBytes(addr)|, b.Length)
    ensures b[..pos] == old(b[..at]) + KindBytes(addr) + HostBytes(addr)[..pos - at - |KindBytes(addr)|]
  {
    ghost var before := b[..at];
    b[at] := addr.kind;
    pos := at + 1;
    assert b[..pos] == before + [addr.kind];
    var n;
    if addr.kind == IPV4 {
      n := Copy(b, pos, Ip(addr.host, 4));
    } else if addr.kind == DOMAIN_NAME {
      b[pos] := |addr.host| % 256;
      pos := pos + 1;
      assert b[..pos] == before + [addr.kind, |addr.host| % 256];
      n := Copy(b, pos, addr.host);
    } else if addr.kind == IPV6 {
      n := Copy(b, pos, Ip(addr.host, 16));
    } else {
      b[at] := IPV4;
      assert b[..pos] == before + [IPV4];
      n := Copy(b, pos, Zeros(4));
    }
    pos := pos + n;
  }

  /** Encode into the buffer from `at` on; false when the port has no room left. */
  method EncodeAddr(b: array<byte>, at: nat, addr: Addr) returns (length: nat, ok: bool)
    requires at + 20 <= b.Length
    modifies b
    ensures ok <==> at + |AddrBytes(addr)| <= b.Length
    ensures ok ==> length == |AddrBytes(addr)| && b[..at + length] == old(b[..at]) + AddrBytes(addr)
  {
    var pos := EncodeHost(b, at, addr);
    if b.Length - pos < 2 {
      return 0, false;
    }
    assert HostBytes(addr)[..pos - at - |KindBytes(addr)|] == HostBytes(addr);
    var n := Copy(b, pos, Bytes16(addr.port));
    return pos + 2 - at, true;
  }

  method WriteHeader(h: Header, b: array<byte>, w: Wire) returns (ok: bool)
    requires b.Length == POOL_SIZE_UDP
    modifies b, w
    ensures ok <==> !Overflows(h)
    ensures w.data == old(w.data) + if ok then HeaderBytes(h) else []
  {
    var n := Copy(b, 0, Bytes16(h.rsv));
    assert b[..2] == Bytes16(h.rsv);
    b[2] := h.frag;
    assert b[..3] == b[..2] + [h.frag];
    n, ok := EncodeAddr(b, 3, AddrOf(h));
    if ok {
      w.Write(b[..3 + n]);
    }
  }

  /** Writes the datagram in one piece, or nothing when the header overflows. */
  method WriteDatagram(d: Datagram, b: array<byte>, w: Wire) returns (ok: bool)
    requires b.Length == POOL_SIZE_UDP
    modifies b, w
    ensures ok <==> !Overflows(HeaderOf(d))
    ensures w.data == old(w.data) + if ok then DatagramBytes(d) else []
  {
    var buf := new Wire();
    var h := HeaderOf(d);
    ok := WriteHeader(h, b, buf);
    if ok {
      assert buf.data == HeaderBytes(h);
      buf.Write(d.data);
      w.Write(buf.data);
    }
  }

  lemma SliceOfSlice<T>(s: seq<T>, lo: nat, hi: nat, from: nat, to: nat)
    requires lo <= hi <= |s| && from <= to <= hi - lo
    ensures s[lo..hi][from..to] == s[lo + from..lo + to]
  {
    forall i | 0 <= i < to - from
      ensures s[lo..hi][from..to][i] == s[lo + from..lo + to][i]
    {
    }
  }

  /** Decode of the bytes from `lo` to `hi`, which hold an address of a known kind. */
  method DecodeAddr(b: array<byte>, lo: nat, hi: nat) returns (addr: Addr)
    requires lo + 4 <= hi <= b.Length && HeaderLength(b[lo], b[lo + 1]) == Some(3 + hi - lo)
    ensures addr == ToAddr(b[lo..hi])
  {
    ghost var s := b[lo..hi];
    assert s[0] == b[lo] && s[1] == b[lo + 1];
    var kind, pos := b[lo], lo + 1;
    var start, n := pos, 0;
    if kind == IPV4 {
      n := 4;
    } else if kind == IPV6 {
      n := 16;
    } else {
      start, n := pos + 1, b[pos];
    }
    pos := start + n;
    assert pos == hi - 2 && start == lo + HostAt(kind);
    addr := Addr(kind, b[start..pos], Word16(b[pos..hi]));
    SliceOfSlice(b[..], lo, hi, start - lo, pos - lo);
    SliceOfSlice(b[..], lo, hi, pos - lo, hi - lo);
    assert b[lo..hi] == b[..][lo..hi] && b[start..pos] == b[..][start..pos] && b[pos..hi] == b[..][pos..hi];
  }

  /** What the reader does once the buffer holds the datagram's first `n` bytes, its header being `hlen` long. */
  method Finish(b: array<byte>, rsv: u16, frag: byte, hlen: nat, n: nat) returns (d: Datagram)
    requires 7 <= hlen <= n <= b.Length && HeaderLength(b[3], b[4]) == Some(hlen)
    requires rsv == Word16(b[..n]) && frag == b[2]
    ensures d == ToDatagram(b[..n], hlen)
  {
    var addr := DecodeAddr(b, 3, hlen);
    assert b[3..hlen] == b[..n][3..hlen] && b[hlen..n] == b[..n][hlen..];
    d := Datagram(Some(Header(rsv, frag, Some(addr))), b[hlen..n]);
  }

  /** Whatever the pooled buffer held before. */
  method ReadDatagram(r: Wire, b: array<byte>) returns (o: Outcome)
    requires b.Length == POOL_SIZE_UDP
    modifies r, b
    ensures o == Read(old(r.data))
    ensures o.Decoded? ==> r.data == o.rest
  {
    ghost var s := r.data;
    var front, ok := r.ReadFull(5);
    if !ok {
      return Failed;
    }
    var n := Copy(b, 0, front);
    assert b[..5] == s[..5];
    var rsv, frag := Word16(front), front[2];
    var h := HeaderLength(front[3], front[4]);
    if h.None? {
      return Failed;
    }
    var hlen, dlen: int := h.value, rsv;
    if dlen == 0 {
      var extra := r.ReadAll();
      n := Copy(b, 5, extra);
      n := 5 + |extra|;
      dlen := n - hlen;
      assert s == s[..5] + extra && s[..|s|] == s;
    } else {
      if hlen + dlen > b.Length {
        return Panicked;
      }
      var more;
      more, ok := r.ReadFull(hlen + dlen - n);
      if !ok {
        return Failed;
      }
      n := Copy(b, 5, more);
      n := hlen + dlen;
      assert s[..n] == s[..5] + more;
    }
    if dlen < 0 || n > b.Length {
      return Panicked;
    }
    assert b[..n] == s[..n];
    assert b[3] == b[..n][3] && b[4] == b[..n][4] && b[2] == b[..n][2];
    var d := Finish(b, rsv, frag, hlen, n);
    o := Decoded(d, r.data);
  }
}
