/** The TLS ClientHello reader of lib/crypt: the grammar of the messages it accepts (section 7.4.1.2 of RFC 5246,
    section 3 of RFC 6066), and the object it fills from one. */
module ClientHello {
  import opened Basics

  const SERVER_NAME: u16 := 0
  const STATUS_REQUEST: u16 := 5
  const SUPPORTED_CURVES: u16 := 10
  const SUPPORTED_POINTS: u16 := 11
  const SIGNATURE_ALGORITHMS: u16 := 13
  const ALPN: u16 := 16
  const SCT: u16 := 18
  const SESSION_TICKET: u16 := 35
  const NEXT_PROTO_NEG: u16 := 13172
  const RENEGOTIATION_INFO: u16 := 0xff01
  const SCSV_RENEGOTIATION: u16 := 0x00ff
  const STATUS_TYPE_OCSP: byte := 1
  const DOT: byte := 46

  // ---------- vectors ----------

  /** A vector with a one-byte length in front, and one with a two-byte length. */
  function Vector8(b: seq<byte>): seq<byte> {
    [|b| % 256] + b
  }

  function Vector16(b: seq<byte>): seq<byte> {
    Bytes16(|b|) + b
  }

  /** A vector taken off the front, and what follows it. */
  datatype Taken = Short | Taken(vector: seq<byte>, rest: seq<byte>)

  function Take8(d: seq<byte>): Taken {
    if |d| < 1 || |d| - 1 < d[0] then Short else Taken(d[1..][..d[0]], d[1..][d[0]..])
  }

  function Take16(d: seq<byte>): Taken {
    if |d| < 2 || |d| - 2 < Word16(d) then Short else Taken(d[2..][..Word16(d)], d[2..][Word16(d)..])
  }

  lemma Take8Exact(d: seq<byte>, v: seq<byte>, rest: seq<byte>)
    ensures Take8(d) == Taken(v, rest) <==> |v| < 256 && d == Vector8(v) + rest
  {
    if Take8(d) == Taken(v, rest) {
      var tail := d[1..];
      assert tail == v + rest;
      assert d == [d[0]] + tail;
    }
    if |v| < 256 && d == Vector8(v) + rest {
      assert d[1..] == v + rest && d[0] == |v|;
    }
  }

  lemma Take16Exact(d: seq<byte>, v: seq<byte>, rest: seq<byte>)
    ensures Take16(d) == Taken(v, rest) <==> |v| < TWO16 && d == Vector16(v) + rest
  {
    if Take16(d) == Taken(v, rest) {
      assert d == Bytes16(Word16(d)) + d[2..];
    }
    if |v| < TWO16 && d == Vector16(v) + rest {
      assert Word16(d) == Word16(Bytes16(|v|)) && d[2..] == v + rest;
    }
  }

  function Words(d: seq<byte>): (w: seq<u16>)
    requires |d| % 2 == 0
    ensures 2 * |w| == |d|
  {
    if d == [] then [] else [Word16(d)] + Words(d[2..])
  }

  function WordBytes(w: seq<u16>): (b: seq<byte>)
    ensures |b| == 2 * |w|
  {
    if w == [] then [] else Bytes16(w[0]) + WordBytes(w[1..])
  }

  lemma {:induction false} WordsExact(d: seq<byte>, w: seq<u16>)
    ensures |d| % 2 == 0 && Words(d) == w <==> d == WordBytes(w)
    decreases |d| + |w|
  {
    if d != [] && w != [] && |d| % 2 == 0 {
      WordsExact(d[2..], w[1..]);
      assert d == d[..2] + d[2..];
      if d == WordBytes(w) {
        assert d[2..] == WordBytes(w[1..]);
        assert Word16(d) == Word16(Bytes16(w[0]));
        assert w == [w[0]] + w[1..];
      }
      if Words(d) == w {
        assert Words(d)[1..] == Words(d[2..]);
        assert d[..2] == Bytes16(Word16(d));
      }
    }
  }

  // ---------- the grammar ----------

  /** A server name list as the reader sees it: entries of other types up to the first host name, and behind that
      bytes that are not looked at. */
  datatype Names = End | Other(kind: byte, name: seq<byte>, others: Names) | Host(host: seq<byte>, tail: seq<byte>)

  datatype Extension =
    | ServerNames(names: Names)
    | NextProto
    | Status(status: seq<byte>)
    | Curves(curves: seq<u16>)
    | Points(points: seq<byte>)
    | Ticket(ticket: seq<byte>)
    | Schemes(schemes: seq<u16>)
    | Renegotiation(info: seq<byte>)
    | Protocols(protocols: seq<seq<byte>>)
    | Timestamps
    | Unknown(kind: u16, content: seq<byte>)

  /** `head` is the 4-byte handshake header, the 2-byte version and the 32 random bytes. */
  datatype Hello = Hello(head: seq<byte>, sessionId: seq<byte>, suites: seq<u16>, compression: seq<byte>,
                         extensions: Option<seq<Extension>>)

  function EncodeNames(n: Names): seq<byte> {
    match n
    case End => []
    case Other(kind, name, others) => [kind] + (Vector16(name) + EncodeNames(others))
    case Host(host, tail) => [0] + (Vector16(host) + tail)
  }

  function EncodeProtocols(ps: seq<seq<byte>>): seq<byte> {
    if ps == [] then [] else Vector8(ps[0]) + EncodeProtocols(ps[1..])
  }

  function Kind(e: Extension): u16 {
    match e
    case ServerNames(_) => SERVER_NAME
    case NextProto => NEXT_PROTO_NEG
    case Status(_) => STATUS_REQUEST
    case Curves(_) => SUPPORTED_CURVES
    case Points(_) => SUPPORTED_POINTS
    case Ticket(_) => SESSION_TICKET
    case Schemes(_) => SIGNATURE_ALGORITHMS
    case Renegotiation(_) => RENEGOTIATION_INFO
    case Protocols(_) => ALPN
    case Timestamps => SCT
    case Unknown(kind, _) => kind
  }

  function Body(e: Extension): seq<byte> {
    match e
    case ServerNames(names) => Vector16(EncodeNames(names))
    case NextProto => []
    case Status(status) => status
    case Curves(curves) => Vector16(WordBytes(curves))
    case Points(points) => Vector8(points)
    case Ticket(ticket) => ticket
    case Schemes(schemes) => Vector16(WordBytes(schemes))
    case Renegotiation(info) => Vector8(info)
    case Protocols(protocols) => Vector16(EncodeProtocols(protocols))
    case Timestamps => []
    case Unknown(_, content) => content
  }

  function EncodeExtensions(es: seq<Extension>): seq<byte> {
    if es == [] then [] else Bytes16(Kind(es[0])) + (Vector16(Body(es[0])) + EncodeExtensions(es[1..]))
  }

  function EncodeBlock(x: Option<seq<Extension>>): seq<byte> {
    match x
    case None => []
    case Some(es) => Vector16(EncodeExtensions(es))
  }

  function Encode(h: Hello): seq<byte> {
    h.head + (Vector8(h.sessionId) +
              (Vector16(WordBytes(h.suites)) + (Vector8(h.compression) + EncodeBlock(h.extensions))))
  }

  predicate EndsWithDot(host: seq<byte>) {
    |host| > 0 && host[|host| - 1] == DOT
  }

  predicate LegalNames(n: Names) {
    match n
    case End => true
    case Other(kind, name, others) => kind != 0 && |name| < TWO16 && LegalNames(others)
    case Host(host, _) => |host| < TWO16 && !EndsWithDot(host)
  }

  predicate LegalProtocols(ps: seq<seq<byte>>) {
    forall p <- ps :: 0 < |p| < 256
  }

  predicate Known(kind: u16) {
    || kind == SERVER_NAME || kind == STATUS_REQUEST || kind == SUPPORTED_CURVES || kind == SUPPORTED_POINTS
    || kind == SIGNATURE_ALGORITHMS || kind == ALPN || kind == SCT || kind == SESSION_TICKET
    || kind == NEXT_PROTO_NEG || kind == RENEGOTIATION_INFO
  }

  /** The limits the reader puts on an extension whose body is shorter than 2^16. */
  predicate LegalContent(e: Extension) {
    match e
    case ServerNames(names) => LegalNames(names)
    case Protocols(protocols) => LegalProtocols(protocols)
    case Points(points) => |points| < 256
    case Renegotiation(info) => |info| < 256
    case Unknown(kind, _) => !Known(kind)
    case _ => true
  }

  predicate LegalExtension(e: Extension) {
    LegalContent(e) && |Body(e)| < TWO16
  }

  predicate LegalFront(h: Hello) {
    |h.head| == 38 && |h.sessionId| <= 32 && |h.suites| < TWO16 / 2 && |h.compression| < 256
  }

  predicate Legal(h: Hello) {
    && LegalFront(h)
    && (h.extensions.Some? ==>
          (forall e <- h.extensions.value :: LegalExtension(e)) && |EncodeExtensions(h.extensions.value)| < TWO16)
  }

  // ---------- the reader as a function ----------

  function ParseNames(d: seq<byte>): Option<Names>
    decreases |d|
  {
    if d == [] then Some(End)
    else
      match Take16(d[1..])
      case Short => None
      case Taken(name, rest) =>
        if d[0] == 0 then
          if EndsWithDot(name) then None else Some(Host(name, rest))
        else
          match ParseNames(rest)
          case None => None
          case Some(n) => Some(Other(d[0], name, n))
  }

  function ParseProtocols(d: seq<byte>): Option<seq<seq<byte>>>
    decreases |d|
  {
    if d == [] then Some([])
    else
      match Take8(d)
      case Short => None
      case Taken(p, rest) =>
        if p == [] then None
        else
          match ParseProtocols(rest)
          case None => None
          case Some(ps) => Some([p] + ps)
  }

  /** What a body that is exactly one two-byte-length vector holds. */
  function Whole16(d: seq<byte>): Option<seq<byte>> {
    var t := Take16(d);
    if t.Taken? && t.rest == [] then Some(t.vector) else None
  }

  function Whole8(d: seq<byte>): Option<seq<byte>> {
    var t := Take8(d);
    if t.Taken? && t.rest == [] then Some(t.vector) else None
  }

  lemma WholeVectors(d: seq<byte>)
    ensures Whole16(d) == if |d| < 2 || Word16(d) != |d| - 2 then None else Some(d[2..])
    ensures Whole8(d) == if |d| < 1 || d[0] != |d| - 1 then None else Some(d[1..])
  {
    if |d| >= 1 && d[0] == |d| - 1 {
      assert d[1..][..d[0]] == d[1..];
    }
    if |d| >= 2 && Word16(d) == |d| - 2 {
      assert d[2..][..Word16(d)] == d[2..];
    }
  }

  function ParseWords(d: seq<byte>): Option<seq<u16>> {
    var v := Whole16(d);
    if v.Some? && |v.value| % 2 == 0 then Some(Words(v.value)) else None
  }

  function ParseBody(kind: u16, d: seq<byte>): Option<Extension> {
    if kind == SERVER_NAME then
      var v := Whole16(d);
      var n := if v.Some? then ParseNames(v.value) else None;
      if n.Some? then Some(ServerNames(n.value)) else None
    else if kind == NEXT_PROTO_NEG then if d == [] then Some(NextProto) else None
    else if kind == STATUS_REQUEST then Some(Status(d))
    else if kind == SUPPORTED_CURVES then
      var w := ParseWords(d);
      if w.Some? then Some(Curves(w.value)) else None
    else if kind == SUPPORTED_POINTS then
      var v := Whole8(d);
      if v.Some? then Some(Points(v.value)) else None
    else if kind == SESSION_TICKET then Some(Ticket(d))
    else if kind == SIGNATURE_ALGORITHMS then
      var w := ParseWords(d);
      if w.Some? then Some(Schemes(w.value)) else None
    else if kind == RENEGOTIATION_INFO then
      var v := Whole8(d);
      if v.Some? then Some(Renegotiation(v.value)) else None
    else if kind == ALPN then
      var v := Whole16(d);
      var ps := if v.Some? then ParseProtocols(v.value) else None;
      if ps.Some? then Some(Protocols(ps.value)) else None
    else if kind == SCT then if d == [] then Some(Timestamps) else None
    else Some(Unknown(kind, d))
  }

  function ParseExtensions(d: seq<byte>): Option<seq<Extension>>
    decreases |d|
  {
    if d == [] then Some([])
    else if |d| < 4 then None
    else
      match Take16(d[2..])
      case Short => None
      case Taken(body, rest) =>
        var e, es := ParseBody(Word16(d), body), ParseExtensions(rest);
        if e.Some? && es.Some? then Some([e.value] + es.value) else None
  }

  function ParseBlock(d: seq<byte>): Option<Option<seq<Extension>>> {
    if d == [] then Some(None)
    else
      var v := Whole16(d);
      var es := if v.Some? then ParseExtensions(v.value) else None;
      if es.Some? then Some(Some(es.value)) else None
  }

  /** Everything before the extensions, as a message without them, and what is left. */
  function ParseFront(d: seq<byte>): Option<(Hello, seq<byte>)> {
    if |d| < 42 then None
    else
      var sid := Take8(d[38..]);
      if sid.Short? || |sid.vector| > 32 then None
      else
        var suites := Take16(sid.rest);
        if suites.Short? || |suites.vector| % 2 == 1 then None
        else
          var comp := Take8(suites.rest);
          if comp.Short? then None
          else Some((Hello(d[..38], sid.vector, Words(suites.vector), comp.vector, None), comp.rest))
  }

  function Parse(d: seq<byte>): Option<Hello> {
    var front := ParseFront(d);
    if front.None? then None
    else
      var x := ParseBlock(front.value.1);
      if x.None? then None else Some(front.value.0.(extensions := x.value))
  }

  // ---------- the reader accepts exactly the legal encodings ----------

  lemma Whole16Exact(d: seq<byte>, v: seq<byte>)
    ensures Whole16(d) == Some(v) <==> |v| < TWO16 && d == Vector16(v)
  {
    Take16Exact(d, v, []);
    assert Vector16(v) + [] == Vector16(v);
  }

  lemma Whole8Exact(d: seq<byte>, v: seq<byte>)
    ensures Whole8(d) == Some(v) <==> |v| < 256 && d == Vector8(v)
  {
    Take8Exact(d, v, []);
    assert Vector8(v) + [] == Vector8(v);
  }

  lemma ParseWordsExact(d: seq<byte>, w: seq<u16>)
    ensures ParseWords(d) == Some(w) <==> |w| < TWO16 / 2 && d == Vector16(WordBytes(w))
  {
    Whole16Exact(d, WordBytes(w));
    WordsExact(WordBytes(w), w);
    if ParseWords(d) == Some(w) {
      WordsExact(Whole16(d).value, w);
    }
  }

  lemma {:induction false} NamesRoundTrip(n: Names)
    requires LegalNames(n)
    ensures ParseNames(EncodeNames(n)) == Some(n)
  {
    var d := EncodeNames(n);
    match n {
      case End =>
      case Other(kind, name, others) =>
        assert d[1..] == Vector16(name) + EncodeNames(others);
        Take16Exact(d[1..], name, EncodeNames(others));
        NamesRoundTrip(others);
      case Host(host, tail) =>
        assert d[1..] == Vector16(host) + tail;
        Take16Exact(d[1..], host, tail);
    }
  }

  lemma {:induction false} NamesFromBytes(d: seq<byte>)
    requires ParseNames(d).Some?
    ensures LegalNames(ParseNames(d).value) && EncodeNames(ParseNames(d).value) == d
    decreases |d|
  {
    if d != [] {
      var t := Take16(d[1..]);
      Take16Exact(d[1..], t.vector, t.rest);
      assert d == [d[0]] + d[1..];
      if d[0] != 0 {
        NamesFromBytes(t.rest);
      }
    }
  }

  lemma {:induction false} ProtocolsRoundTrip(ps: seq<seq<byte>>)
    requires LegalProtocols(ps)
    ensures ParseProtocols(EncodeProtocols(ps)) == Some(ps)
  {
    if ps != [] {
      Take8Exact(EncodeProtocols(ps), ps[0], EncodeProtocols(ps[1..]));
      ProtocolsRoundTrip(ps[1..]);
      assert ps == [ps[0]] + ps[1..];
    }
  }

  lemma {:induction false} ProtocolsFromBytes(d: seq<byte>)
    requires ParseProtocols(d).Some?
    ensures LegalProtocols(ParseProtocols(d).value) && EncodeProtocols(ParseProtocols(d).value) == d
    decreases |d|
  {
    if d != [] {
      var t := Take8(d);
      Take8Exact(d, t.vector, t.rest);
      ProtocolsFromBytes(t.rest);
      assert ParseProtocols(d).value[1..] == ParseProtocols(t.rest).value;
    }
  }

  lemma ListBodyRoundTrip(e: Extension)
    requires LegalExtension(e) && (e.ServerNames? || e.Protocols?)
    ensures ParseBody(Kind(e), Body(e)) == Some(e)
  {
    if e.ServerNames? {
      Whole16Exact(Body(e), EncodeNames(e.names));
      NamesRoundTrip(e.names);
    } else {
      Whole16Exact(Body(e), EncodeProtocols(e.protocols));
      ProtocolsRoundTrip(e.protocols);
    }
  }

  lemma BodyRoundTrip(e: Extension)
    requires LegalExtension(e)
    ensures ParseBody(Kind(e), Body(e)) == Some(e)
  {
    match e {
      case ServerNames(_) => ListBodyRoundTrip(e);
      case Protocols(_) => ListBodyRoundTrip(e);
      case Curves(curves) => ParseWordsExact(Body(e), curves);
      case Schemes(schemes) => ParseWordsExact(Body(e), schemes);
      case Points(points) => Whole8Exact(Body(e), points);
      case Renegotiation(info) => Whole8Exact(Body(e), info);
      case _ =>
    }
  }

  lemma BodyFromBytes(kind: u16, d: seq<byte>)
    requires ParseBody(kind, d).Some?
    ensures var e := ParseBody(kind, d).value; LegalContent(e) && Kind(e) == kind && Body(e) == d
  {
    match ParseBody(kind, d).value {
      case ServerNames(names) =>
        Whole16Exact(d, Whole16(d).value);
        NamesFromBytes(Whole16(d).value);
      case Curves(curves) => ParseWordsExact(d, curves);
      case Schemes(schemes) => ParseWordsExact(d, schemes);
      case Points(points) => Whole8Exact(d, points);
      case Renegotiation(info) => Whole8Exact(d, info);
      case Protocols(protocols) =>
        Whole16Exact(d, Whole16(d).value);
        ProtocolsFromBytes(Whole16(d).value);
      case _ =>
    }
  }

  lemma FirstEncoded(es: seq<Extension>)
    requires es != [] && |Body(es[0])| < TWO16
    ensures var d := EncodeExtensions(es);
            |d| >= 4 && Word16(d) == Kind(es[0]) && Take16(d[2..]) == Taken(Body(es[0]), EncodeExtensions(es[1..]))
  {
    var d, rest := EncodeExtensions(es), EncodeExtensions(es[1..]);
    assert d[2..] == Vector16(Body(es[0])) + rest && Word16(d) == Word16(Bytes16(Kind(es[0])));
    Take16Exact(d[2..], Body(es[0]), rest);
  }

  lemma {:induction false} ExtensionsRoundTrip(es: seq<Extension>)
    requires forall e <- es :: LegalExtension(e)
    ensures ParseExtensions(EncodeExtensions(es)) == Some(es)
  {
    if es != [] {
      assert LegalExtension(es[0]);
      FirstEncoded(es);
      BodyRoundTrip(es[0]);
      ExtensionsRoundTrip(es[1..]);
      assert es == [es[0]] + es[1..];
    }
  }

  lemma Prepended(e: Extension, es: seq<Extension>)
    ensures EncodeExtensions([e] + es) == Bytes16(Kind(e)) + (Vector16(Body(e)) + EncodeExtensions(es))
  {
    assert ([e] + es)[1..] == es;
  }

  lemma FirstFromBytes(d: seq<byte>)
    requires |d| >= 4 && Take16(d[2..]).Taken? && ParseBody(Word16(d), Take16(d[2..]).vector).Some?
    ensures var t := Take16(d[2..]);
            var e := ParseBody(Word16(d), t.vector).value;
            LegalExtension(e) && d == Bytes16(Kind(e)) + (Vector16(Body(e)) + t.rest)
  {
    var t := Take16(d[2..]);
    Take16Exact(d[2..], t.vector, t.rest);
    BodyFromBytes(Word16(d), t.vector);
    assert d == Bytes16(Word16(d)) + d[2..];
  }

  lemma {:induction false} ExtensionsFromBytes(d: seq<byte>)
    requires ParseExtensions(d).Some?
    ensures forall e <- ParseExtensions(d).value :: LegalExtension(e)
    ensures EncodeExtensions(ParseExtensions(d).value) == d
    decreases |d|
  {
    if d != [] {
      var t := Take16(d[2..]);
      var e, es := ParseBody(Word16(d), t.vector).value, ParseExtensions(t.rest).value;
      FirstFromBytes(d);
      ExtensionsFromBytes(t.rest);
      Prepended(e, es);
    }
  }

  lemma BlockExact(d: seq<byte>, x: Option<seq<Extension>>)
    ensures ParseBlock(d) == Some(x) <==>
            d == EncodeBlock(x) && (x.Some? ==> (forall e <- x.value :: LegalExtension(e)) &&
                                                |EncodeExtensions(x.value)| < TWO16)
  {
    if x.Some? {
      if ParseBlock(d) == Some(x) {
        Whole16Exact(d, Whole16(d).value);
        ExtensionsFromBytes(Whole16(d).value);
      }
      if d == EncodeBlock(x) && (forall e <- x.value :: LegalExtension(e)) && |EncodeExtensions(x.value)| < TWO16 {
        Whole16Exact(d, EncodeExtensions(x.value));
        ExtensionsRoundTrip(x.value);
      }
    }
  }

  lemma FrontEncode(h: Hello)
    requires LegalFront(h)
    ensures ParseFront(Encode(h)) == Some((h.(extensions := None), EncodeBlock(h.extensions)))
  {
    var d, block := Encode(h), EncodeBlock(h.extensions);
    var comp := Vector8(h.compression) + block;
    var suites := Vector16(WordBytes(h.suites)) + comp;
    assert d[38..] == Vector8(h.sessionId) + suites && d[..38] == h.head;
    Take8Exact(d[38..], h.sessionId, suites);
    Take16Exact(suites, WordBytes(h.suites), comp);
    WordsExact(WordBytes(h.suites), h.suites);
    Take8Exact(comp, h.compression, block);
  }

  lemma ParseEncode(h: Hello)
    requires Legal(h)
    ensures Parse(Encode(h)) == Some(h)
  {
    FrontEncode(h);
    BlockExact(EncodeBlock(h.extensions), h.extensions);
  }

  lemma SuitesFromBytes(d: seq<byte>)
    requires Take16(d).Taken? && |Take16(d).vector| % 2 == 0
    ensures var w := Words(Take16(d).vector); |w| < TWO16 / 2 && d == Vector16(WordBytes(w)) + Take16(d).rest
  {
    var t := Take16(d);
    Take16Exact(d, t.vector, t.rest);
    WordsExact(t.vector, Words(t.vector));
  }

  lemma FrontFromBytes(d: seq<byte>)
    requires ParseFront(d).Some?
    ensures var (h, rest) := ParseFront(d).value;
            && LegalFront(h)
            && d == h.head + (Vector8(h.sessionId) +
                              (Vector16(WordBytes(h.suites)) + (Vector8(h.compression) + rest)))
  {
    var sid := Take8(d[38..]);
    var comp := Take8(Take16(sid.rest).rest);
    Take8Exact(d[38..], sid.vector, sid.rest);
    SuitesFromBytes(sid.rest);
    Take8Exact(Take16(sid.rest).rest, comp.vector, comp.rest);
    assert d == d[..38] + d[38..];
  }

  lemma EncodeParse(d: seq<byte>)
    requires Parse(d).Some?
    ensures Legal(Parse(d).value) && Encode(Parse(d).value) == d
  {
    FrontFromBytes(d);
    BlockExact(ParseFront(d).value.1, Parse(d).value.extensions);
  }

  /** The reader accepts a byte string and sees `h` in it exactly when `h` is legal and the bytes are its encoding:
      every length field is honoured and the vectors and extensions tile the whole input. */
  lemma ParseExact(d: seq<byte>, h: Hello)
    ensures Parse(d) == Some(h) <==> Legal(h) && d == Encode(h)
  {
    if Parse(d) == Some(h) {
      EncodeParse(d);
    }
    if Legal(h) && d == Encode(h) {
      ParseEncode(h);
    }
  }

  // ---------- what a message means ----------

  /** The fields read before the extensions, and the ones that extensions set. */
  datatype Greeting = Greeting(raw: seq<byte>, vers: u16, random: seq<byte>, sessionId: seq<byte>,
                               cipherSuites: seq<u16>, compressionMethods: seq<byte>)

  datatype Fields = Fields(
    nextProtoNeg: bool, serverName: seq<byte>, ocspStapling: bool, scts: bool, supportedCurves: seq<u16>,
    supportedPoints: seq<byte>, ticketSupported: bool, sessionTicket: seq<byte>,
    supportedSignatureAlgorithms: seq<u16>, secureRenegotiation: seq<byte>, secureRenegotiationSupported: bool,
    alpnProtocols: seq<seq<byte>>)

  /** The fields of a new object. */
  const NEW_FIELDS := Fields(false, [], false, false, [], [], false, [], [], [], false, [])

  function HostOf(n: Names): Option<seq<byte>> {
    match n
    case End => None
    case Other(_, _, others) => HostOf(others)
    case Host(host, _) => Some(host)
  }

  /** The host name of a list, if it has one, becomes the server name. */
  function Named(m: Fields, n: Names): Fields {
    if HostOf(n).Some? then m.(serverName := HostOf(n).value) else m
  }

  /** One of the cipher suites signals secure renegotiation. */
  function Offered(m: Fields, suites: seq<u16>): Fields {
    m.(secureRenegotiationSupported := m.secureRenegotiationSupported || SCSV_RENEGOTIATION in suites)
  }

  function Apply(m: Fields, e: Extension): Fields {
    match e
    case ServerNames(names) => Named(m, names)
    case NextProto => m.(nextProtoNeg := true)
    case Status(status) => m.(ocspStapling := |status| > 0 && status[0] == STATUS_TYPE_OCSP)
    case Curves(curves) => m.(supportedCurves := curves)
    case Points(points) => m.(supportedPoints := points)
    case Ticket(ticket) => m.(ticketSupported := true, sessionTicket := ticket)
    case Schemes(schemes) => m.(supportedSignatureAlgorithms := schemes)
    case Renegotiation(info) => m.(secureRenegotiation := info, secureRenegotiationSupported := true)
    case Protocols(protocols) => m.(alpnProtocols := m.alpnProtocols + protocols)
    case Timestamps => m.(scts := true)
    case Unknown(_, _) => m
  }

  function ApplyAll(m: Fields, es: seq<Extension>): Fields
    decreases |es|
  {
    if es == [] then m else ApplyAll(Apply(m, es[0]), es[1..])
  }

  function Greeted(raw: seq<byte>, h: Hello): Greeting
    requires |h.head| == 38
  {
    Greeting(raw, Word16(h.head[4..]), h.head[6..], h.sessionId, h.suites, h.compression)
  }

  /** The fields when the extensions are about to be read. */
  function Opened(m: Fields, h: Hello): Fields {
    Offered(m, h.suites).(nextProtoNeg := false, serverName := [], ocspStapling := false, ticketSupported := false,
                          sessionTicket := [], supportedSignatureAlgorithms := [], alpnProtocols := [], scts := false)
  }

  function BlockOf(x: Option<seq<Extension>>): seq<Extension> {
    if x.Some? then x.value else []
  }

  function ExtensionsOf(h: Hello): seq<Extension> {
    BlockOf(h.extensions)
  }

  function Meaning(m: Fields, h: Hello): Fields {
    ApplyAll(Opened(m, h), ExtensionsOf(h))
  }

  lemma HeadFields(d: seq<byte>)
    requires |d| >= 38
    ensures Word16(d[..38][4..]) == Word16(d[4..]) && d[..38][6..] == d[6..38]
  {
    assert d[..38][4..][..2] == d[4..][..2];
  }

  // ---------- the server name, also of input that is rejected ----------

  /** The first host name of a list, whether or not it ends in a dot. */
  function NameSeen(d: seq<byte>): Option<seq<byte>>
    decreases |d|
  {
    if d == [] then None
    else
      match Take16(d[1..])
      case Short => None
      case Taken(name, rest) => if d[0] == 0 then Some(name) else NameSeen(rest)
  }

  function NameInBody(kind: u16, d: seq<byte>): Option<seq<byte>> {
    var v := Whole16(d);
    if kind == SERVER_NAME && v.Some? then NameSeen(v.value) else None
  }

  function Or(o: Option<seq<byte>>, name: seq<byte>): seq<byte> {
    if o.Some? then o.value else name
  }

  /** The server name after reading extensions up to the first that is not accepted, that one included. */
  function NameAfter(name: seq<byte>, d: seq<byte>): seq<byte>
    decreases |d|
  {
    if |d| < 4 then name
    else
      match Take16(d[2..])
      case Short => name
      case Taken(body, rest) =>
        var n := Or(NameInBody(Word16(d), body), name);
        if ParseBody(Word16(d), body).None? then n else NameAfter(n, rest)
  }

  function NameInBlock(name: seq<byte>, d: seq<byte>): seq<byte> {
    var v := Whole16(d);
    if v.Some? then NameAfter(name, v.value) else name
  }

  /** The server name after reading `input`, accepted or not, into an object with server name `name`. */
  function NameRead(name: seq<byte>, input: seq<byte>): seq<byte> {
    var front := ParseFront(input);
    if front.None? then name else NameInBlock([], front.value.1)
  }

  /** One round of the protocol loop. */
  lemma ProtocolRead(ps: seq<seq<byte>>, d: seq<byte>)
    requires Take8(d).Taken? && Take8(d).vector != []
    ensures var t := Take8(d);
            && (ParseProtocols(d).Some? <==> ParseProtocols(t.rest).Some?)
            && (ParseProtocols(d).Some? ==>
                  (ps + [t.vector]) + ParseProtocols(t.rest).value == ps + ParseProtocols(d).value)
  {
  }

  // ---------- the message object ----------

  class ClientHelloMsg {
    var raw: seq<byte>
    var vers: u16
    var random: seq<byte>
    var sessionId: seq<byte>
    var cipherSuites: seq<u16>
    var compressionMethods: seq<byte>
    var m: Fields

    ghost function Front(): Greeting
      reads `raw, `vers, `random, `sessionId, `cipherSuites, `compressionMethods
    {
      Greeting(raw, vers, random, sessionId, cipherSuites, compressionMethods)
    }

    /** The fixed part and the session id. */
    method ReadOpening(data: seq<byte>) returns (ok: bool, rest: seq<byte>)
      requires |data| >= 42
      modifies `raw, `vers, `random, `sessionId
      ensures var sid := Take8(data[38..]);
              && (ok <==> sid.Taken? && |sid.vector| <= 32)
              && (ok ==> raw == data && vers == Word16(data[4..]) && random == data[6..38] && sessionId == sid.vector &&
                         rest == sid.rest)
    {
      raw, vers, random := data, Word16(data[4..]), data[6..38];
      var sessionIdLen := data[38];
      rest := data[38..][1..];
      if sessionIdLen > 32 || |rest| < sessionIdLen {
        return false, rest;
      }
      sessionId := rest[..sessionIdLen];
      return true, rest[sessionIdLen..];
    }

    method ReadSuites(d: seq<byte>)
      requires |d| % 2 == 0
      modifies `cipherSuites, `m
      ensures cipherSuites == Words(d) && m == Offered(old(m), cipherSuites)
    {
      var numCipherSuites := |d| / 2;
      cipherSuites := [];
      for i := 0 to numCipherSuites
        invariant |cipherSuites| == i && cipherSuites + Words(d[2 * i..]) == Words(d)
        invariant m == Offered(old(m), cipherSuites)
      {
        var suite := Word16(d[2 * i..]);
        assert d[2 * i..][2..] == d[2 * (i + 1)..];
        assert (cipherSuites + [suite]) + Words(d[2 * (i + 1)..]) == cipherSuites + Words(d[2 * i..]);
        cipherSuites := cipherSuites + [suite];
        if suite == SCSV_RENEGOTIATION {
          m := m.(secureRenegotiationSupported := true);
        }
      }
      assert cipherSuites + Words(d[2 * numCipherSuites..]) == cipherSuites;
    }

    method ReadCipherSuites(data: seq<byte>) returns (ok: bool, rest: seq<byte>)
      modifies `cipherSuites, `m
      ensures var suites := Take16(data);
              && (ok <==> suites.Taken? && |suites.vector| % 2 == 0)
              && (ok ==> cipherSuites == Words(suites.vector) && rest == suites.rest &&
                         m == Offered(old(m), cipherSuites))
      ensures m.serverName == old(m).serverName
    {
      rest := data;
      if |data| < 2 {
        return false, rest;
      }
      var cipherSuiteLen := Word16(data);
      if cipherSuiteLen % 2 == 1 || |data| - 2 < cipherSuiteLen {
        return false, rest;
      }
      ReadSuites(data[2..][..cipherSuiteLen]);
      return true, data[2..][cipherSuiteLen..];
    }

    method ReadNames(names: seq<byte>) returns (ok: bool)
      modifies `m
      ensures ok <==> ParseNames(names).Some?
      ensures ok ==> m == Named(old(m), ParseNames(names).value)
      ensures m.serverName == Or(NameSeen(names), old(m).serverName)
    {
      var d := names;
      while |d| > 0
        invariant m == old(m) && NameSeen(names) == NameSeen(d)
        invariant ParseNames(names).Some? <==> ParseNames(d).Some?
        invariant ParseNames(d).Some? ==> HostOf(ParseNames(names).value) == HostOf(ParseNames(d).value)
        decreases |d|
      {
        if |d| < 3 {
          return false;
        }
        var nameType, nameLen := d[0], Word16(d[1..]);
        var rest := d[1..][2..];
        if |rest| < nameLen {
          return false;
        }
        if nameType == 0 {
          m := m.(serverName := rest[..nameLen]);
          return !EndsWithDot(m.serverName);
        }
        d := rest[nameLen..];
      }
      return true;
    }

    method ReadStrings(list: seq<byte>) returns (ok: bool)
      modifies `m
      ensures ok <==> ParseProtocols(list).Some?
      ensures ok ==> m == old(m).(alpnProtocols := old(m).alpnProtocols + ParseProtocols(list).value)
      ensures m.serverName == old(m).serverName
    {
      var d := list;
      while |d| != 0
        invariant ParseProtocols(list).Some? <==> ParseProtocols(d).Some?
        invariant ParseProtocols(d).Some? ==>
                    m.alpnProtocols + ParseProtocols(d).value == old(m).alpnProtocols + ParseProtocols(list).value
        invariant m == old(m).(alpnProtocols := m.alpnProtocols)
        decreases |d|
      {
        var stringLen, rest := d[0], d[1..];
        if stringLen == 0 || stringLen > |rest| {
          return false;
        }
        ProtocolRead(m.alpnProtocols, d);
        m := m.(alpnProtocols := m.alpnProtocols + [rest[..stringLen]]);
        d := rest[stringLen..];
      }
      return true;
    }

    /** The loop that both lists of 16-bit codes are read with. */
    method ReadWords(codes: seq<byte>) returns (w: seq<u16>)
      requires |codes| % 2 == 0
      ensures w == Words(codes)
    {
      var d, n := codes, |codes| / 2;
      w := [];
      for i := 0 to n
        invariant |d| == |codes| - 2 * i && w + Words(d) == Words(codes)
      {
        w, d := w + [Word16(d)], d[2..];
      }
    }

    // The cases of the switch over the extension types, each for the extension with body `d`.

    method ReadServerNames(d: seq<byte>) returns (ok: bool)
      requires |d| < TWO16
      modifies `m
      ensures ok <==> ParseBody(SERVER_NAME, d).Some?
      ensures ok ==> m == Apply(old(m), ParseBody(SERVER_NAME, d).value)
      ensures m.serverName == Or(NameInBody(SERVER_NAME, d), old(m).serverName)
    {
      WholeVectors(d);
      if |d| < 2 || |d[2..]| != Word16(d) {
        return false;
      }
      ok := ReadNames(d[2..]);
    }

    method ReadCurves(d: seq<byte>) returns (ok: bool)
      requires |d| < TWO16
      modifies `m
      ensures ok <==> ParseBody(SUPPORTED_CURVES, d).Some?
      ensures ok ==> m == Apply(old(m), ParseBody(SUPPORTED_CURVES, d).value)
      ensures m.serverName == old(m).serverName
    {
      WholeVectors(d);
      if |d| < 2 || Word16(d) % 2 == 1 || |d| != Word16(d) + 2 {
        return false;
      }
      var curves := ReadWords(d[2..]);
      m := m.(supportedCurves := curves);
      return true;
    }

    method ReadPoints(d: seq<byte>) returns (ok: bool)
      requires |d| < TWO16
      modifies `m
      ensures ok <==> ParseBody(SUPPORTED_POINTS, d).Some?
      ensures ok ==> m == Apply(old(m), ParseBody(SUPPORTED_POINTS, d).value)
      ensures m.serverName == old(m).serverName
    {
      WholeVectors(d);
      if |d| < 1 || |d| - 1 != d[0] {
        return false;
      }
      m := m.(supportedPoints := d[1..]);
      return true;
    }

    method ReadSchemes(d: seq<byte>) returns (ok: bool)
      requires |d| < TWO16
      modifies `m
      ensures ok <==> ParseBody(SIGNATURE_ALGORITHMS, d).Some?
      ensures ok ==> m == Apply(old(m), ParseBody(SIGNATURE_ALGORITHMS, d).value)
      ensures m.serverName == old(m).serverName
    {
      WholeVectors(d);
      if |d| < 2 || |d| % 2 != 0 || Word16(d) != |d| - 2 {
        return false;
      }
      var schemes := ReadWords(d[2..]);
      m := m.(supportedSignatureAlgorithms := schemes);
      return true;
    }

    method ReadRenegotiation(d: seq<byte>) returns (ok: bool)
      requires |d| < TWO16
      modifies `m
      ensures ok <==> ParseBody(RENEGOTIATION_INFO, d).Some?
      ensures ok ==> m == Apply(old(m), ParseBody(RENEGOTIATION_INFO, d).value)
      ensures m.serverName == old(m).serverName
    {
      WholeVectors(d);
      if |d| == 0 || d[0] != |d[1..]| {
        return false;
      }
      m := m.(secureRenegotiation := d[1..], secureRenegotiationSupported := true);
      return true;
    }

    method ReadProtocols(d: seq<byte>) returns (ok: bool)
      requires |d| < TWO16
      modifies `m
      ensures ok <==> ParseBody(ALPN, d).Some?
      ensures ok ==> m == Apply(old(m), ParseBody(ALPN, d).value)
      ensures m.serverName == old(m).serverName
    {
      WholeVectors(d);
      if |d| < 2 || Word16(d) != |d| - 2 {
        return false;
      }
      ok := ReadStrings(d[2..]);
    }

    method ReadExtension(extension: u16, d: seq<byte>) returns (ok: bool)
      requires |d| < TWO16
      modifies `m
      ensures ok <==> ParseBody(extension, d).Some?
      ensures ok ==> m == Apply(old(m), ParseBody(extension, d).value)
      ensures m.serverName == Or(NameInBody(extension, d), old(m).serverName)
    {
      if extension == SERVER_NAME {
        ok := ReadServerNames(d);
      } else if extension == NEXT_PROTO_NEG {
        if |d| > 0 {
          return false;
        }
        m := m.(nextProtoNeg := true);
        return true;
      } else if extension == STATUS_REQUEST {
        m := m.(ocspStapling := |d| > 0 && d[0] == STATUS_TYPE_OCSP);
        return true;
      } else if extension == SUPPORTED_CURVES {
        ok := ReadCurves(d);
      } else if extension == SUPPORTED_POINTS {
        ok := ReadPoints(d);
      } else if extension == SESSION_TICKET {
        m := m.(ticketSupported := true, sessionTicket := d);
        return true;
      } else if extension == SIGNATURE_ALGORITHMS {
        ok := ReadSchemes(d);
      } else if extension == RENEGOTIATION_INFO {
        ok := ReadRenegotiation(d);
      } else if extension == ALPN {
        ok := ReadProtocols(d);
      } else if extension == SCT {
        m := m.(scts := true);
        return |d| == 0;
      } else {
        return true;
      }
    }

    method ReadExtensions(block: seq<byte>) returns (ok: bool)
      modifies `m
      ensures ok <==> ParseExtensions(block).Some?
      ensures ok ==> m == ApplyAll(old(m), ParseExtensions(block).value)
      ensures m.serverName == NameAfter(old(m).serverName, block)
    {
      var data := block;
      while |data| != 0
        invariant ParseExtensions(block).Some? <==> ParseExtensions(data).Some?
        invariant ParseExtensions(data).Some? ==>
                    ApplyAll(m, ParseExtensions(data).value) == ApplyAll(old(m), ParseExtensions(block).value)
        invariant NameAfter(m.serverName, data) == NameAfter(old(m).serverName, block)
        decreases |data|
      {
        if |data| < 4 {
          return false;
        }
        var extension, length := Word16(data), Word16(data[2..]);
        var rest := data[2..][2..];
        if |rest| < length {
          return false;
        }
        ok := ReadExtension(extension, rest[..length]);
        if !ok {
          return;
        }
        data := rest[length..];
      }
      return true;
    }

    /** What follows the compression methods: nothing, or one vector of extensions. */
    method ReadBlock(data: seq<byte>) returns (ok: bool)
      modifies `m
      ensures ok <==> ParseBlock(data).Some?
      ensures ok ==> m == ApplyAll(old(m), BlockOf(ParseBlock(data).value))
      ensures m.serverName == NameInBlock(old(m).serverName, data)
    {
      if |data| == 0 {
        return true;
      }
      if |data| < 2 {
        return false;
      }
      WholeVectors(data);
      if Word16(data) != |data[2..]| {
        return false;
      }
      ok := ReadExtensions(data[2..]);
    }

    /** Everything before the extensions. */
    method ReadFront(input: seq<byte>) returns (ok: bool, data: seq<byte>)
      modifies `raw, `vers, `random, `sessionId, `cipherSuites, `compressionMethods, `m
      requires |input| >= 42
      ensures var front := ParseFront(input);
              && (ok <==> front.Some?)
              && (ok ==> data == front.value.1 && Front() == Greeted(input, front.value.0) &&
                         m == Offered(old(m), front.value.0.suites))
      ensures m.serverName == old(m).serverName
    {
      ok, data := ReadOpening(input);
      if !ok {
        return;
      }
      ok, data := ReadCipherSuites(data);
      if !ok {
        return;
      }
      if |data| < 1 || |data| - 1 < data[0] {
        return false, data;
      }
      compressionMethods, data := data[1..][..data[0]], data[1..][data[0]..];
      HeadFields(input);
    }

    method Unmarshal(input: seq<byte>) returns (ok: bool)
      modifies this
      ensures ok <==> Parse(input).Some?
      ensures ok ==> Front() == Greeted(input, Parse(input).value)
      ensures ok ==> m == Meaning(old(m), Parse(input).value)
      ensures |input| < 42 ==> Front() == old(Front()) && m == old(m)
      ensures m.serverName == NameRead(old(m).serverName, input)
    {
      if |input| < 42 {
        return false;
      }
      var data;
      ok, data := ReadFront(input);
      if !ok {
        return;
      }
      m := m.(nextProtoNeg := false, serverName := [], ocspStapling := false, ticketSupported := false,
              sessionTicket := [], supportedSignatureAlgorithms := [], alpnProtocols := [], scts := false);
      ok := ReadBlock(data);
    }

    method GetServerName() returns (name: seq<byte>)
      ensures name == m.serverName
    {
      name := m.serverName;
    }
  }

  // ---------- the server name ----------

  /** The host name of the last server name extension that has one. */
  function LastHost(es: seq<Extension>): Option<seq<byte>> {
    if es == [] then None
    else
      var e := es[|es| - 1];
      if e.ServerNames? && HostOf(e.names).Some? then HostOf(e.names) else LastHost(es[..|es| - 1])
  }

  lemma {:induction false} ApplyAllLast(m: Fields, es: seq<Extension>)
    requires es != []
    ensures ApplyAll(m, es) == Apply(ApplyAll(m, es[..|es| - 1]), es[|es| - 1])
    decreases |es|
  {
    if |es| > 1 {
      ApplyAllLast(Apply(m, es[0]), es[1..]);
      assert es[1..][..|es| - 2] == es[..|es| - 1][1..];
    }
  }

  lemma AppliedName(m: Fields, e: Extension)
    ensures Apply(m, e).serverName ==
            if e.ServerNames? && HostOf(e.names).Some? then HostOf(e.names).value else m.serverName
  {
  }

  lemma {:induction false} LastHostIsKept(m: Fields, es: seq<Extension>)
    ensures ApplyAll(m, es).serverName == if LastHost(es).Some? then LastHost(es).value else m.serverName
    decreases |es|
  {
    if es != [] {
      var before := ApplyAll(m, es[..|es| - 1]);
      ApplyAllLast(m, es);
      LastHostIsKept(m, es[..|es| - 1]);
      AppliedName(before, es[|es| - 1]);
    }
  }

  /** For every legal message the reader accepts its bytes, and the server name is the host name encoded in it: the
      first one of the last server name extension that has any, and empty when none does. */
  lemma ServerNameIsTheEncodedHost(m: Fields, h: Hello)
    requires Legal(h)
    ensures Parse(Encode(h)) == Some(h)
    ensures Meaning(m, h).serverName ==
            if LastHost(ExtensionsOf(h)).Some? then LastHost(ExtensionsOf(h)).value else []
  {
    ParseExact(Encode(h), h);
    LastHostIsKept(Opened(m, h), ExtensionsOf(h));
  }

  // ---------- the server name of rejected input ----------

  /** `d` holds extensions, the first of which is not accepted. */
  predicate FirstRejected(d: seq<byte>) {
    d != [] && (|d| >= 4 && Take16(d[2..]).Taken? ==> ParseBody(Word16(d), Take16(d[2..]).vector).None?)
  }

  /** The host name that the first extension of `d` names. */
  function FirstHost(d: seq<byte>): Option<seq<byte>> {
    if |d| >= 4 && Take16(d[2..]).Taken? then NameInBody(Word16(d), Take16(d[2..]).vector) else None
  }

  lemma {:induction false} SeenIsHost(d: seq<byte>)
    ensures match ParseNames(d)
            case Some(n) => NameSeen(d) == HostOf(n)
            case None => NameSeen(d).Some? ==> EndsWithDot(NameSeen(d).value)
    decreases |d|
  {
    if d != [] && d[0] != 0 && Take16(d[1..]).Taken? {
      SeenIsHost(Take16(d[1..]).rest);
    }
  }

  lemma BodyNames(m: Fields, kind: u16, d: seq<byte>)
    ensures match ParseBody(kind, d)
            case Some(e) => Or(NameInBody(kind, d), m.serverName) == Apply(m, e).serverName
            case None => NameInBody(kind, d).Some? ==> EndsWithDot(NameInBody(kind, d).value)
  {
    if kind == SERVER_NAME && Whole16(d).Some? {
      SeenIsHost(Whole16(d).value);
    }
    if ParseBody(kind, d).Some? {
      AppliedName(m, ParseBody(kind, d).value);
    }
  }

  /** One round of the extension loop. */
  lemma FirstRead(name: seq<byte>, d: seq<byte>)
    requires |d| >= 4 && Take16(d[2..]).Taken?
    ensures var t := Take16(d[2..]);
            if ParseBody(Word16(d), t.vector).None?
            then NameAfter(name, d) == Or(FirstHost(d), name) && ParseExtensions(d).None?
            else NameAfter(name, d) == NameAfter(Or(FirstHost(d), name), t.rest) &&
                 (ParseExtensions(d).None? <==> ParseExtensions(t.rest).None?)
  {
  }

  lemma Joined(m: Fields, e: Extension, es: seq<Extension>, tail: seq<byte>)
    ensures EncodeExtensions([e] + es) + tail ==
            Bytes16(Kind(e)) + (Vector16(Body(e)) + (EncodeExtensions(es) + tail))
    ensures ApplyAll(m, [e] + es) == ApplyAll(Apply(m, e), es)
  {
    Prepended(e, es);
    assert ([e] + es)[1..] == es;
  }

  /** Extensions that are not all accepted consist of legal ones and what the reader stops at; the server name is then
      what the legal ones make it, unless it stops at a host name that ends in a dot. */
  lemma {:induction false} SplitAtRejected(m: Fields, d: seq<byte>) returns (es: seq<Extension>, tail: seq<byte>)
    requires ParseExtensions(d).None?
    ensures d == EncodeExtensions(es) + tail && (forall e <- es :: LegalExtension(e)) && FirstRejected(tail)
    ensures NameAfter(m.serverName, d) == Or(FirstHost(tail), ApplyAll(m, es).serverName)
    ensures FirstHost(tail).Some? ==> EndsWithDot(FirstHost(tail).value)
    decreases |d|
  {
    if |d| >= 4 && Take16(d[2..]).Taken? {
      var t := Take16(d[2..]);
      FirstRead(m.serverName, d);
      BodyNames(m, Word16(d), t.vector);
      if ParseBody(Word16(d), t.vector).Some? {
        var e := ParseBody(Word16(d), t.vector).value;
        FirstFromBytes(d);
        var rest;
        rest, tail := SplitAtRejected(Apply(m, e), t.rest);
        es := [e] + rest;
        Joined(m, e, rest, tail);
        return;
      }
    }
    es, tail := [], d;
  }

  /** The server name that rejected input leaves: the old one if its front cannot be read, none if the length of its
      extensions is wrong, and else the host name that the legal extensions before the offending one give, or, if that
      one names a host ending in a dot, that host. */
  lemma RejectedServerName(name: seq<byte>, input: seq<byte>) returns (es: seq<Extension>, tail: seq<byte>)
    requires Parse(input).None?
    ensures match ParseFront(input)
            case None => NameRead(name, input) == name
            case Some(front) =>
              match Whole16(front.1)
              case None => NameRead(name, input) == []
              case Some(block) =>
                && block == EncodeExtensions(es) + tail && (forall e <- es :: LegalExtension(e)) && FirstRejected(tail)
                && NameRead(name, input) == Or(FirstHost(tail), Or(LastHost(es), []))
                && (FirstHost(tail).Some? ==> EndsWithDot(FirstHost(tail).value))
  {
    es, tail := [], [];
    if ParseFront(input).Some? {
      var block := Whole16(ParseFront(input).value.1);
      if block.Some? {
        es, tail := SplitAtRejected(NEW_FIELDS, block.value);
        LastHostIsKept(NEW_FIELDS, es);
      }
    }
  }

  /** A list that would be legal but for a dot at the end of its host name. */
  predicate Dotted(n: Names) {
    match n
    case End => false
    case Other(kind, name, others) => kind != 0 && |name| < TWO16 && Dotted(others)
    case Host(host, _) => |host| < TWO16 && EndsWithDot(host)
  }

  lemma {:induction false} DottedSeen(n: Names)
    requires Dotted(n)
    ensures HostOf(n).Some? && NameSeen(EncodeNames(n)) == HostOf(n) && ParseNames(EncodeNames(n)).None?
  {
    var d := EncodeNames(n);
    match n {
      case Other(kind, name, others) =>
        assert d[1..] == Vector16(name) + EncodeNames(others);
        Take16Exact(d[1..], name, EncodeNames(others));
        DottedSeen(others);
      case Host(host, tail) =>
        assert d[1..] == Vector16(host) + tail;
        Take16Exact(d[1..], host, tail);
    }
  }

  predicate IsDotted(e: Extension) {
    e.ServerNames? && Dotted(e.names) && |Body(e)| < TWO16
  }

  /** The host name of the first extension that is not legal, if all that is wrong with that one is the dot. */
  function DottedHost(es: seq<Extension>): Option<seq<byte>> {
    if es == [] then None
    else if IsDotted(es[0]) then HostOf(es[0].names)
    else if LegalExtension(es[0]) then DottedHost(es[1..])
    else None
  }

  lemma DottedBody(e: Extension)
    requires IsDotted(e)
    ensures ParseBody(SERVER_NAME, Body(e)).None?
    ensures HostOf(e.names).Some? && NameInBody(SERVER_NAME, Body(e)) == HostOf(e.names)
  {
    Whole16Exact(Body(e), EncodeNames(e.names));
    DottedSeen(e.names);
  }

  lemma {:induction false} DottedStops(es: seq<Extension>, name: seq<byte>)
    requires DottedHost(es).Some?
    ensures var d := EncodeExtensions(es); ParseExtensions(d).None? && Some(NameAfter(name, d)) == DottedHost(es)
  {
    FirstEncoded(es);
    FirstRead(name, EncodeExtensions(es));
    if IsDotted(es[0]) {
      DottedBody(es[0]);
    } else {
      BodyRoundTrip(es[0]);
      DottedStops(es[1..], Or(NameInBody(Kind(es[0]), Body(es[0])), name));
    }
  }

  /** A hello with a host name that ends in a dot is rejected, whatever follows that name, and still leaves it as the
      server name. */
  lemma DottedHostIsServed(name: seq<byte>, h: Hello)
    requires LegalFront(h) && DottedHost(ExtensionsOf(h)).Some? && |EncodeExtensions(ExtensionsOf(h))| < TWO16
    ensures Parse(Encode(h)).None? && Some(NameRead(name, Encode(h))) == DottedHost(ExtensionsOf(h))
  {
    FrontEncode(h);
    Whole16Exact(EncodeBlock(h.extensions), EncodeExtensions(ExtensionsOf(h)));
    DottedStops(ExtensionsOf(h), []);
  }

  // ---------- reading into a used object ----------

  predicate Has(es: seq<Extension>, kind: u16) {
    exists i :: 0 <= i < |es| && Kind(es[i]) == kind && !es[i].Unknown?
  }

  /** Four fields are not reset, so they can carry over from a message read earlier into the same object. */
  predicate SameCarryOver(m: Fields, n: Fields, h: Hello) {
    var es := ExtensionsOf(h);
    && (m.supportedCurves == n.supportedCurves || Has(es, SUPPORTED_CURVES))
    && (m.supportedPoints == n.supportedPoints || Has(es, SUPPORTED_POINTS))
    && (m.secureRenegotiation == n.secureRenegotiation || Has(es, RENEGOTIATION_INFO))
    && (m.secureRenegotiationSupported == n.secureRenegotiationSupported || Has(es, RENEGOTIATION_INFO) ||
        SCSV_RENEGOTIATION in h.suites)
  }

  lemma HasFirst(es: seq<Extension>, kind: u16)
    requires es != []
    ensures Has(es, kind) <==> (Kind(es[0]) == kind && !es[0].Unknown?) || Has(es[1..], kind)
  {
    if Has(es, kind) {
      var i :| 0 <= i < |es| && Kind(es[i]) == kind && !es[i].Unknown?;
      assert i > 0 ==> es[1..][i - 1] == es[i];
    }
    if Has(es[1..], kind) {
      var i :| 0 <= i < |es[1..]| && Kind(es[1..][i]) == kind && !es[1..][i].Unknown?;
      assert es[i + 1] == es[1..][i];
    }
  }

  predicate AgreeBut(m: Fields, n: Fields) {
    && m.nextProtoNeg == n.nextProtoNeg && m.serverName == n.serverName && m.ocspStapling == n.ocspStapling
    && m.scts == n.scts && m.ticketSupported == n.ticketSupported && m.sessionTicket == n.sessionTicket
    && m.supportedSignatureAlgorithms == n.supportedSignatureAlgorithms && m.alpnProtocols == n.alpnProtocols
  }

  predicate AgreeAfter(m: Fields, n: Fields, curves: bool, points: bool, renegotiation: bool) {
    && (m.supportedCurves == n.supportedCurves || curves)
    && (m.supportedPoints == n.supportedPoints || points)
    && (m.secureRenegotiation == n.secureRenegotiation || renegotiation)
    && (m.secureRenegotiationSupported == n.secureRenegotiationSupported || renegotiation)
  }

  lemma AppliedAgree(m: Fields, n: Fields, e: Extension, c: bool, p: bool, r: bool)
    requires AgreeBut(m, n)
    ensures AgreeBut(Apply(m, e), Apply(n, e))
    ensures AgreeAfter(Apply(m, e), Apply(n, e), c, p, r) <==>
            AgreeAfter(m, n, e.Curves? || c, e.Points? || p, e.Renegotiation? || r)
  {
    if e.ServerNames? {
      assert HostOf(e.names).Some? || HostOf(e.names).None?;
    }
  }

  lemma {:induction false} FieldsAgree(m: Fields, n: Fields, es: seq<Extension>)
    requires AgreeBut(m, n)
    ensures ApplyAll(m, es) == ApplyAll(n, es) <==>
            AgreeAfter(m, n, Has(es, SUPPORTED_CURVES), Has(es, SUPPORTED_POINTS), Has(es, RENEGOTIATION_INFO))
    decreases |es|
  {
    if es != [] {
      var e, rest := es[0], es[1..];
      HasFirst(es, SUPPORTED_CURVES);
      HasFirst(es, SUPPORTED_POINTS);
      HasFirst(es, RENEGOTIATION_INFO);
      AppliedAgree(m, n, e, Has(rest, SUPPORTED_CURVES), Has(rest, SUPPORTED_POINTS), Has(rest, RENEGOTIATION_INFO));
      FieldsAgree(Apply(m, e), Apply(n, e), rest);
    }
  }

  /** What an object held before reading shows in the result exactly through those four fields. */
  lemma CarryOver(m: Fields, n: Fields, h: Hello)
    ensures Meaning(m, h) == Meaning(n, h) <==> SameCarryOver(m, n, h)
  {
    FieldsAgree(Opened(m, h), Opened(n, h), ExtensionsOf(h));
  }

  /** The least message, read into two objects that differ in the curves of an earlier one. */
  lemma CarryOverHappens()
    ensures var h := Hello(seq(38, _ => 0), [], [], [], None);
            var used := NEW_FIELDS.(supportedCurves := [23]);
            && Parse(Encode(h)) == Some(h)
            && Meaning(NEW_FIELDS, h).supportedCurves == [] && Meaning(used, h).supportedCurves == [23]
  {
    ParseEncode(Hello(seq(38, _ => 0), [], [], [], None));
  }
}
