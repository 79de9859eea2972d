/** What a ClientHello means, said without the functions that read and write it: where its numbers stand in the bytes,
    and what its extensions set. */
module HelloMeaning {
  import opened Basics
  import opened ClientHello

  // ---------- where the numbers stand ----------

  /** A vector with a two-byte length has the high byte of the length first. */
  lemma Vector16Layout(v: seq<byte>)
    requires |v| < TWO16
    ensures Vector16(v) == [|v| / 256, |v| % 256] + v
  {
    BigEndian(|v|, [0, 0]);
  }

  lemma {:induction false} WordsLayout(w: seq<u16>, i: nat)
    requires i < |w|
    ensures WordBytes(w)[2 * i] == w[i] / 256 && WordBytes(w)[2 * i + 1] == w[i] % 256
  {
    BigEndian(w[0], [0, 0]);
    if i > 0 {
      WordsLayout(w[1..], i - 1);
      assert WordBytes(w) == Bytes16(w[0]) + WordBytes(w[1..]);
    }
  }

  /** The numbers of the extensions that the reader knows. */
  lemma KindNumbers(e: Extension)
    requires LegalExtension(e)
    ensures match e
            case ServerNames(_) => Kind(e) == 0
            case Status(_) => Kind(e) == 5
            case Curves(_) => Kind(e) == 10
            case Points(_) => Kind(e) == 11
            case Schemes(_) => Kind(e) == 13
            case Protocols(_) => Kind(e) == 16
            case Timestamps => Kind(e) == 18
            case Ticket(_) => Kind(e) == 35
            case NextProto => Kind(e) == 13172
            case Renegotiation(_) => Kind(e) == 65281
            case Unknown(kind, _) => Kind(e) == kind && kind !in {0, 5, 10, 11, 13, 16, 18, 35, 13172, 65281}
  {
  }

  /** An extension starts with its number and the length of its body, high bytes first. */
  lemma ExtensionLayout(e: Extension, es: seq<Extension>)
    requires |Body(e)| < TWO16
    ensures EncodeExtensions([e] + es) ==
            [Kind(e) / 256, Kind(e) % 256] + ([|Body(e)| / 256, |Body(e)| % 256] + Body(e) + EncodeExtensions(es))
  {
    var body := Body(e);
    assert Bytes16(Kind(e)) == [Kind(e) / 256, Kind(e) % 256] by {
      BigEndian(Kind(e), [0, 0]);
    }
    assert Vector16(body) == [|body| / 256, |body| % 256] + body by {
      Vector16Layout(body);
    }
    Prepended(e, es);
  }

  function BlockLayout(x: Option<seq<Extension>>): seq<byte>
    requires x.Some? ==> |EncodeExtensions(x.value)| < TWO16
  {
    if x.None? then []
    else var b := EncodeExtensions(x.value); [|b| / 256, |b| % 256] + b
  }

  lemma BlockIs(x: Option<seq<Extension>>)
    requires x.Some? ==> |EncodeExtensions(x.value)| < TWO16
    ensures EncodeBlock(x) == BlockLayout(x)
  {
    if x.Some? {
      Vector16Layout(EncodeExtensions(x.value));
    }
  }

  /** The whole of an accepted message: after 38 bytes the session id, the cipher suites, the compression methods and
      the extensions, each behind its length. */
  lemma HelloLayout(h: Hello)
    requires Legal(h)
    ensures var n, suites := 2 * |h.suites|, WordBytes(h.suites);
            Encode(h) == h.head + ([|h.sessionId|] + h.sessionId +
                                   ([n / 256, n % 256] + suites +
                                    ([|h.compression|] + h.compression + BlockLayout(h.extensions))))
  {
    var suites := WordBytes(h.suites);
    assert Vector16(suites) == [|suites| / 256, |suites| % 256] + suites by {
      Vector16Layout(suites);
    }
    BlockIs(h.extensions);
    assert Vector8(h.sessionId) == [|h.sessionId|] + h.sessionId;
    assert Vector8(h.compression) == [|h.compression|] + h.compression;
  }

  /** The version is read from two bytes of the head, high byte first, and the random bytes follow. */
  lemma GreetingLayout(raw: seq<byte>, h: Hello)
    requires |h.head| == 38
    ensures var g := Greeted(raw, h);
            && g.raw == raw && g.vers / 256 == h.head[4] && g.vers % 256 == h.head[5] && g.random == h.head[6..38]
            && g.sessionId == h.sessionId && g.cipherSuites == h.suites && g.compressionMethods == h.compression
  {
    BigEndian(0, h.head[4..]);
  }

  const TWO_LETTERS := ServerNames(Host([97, 98], []))

  lemma TwoLetters()
    ensures LegalExtension(TWO_LETTERS)
    ensures EncodeExtensions([TWO_LETTERS]) == [0, 0, 0, 7, 0, 5, 0, 0, 2, 97, 98]
  {
    assert EncodeNames(TWO_LETTERS.names) == [0, 0, 2, 97, 98] by {
      Vector16Layout([97, 98]);
    }
    assert Body(TWO_LETTERS) == [0, 5, 0, 0, 2, 97, 98] by {
      Vector16Layout([0, 0, 2, 97, 98]);
    }
    ExtensionLayout(TWO_LETTERS, []);
    assert [TWO_LETTERS] + [] == [TWO_LETTERS];
  }

  lemma SmallSuites()
    ensures WordBytes([0x1301]) == [0x13, 0x01]
  {
    BigEndian(0x1301, [0, 0]);
    assert WordBytes([0x1301]) == Bytes16(0x1301) + WordBytes([]);
  }

  function Small(head: seq<byte>): Hello {
    Hello(head, [], [0x1301], [0], Some([TWO_LETTERS]))
  }

  lemma SmallBytes(head: seq<byte>)
    requires |head| == 38
    ensures Legal(Small(head))
    ensures Encode(Small(head)) == head + [0, 0, 2, 0x13, 0x01, 1, 0, 0, 11, 0, 0, 0, 7, 0, 5, 0, 0, 2, 97, 98]
  {
    TwoLetters();
    SmallSuites();
    HelloLayout(Small(head));
    Joined([0], [0, 2], [0x13, 0x01], [1], [0], [0, 11], [0, 0, 0, 7, 0, 5, 0, 0, 2, 97, 98]);
  }

  /** One cipher suite, one compression method and a server name of two letters, byte by byte. */
  lemma SmallHello(head: seq<byte>)
    requires |head| == 38
    ensures Parse(head + [0, 0, 2, 0x13, 0x01, 1, 0, 0, 11, 0, 0, 0, 7, 0, 5, 0, 0, 2, 97, 98]) == Some(Small(head))
  {
    SmallBytes(head);
    ParseExact(Encode(Small(head)), Small(head));
  }

  lemma Joined(a: seq<byte>, b: seq<byte>, c: seq<byte>, d: seq<byte>, e: seq<byte>, f: seq<byte>, g: seq<byte>)
    ensures a + [] + (b + c + (d + e + (f + g))) == a + b + c + d + e + f + g
  {
  }

  // ---------- what the extensions set ----------

  /** The place of the last extension with number `kind` among those the reader knows, or -1. */
  function Last(es: seq<Extension>, kind: u16): (i: int)
    ensures -1 <= i < |es|
    ensures i >= 0 ==> Kind(es[i]) == kind && !es[i].Unknown?
    ensures forall j :: i < j < |es| && !es[j].Unknown? ==> Kind(es[j]) != kind
  {
    if es == [] then -1
    else if Kind(es[|es| - 1]) == kind && !es[|es| - 1].Unknown? then |es| - 1
    else Last(es[..|es| - 1], kind)
  }

  /** All protocol names, in order. */
  function AllProtocols(es: seq<Extension>): seq<seq<byte>> {
    if es == [] then []
    else AllProtocols(es[..|es| - 1]) + if es[|es| - 1].Protocols? then es[|es| - 1].protocols else []
  }

  predicate CodesSetBy(es: seq<Extension>, m: Fields, r: Fields) {
    var curves, points, schemes := Last(es, 10), Last(es, 11), Last(es, 13);
    && r.supportedCurves == (if curves >= 0 then es[curves].curves else m.supportedCurves)
    && r.supportedPoints == (if points >= 0 then es[points].points else m.supportedPoints)
    && r.supportedSignatureAlgorithms == (if schemes >= 0 then es[schemes].schemes else m.supportedSignatureAlgorithms)
  }

  predicate TicketSetBy(es: seq<Extension>, m: Fields, r: Fields) {
    var status, ticket := Last(es, 5), Last(es, 35);
    && r.ocspStapling == (if status >= 0 then |es[status].status| > 0 && es[status].status[0] == 1 else m.ocspStapling)
    && r.ticketSupported == (m.ticketSupported || ticket >= 0)
    && r.sessionTicket == (if ticket >= 0 then es[ticket].ticket else m.sessionTicket)
  }

  predicate FlagsSetBy(es: seq<Extension>, m: Fields, r: Fields) {
    var info := Last(es, 65281);
    && r.nextProtoNeg == (m.nextProtoNeg || Last(es, 13172) >= 0)
    && r.scts == (m.scts || Last(es, 18) >= 0)
    && r.secureRenegotiation == (if info >= 0 then es[info].info else m.secureRenegotiation)
    && r.secureRenegotiationSupported == (m.secureRenegotiationSupported || info >= 0)
  }

  /** The fields after the extensions, given those before: the last extension of each kind decides, except that all
      protocol names are kept. */
  predicate SetBy(es: seq<Extension>, m: Fields, r: Fields) {
    && CodesSetBy(es, m, r)
    && TicketSetBy(es, m, r)
    && FlagsSetBy(es, m, r)
    && r.serverName == Or(LastHost(es), m.serverName)
    && r.alpnProtocols == m.alpnProtocols + AllProtocols(es)
  }

  predicate CodesSetByOne(e: Extension, m: Fields, r: Fields) {
    && r.supportedCurves == (if e.Curves? then e.curves else m.supportedCurves)
    && r.supportedPoints == (if e.Points? then e.points else m.supportedPoints)
    && r.supportedSignatureAlgorithms == (if e.Schemes? then e.schemes else m.supportedSignatureAlgorithms)
  }

  lemma AppliedCodes(m: Fields, e: Extension)
    ensures CodesSetByOne(e, m, Apply(m, e))
  {
  }

  lemma CodesStep(es: seq<Extension>, m: Fields, before: Fields, r: Fields)
    requires es != [] && CodesSetBy(es[..|es| - 1], m, before) && CodesSetByOne(es[|es| - 1], before, r)
    ensures CodesSetBy(es, m, r)
  {
  }

  lemma {:induction false} CodesSet(m: Fields, es: seq<Extension>)
    ensures CodesSetBy(es, m, ApplyAll(m, es))
    decreases |es|
  {
    if es != [] {
      var before := ApplyAll(m, es[..|es| - 1]);
      CodesSet(m, es[..|es| - 1]);
      ApplyAllLast(m, es);
      AppliedCodes(before, es[|es| - 1]);
      CodesStep(es, m, before, ApplyAll(m, es));
    }
  }

  predicate TicketSetByOne(e: Extension, m: Fields, r: Fields) {
    && r.ocspStapling == (if e.Status? then |e.status| > 0 && e.status[0] == 1 else m.ocspStapling)
    && r.ticketSupported == (m.ticketSupported || e.Ticket?)
    && r.sessionTicket == (if e.Ticket? then e.ticket else m.sessionTicket)
  }

  lemma AppliedTicket(m: Fields, e: Extension)
    ensures TicketSetByOne(e, m, Apply(m, e))
  {
  }

  lemma TicketStep(es: seq<Extension>, m: Fields, before: Fields, r: Fields)
    requires es != [] && TicketSetBy(es[..|es| - 1], m, before) && TicketSetByOne(es[|es| - 1], before, r)
    ensures TicketSetBy(es, m, r)
  {
  }

  lemma {:induction false} TicketSet(m: Fields, es: seq<Extension>)
    ensures TicketSetBy(es, m, ApplyAll(m, es))
    decreases |es|
  {
    if es != [] {
      var before := ApplyAll(m, es[..|es| - 1]);
      TicketSet(m, es[..|es| - 1]);
      ApplyAllLast(m, es);
      AppliedTicket(before, es[|es| - 1]);
      TicketStep(es, m, before, ApplyAll(m, es));
    }
  }

  predicate FlagsSetByOne(e: Extension, m: Fields, r: Fields) {
    && r.nextProtoNeg == (m.nextProtoNeg || e.NextProto?)
    && r.scts == (m.scts || e.Timestamps?)
    && r.secureRenegotiation == (if e.Renegotiation? then e.info else m.secureRenegotiation)
    && r.secureRenegotiationSupported == (m.secureRenegotiationSupported || e.Renegotiation?)
  }

  lemma AppliedFlags(m: Fields, e: Extension)
    ensures FlagsSetByOne(e, m, Apply(m, e))
  {
  }

  lemma FlagsStep(es: seq<Extension>, m: Fields, before: Fields, r: Fields)
    requires es != [] && FlagsSetBy(es[..|es| - 1], m, before) && FlagsSetByOne(es[|es| - 1], before, r)
    ensures FlagsSetBy(es, m, r)
  {
  }

  lemma {:induction false} FlagsSet(m: Fields, es: seq<Extension>)
    ensures FlagsSetBy(es, m, ApplyAll(m, es))
    decreases |es|
  {
    if es != [] {
      var before := ApplyAll(m, es[..|es| - 1]);
      FlagsSet(m, es[..|es| - 1]);
      ApplyAllLast(m, es);
      AppliedFlags(before, es[|es| - 1]);
      FlagsStep(es, m, before, ApplyAll(m, es));
    }
  }

  lemma AppliedProtocols(m: Fields, e: Extension)
    ensures Apply(m, e).alpnProtocols == if e.Protocols? then m.alpnProtocols + e.protocols else m.alpnProtocols
  {
  }

  lemma {:induction false} ProtocolsGather(m: Fields, es: seq<Extension>)
    ensures ApplyAll(m, es).alpnProtocols == m.alpnProtocols + AllProtocols(es)
    decreases |es|
  {
    if es != [] {
      var front := es[..|es| - 1];
      ApplyAllLast(m, es);
      AppliedProtocols(ApplyAll(m, front), es[|es| - 1]);
      ProtocolsGather(m, front);
    }
  }

  /** What a legal message sets: eight fields start empty, four as they were, one of them also set by the cipher suite
      0x00ff; then the last extension of each kind decides, except that all protocol names are kept. */
  lemma MeaningIsLastExtension(m: Fields, h: Hello)
    requires Legal(h)
    ensures Parse(Encode(h)) == Some(h)
    ensures SetBy(ExtensionsOf(h),
                  Fields(false, [], false, false, m.supportedCurves, m.supportedPoints, false, [], [],
                         m.secureRenegotiation, m.secureRenegotiationSupported || 0x00ff in h.suites, []),
                  Meaning(m, h))
  {
    ParseEncode(h);
    var before, es := Opened(m, h), ExtensionsOf(h);
    CodesSet(before, es);
    TicketSet(before, es);
    FlagsSet(before, es);
    LastHostIsKept(before, es);
    ProtocolsGather(before, es);
  }
}
