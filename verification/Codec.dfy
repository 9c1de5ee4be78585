/** The 48-byte NTP message: translation, byte order and decoding. */
module Codec {
  import opened Words
  import opened Ntp
  import opened LocalTime

  type int8 = x: int | -0x80 <= x < 0x80

  const MESSAGE_SIZE: int := 48
  const DSTADDR: uint32 := 50337196

  /** The header fields that ntp_x and ntp_r share. */
  datatype Header = Header(
    leap: uint8, version: uint8, mode: uint8, stratum: uint8, poll: uint8, precision: int8,
    rootdelay: uint32, rootdisp: uint32, refid: uint32,
    reftime: uint64, org: uint64, rec: uint64, xmt: uint64)

  /** The value of an ntp_packet: four octets, then eleven 32-bit words. */
  datatype View = View(
    liVnMode: uint8, stratum: uint8, poll: uint8, precision: uint8,
    rootDelay: uint32, rootDispersion: uint32, refId: uint32,
    refTmS: uint32, refTmF: uint32, origTmS: uint32, origTmF: uint32,
    rxTmS: uint32, rxTmF: uint32, txTmS: uint32, txTmF: uint32)

  // ---- Byte order ----

  function Pow256(n: nat): (p: nat)
    ensures p >= 1
  {
    if n == 0 then 1 else 0x100 * Pow256(n - 1)
  }

  /** The n low bytes of x, least significant first. */
  function Bytes(x: nat, n: nat): (s: seq<uint8>)
    ensures |s| == n
  {
    if n == 0 then [] else [x % 0x100] + Bytes(x / 0x100, n - 1)
  }

  /** The number with the given bytes, least significant first. */
  function Number(s: seq<uint8>): (x: nat)
    ensures x < Pow256(|s|)
  {
    if s == [] then 0 else s[0] + 0x100 * Number(s[1..])
  }

  function Reversed(s: seq<uint8>): (r: seq<uint8>)
    ensures |r| == |s|
    ensures forall k :: 0 <= k < |s| ==> r[k] == s[|s| - 1 - k]
  {
    if s == [] then [] else Reversed(s[1..]) + [s[0]]
  }

  lemma LowByte(low: uint8, high: nat)
    ensures (low + 0x100 * high) % 0x100 == low && (low + 0x100 * high) / 0x100 == high
  {
  }

  lemma {:induction false} BytesOfNumber(s: seq<uint8>)
    ensures Bytes(Number(s), |s|) == s
  {
    if s != [] {
      BytesOfNumber(s[1..]);
      LowByte(s[0], Number(s[1..]));
    }
  }

  lemma {:induction false} NumberOfBytes(x: nat, n: nat)
    requires x < Pow256(n)
    ensures Number(Bytes(x, n)) == x
  {
    if n > 0 {
      NumberOfBytes(x / 0x100, n - 1);
      assert Bytes(x, n)[1..] == Bytes(x / 0x100, n - 1);
    }
  }

  lemma FourBytes()
    ensures Pow256(4) == TWO32
  {
    assert Pow256(2) == 0x1_0000;
  }

  /** A word as a little-endian host stores it. */
  function Stored(x: uint32): seq<uint8> { Bytes(x, 4) }

  function Fetched(s: seq<uint8>): uint32
    requires |s| == 4
  {
    FourBytes();
    Number(s)
  }

  lemma FetchStored(x: uint32)
    ensures Fetched(Stored(x)) == x
  {
    FourBytes();
    NumberOfBytes(x, 4);
  }

  lemma StoreFetched(s: seq<uint8>)
    requires |s| == 4
    ensures Stored(Fetched(s)) == s
  {
    BytesOfNumber(s);
  }

  /** FreeRTOS_htonl on such a host reverses the bytes. */
  function Htonl(x: uint32): uint32 { Fetched(Reversed(Stored(x))) }

  lemma HtonlReverses(x: uint32)
    ensures Stored(Htonl(x)) == Reversed(Stored(x))
  {
    StoreFetched(Reversed(Stored(x)));
  }

  lemma HtonlInvolution(x: uint32)
    ensures Htonl(Htonl(x)) == x
  {
    HtonlReverses(x);
    var s := Stored(x);
    assert Reversed(Reversed(s)) == s;
    FetchStored(x);
  }

  // ---- Translation, swapping, decoding as functions of values ----

  function Translate(x: Header): View {
    View(x.leap % 4 * 64 + x.version % 8 * 8 + x.mode % 8, x.stratum, x.poll, x.precision % 0x100,
         x.rootdelay, x.rootdisp, x.refid,
         High(x.reftime), Low(x.reftime), High(x.org), Low(x.org),
         High(x.rec), Low(x.rec), High(x.xmt), Low(x.xmt))
  }

  /** Every word but the reference identifier changes byte order. */
  function Swapped(p: View): View {
    p.(rootDelay := Htonl(p.rootDelay), rootDispersion := Htonl(p.rootDispersion),
       refTmS := Htonl(p.refTmS), refTmF := Htonl(p.refTmF),
       origTmS := Htonl(p.origTmS), origTmF := Htonl(p.origTmF),
       rxTmS := Htonl(p.rxTmS), rxTmF := Htonl(p.rxTmF),
       txTmS := Htonl(p.txTmS), txTmF := Htonl(p.txTmF))
  }

  function Decode(p: View): Header {
    Header(p.liVnMode / 64 % 4, p.liVnMode / 8 % 8, p.liVnMode % 8, p.stratum, p.poll,
           if p.precision < 0x80 then p.precision else p.precision - 0x100,
           p.rootDelay, p.rootDispersion, p.refId,
           Join(p.refTmS, p.refTmF), Join(p.origTmS, p.origTmF),
           Join(p.rxTmS, p.rxTmF), Join(p.txTmS, p.txTmF))
  }

  lemma SwapInvolution(p: View)
    ensures Swapped(Swapped(p)) == p
  {
    HtonlInvolution(p.rootDelay);
    HtonlInvolution(p.rootDispersion);
    HtonlInvolution(p.refTmS);
    HtonlInvolution(p.refTmF);
    HtonlInvolution(p.origTmS);
    HtonlInvolution(p.origTmF);
    HtonlInvolution(p.rxTmS);
    HtonlInvolution(p.rxTmF);
    HtonlInvolution(p.txTmS);
    HtonlInvolution(p.txTmF);
  }

  predicate FieldsFit(x: Header) { x.leap < 4 && x.version < 8 && x.mode < 8 }

  lemma OctetRoundTrip(leap: uint8, version: uint8, mode: uint8)
    ensures var octet := leap % 4 * 64 + version % 8 * 8 + mode % 8;
            octet / 64 % 4 == leap % 4 && octet / 8 % 8 == version % 8 && octet % 8 == mode % 8
  {
  }

  lemma TranslateDecode(x: Header)
    ensures Decode(Translate(x)) == x <==> FieldsFit(x)
  {
    OctetRoundTrip(x.leap, x.version, x.mode);
  }

  lemma OctetSplit(octet: uint8)
    ensures octet / 64 % 4 % 4 * 64 + octet / 8 % 8 % 8 * 8 + octet % 8 % 8 == octet
  {
  }

  lemma JoinParts(hi: uint32, lo: uint32)
    ensures High(Join(hi, lo)) == hi && Low(Join(hi, lo)) == lo
  {
  }

  lemma DecodeTranslate(p: View)
    ensures Translate(Decode(p)) == p
  {
    hide Join, High, Low;
    OctetSplit(p.liVnMode);
    JoinParts(p.refTmS, p.refTmF);
    JoinParts(p.origTmS, p.origTmF);
    JoinParts(p.rxTmS, p.rxTmF);
    JoinParts(p.txTmS, p.txTmF);
  }

  // ---- Memory of a little-endian host ----

  function WordsOf(p: View): (ws: seq<uint32>)
    ensures |ws| == 11
  {
    [p.rootDelay, p.rootDispersion, p.refId, p.refTmS, p.refTmF, p.origTmS, p.origTmF,
     p.rxTmS, p.rxTmF, p.txTmS, p.txTmF]
  }

  function OctetsOf(p: View): (os: seq<uint8>)
    ensures |os| == 4
  {
    [p.liVnMode, p.stratum, p.poll, p.precision]
  }

  function Assemble(os: seq<uint8>, ws: seq<uint32>): View
    requires |os| == 4 && |ws| == 11
  {
    View(os[0], os[1], os[2], os[3], ws[0], ws[1], ws[2], ws[3], ws[4], ws[5], ws[6], ws[7], ws[8],
         ws[9], ws[10])
  }

  lemma AssembleParts(p: View)
    ensures Assemble(OctetsOf(p), WordsOf(p)) == p
  {
  }

  lemma PartsAssembled(os: seq<uint8>, ws: seq<uint32>)
    requires |os| == 4 && |ws| == 11
    ensures OctetsOf(Assemble(os, ws)) == os && WordsOf(Assemble(os, ws)) == ws
  {
  }

  function StoredAll(ws: seq<uint32>): (s: seq<uint8>)
    ensures |s| == 4 * |ws|
  {
    if ws == [] then [] else Stored(ws[0]) + StoredAll(ws[1..])
  }

  function FetchedAll(s: seq<uint8>): (ws: seq<uint32>)
    requires |s| % 4 == 0
    ensures 4 * |ws| == |s|
  {
    if s == [] then [] else [Fetched(s[..4])] + FetchedAll(s[4..])
  }

  lemma {:induction false} FetchStoredAll(ws: seq<uint32>)
    ensures FetchedAll(StoredAll(ws)) == ws
  {
    if ws != [] {
      FetchStoredAll(ws[1..]);
      FetchStored(ws[0]);
      assert StoredAll(ws)[..4] == Stored(ws[0]) && StoredAll(ws)[4..] == StoredAll(ws[1..]);
    }
  }

  lemma {:induction false} StoreFetchedAll(s: seq<uint8>)
    requires |s| % 4 == 0
    ensures StoredAll(FetchedAll(s)) == s
  {
    if s != [] {
      StoreFetchedAll(s[4..]);
      StoreFetched(s[..4]);
      assert FetchedAll(s)[1..] == FetchedAll(s[4..]);
    }
  }

  lemma {:induction false} StoredAt(ws: seq<uint32>, k: nat)
    requires k < |ws|
    ensures StoredAll(ws)[4 * k..4 * k + 4] == Stored(ws[k])
  {
    if k > 0 {
      StoredAt(ws[1..], k - 1);
      assert StoredAll(ws)[4 * k..4 * k + 4] == StoredAll(ws[1..])[4 * (k - 1)..4 * (k - 1) + 4];
    }
  }

  function Memory(p: View): (bytes: seq<uint8>)
    ensures |bytes| == MESSAGE_SIZE
  {
    OctetsOf(p) + StoredAll(WordsOf(p))
  }

  function Loaded(bytes: seq<uint8>): View
    requires |bytes| == MESSAGE_SIZE
  {
    Assemble(bytes[..4], FetchedAll(bytes[4..]))
  }

  lemma LoadStore(p: View)
    ensures Loaded(Memory(p)) == p
  {
    assert Memory(p)[..4] == OctetsOf(p) && Memory(p)[4..] == StoredAll(WordsOf(p));
    FetchStoredAll(WordsOf(p));
    AssembleParts(p);
  }

  lemma StoreLoad(bytes: seq<uint8>)
    requires |bytes| == MESSAGE_SIZE
    ensures Memory(Loaded(bytes)) == bytes
  {
    PartsAssembled(bytes[..4], FetchedAll(bytes[4..]));
    StoreFetchedAll(bytes[4..]);
  }

  // ---- The wire ----

  /** What xmit_packet hands to the socket. */
  function Wire(x: Header): seq<uint8> { Memory(Swapped(Translate(x))) }

  /** What recv_packet makes of a message. */
  function Received(bytes: seq<uint8>): Header
    requires |bytes| == MESSAGE_SIZE
  {
    Decode(Swapped(Loaded(bytes)))
  }

  /** The receiver recovers every header field exactly when the three packed
      fields fit their bits. */
  lemma WireRoundTrip(x: Header)
    ensures |Wire(x)| == MESSAGE_SIZE
    ensures Received(Wire(x)) == x <==> FieldsFit(x)
  {
    LoadStore(Swapped(Translate(x)));
    SwapInvolution(Translate(x));
    TranslateDecode(x);
  }

  /** Every 48-byte message is what its decoded header encodes to. */
  lemma MessageRoundTrip(bytes: seq<uint8>)
    requires |bytes| == MESSAGE_SIZE
    ensures FieldsFit(Received(bytes)) && Wire(Received(bytes)) == bytes
  {
    var p := Loaded(bytes);
    DecodeTranslate(Swapped(p));
    SwapInvolution(p);
    StoreLoad(bytes);
  }

  function BigEndian(x: uint32): seq<uint8> { Reversed(Stored(x)) }

  function BigEndian64(x: uint64): seq<uint8> { BigEndian(High(x)) + BigEndian(Low(x)) }

  /** The bytes of word k in memory. */
  function Place(p: View, k: nat): seq<uint8>
    requires k < 11
  {
    Memory(p)[4 * k + 4..4 * k + 8]
  }

  lemma PlaceHolds(p: View, k: nat)
    requires k < 11
    ensures Place(p, k) == Stored(WordsOf(p)[k])
  {
    StoredAt(WordsOf(p), k);
    assert Memory(p)[4 * k + 4..4 * k + 8] == StoredAll(WordsOf(p))[4 * k..4 * k + 4];
  }

  lemma SwappedPlace(p: View, k: nat, x: uint32)
    requires k < 11
    requires WordsOf(p)[k] == Htonl(x)
    ensures Place(p, k) == BigEndian(x)
  {
    PlaceHolds(p, k);
    HtonlReverses(x);
  }

  lemma SwappedPair(p: View, k: nat, x: uint64)
    requires k < 10
    requires WordsOf(p)[k] == Htonl(High(x)) && WordsOf(p)[k + 1] == Htonl(Low(x))
    ensures Memory(p)[4 * k + 4..4 * k + 12] == BigEndian64(x)
  {
    SwappedPlace(p, k, High(x));
    SwappedPlace(p, k + 1, Low(x));
    assert Memory(p)[4 * k + 4..4 * k + 12] == Place(p, k) + Place(p, k + 1);
  }

  /** The layout of section 7.3 of RFC 5905: short-format and timestamp fields
      are big-endian in their places. The reference identifier is the one word
      sent in host order. */
  lemma WireShortFields(x: Header)
    ensures var w := Wire(x);
            w[0] == x.leap % 4 * 64 + x.version % 8 * 8 + x.mode % 8 &&
            w[1] == x.stratum && w[2] == x.poll && w[3] == x.precision % 0x100 &&
            w[4..8] == BigEndian(x.rootdelay) && w[8..12] == BigEndian(x.rootdisp) &&
            w[12..16] == Stored(x.refid)
  {
    var p := Swapped(Translate(x));
    SwappedPlace(p, 0, x.rootdelay);
    SwappedPlace(p, 1, x.rootdisp);
    PlaceHolds(p, 2);
    assert Memory(p)[..4] == OctetsOf(p);
  }

  lemma WireTimestamps(x: Header)
    ensures var w := Wire(x);
            w[16..24] == BigEndian64(x.reftime) && w[24..32] == BigEndian64(x.org) &&
            w[32..40] == BigEndian64(x.rec) && w[40..48] == BigEndian64(x.xmt)
  {
    var p := Swapped(Translate(x));
    SwappedPair(p, 3, x.reftime);
    SwappedPair(p, 5, x.org);
    SwappedPair(p, 7, x.rec);
    SwappedPair(p, 9, x.xmt);
  }

  // ---- The structures filled in place ----

  class Packet {
    var liVnMode: uint8
    var stratum: uint8
    var poll: uint8
    var precision: uint8
    var rootDelay: uint32
    var rootDispersion: uint32
    var refId: uint32
    var refTmS: uint32
    var refTmF: uint32
    var origTmS: uint32
    var origTmF: uint32
    var rxTmS: uint32
    var rxTmF: uint32
    var txTmS: uint32
    var txTmF: uint32

    function Value(): View
      reads this
    {
      View(liVnMode, stratum, poll, precision, rootDelay, rootDispersion, refId,
           refTmS, refTmF, origTmS, origTmF, rxTmS, rxTmF, txTmS, txTmF)
    }

    method TranslateFrom(x: Header)
      modifies this
      ensures Value() == Translate(x)
    {
      hide High, Low;
      SetOctets(x);
      rootDelay := x.rootdelay;
      rootDispersion := x.rootdisp;
      refId := x.refid;
      SetTimestamps(x);
    }

    method SetOctets(x: Header)
      modifies `liVnMode, `stratum, `poll, `precision
      ensures liVnMode == x.leap % 4 * 64 + x.version % 8 * 8 + x.mode % 8 && precision == x.precision % 0x100
      ensures stratum == x.stratum && poll == x.poll
    {
      liVnMode := x.leap % 4 * 64 + x.version % 8 * 8 + x.mode % 8;
      stratum := x.stratum;
      poll := x.poll;
      precision := x.precision % 0x100;
    }

    method SetTimestamps(x: Header)
      modifies `refTmS, `refTmF, `origTmS, `origTmF, `rxTmS, `rxTmF, `txTmS, `txTmF
      ensures refTmS == High(x.reftime) && refTmF == Low(x.reftime)
      ensures origTmS == High(x.org) && origTmF == Low(x.org)
      ensures rxTmS == High(x.rec) && rxTmF == Low(x.rec)
      ensures txTmS == High(x.xmt) && txTmF == Low(x.xmt)
    {
      hide High, Low;
      refTmS, refTmF := High(x.reftime), Low(x.reftime);
      origTmS, origTmF := High(x.org), Low(x.org);
      rxTmS, rxTmF := High(x.rec), Low(x.rec);
      txTmS, txTmF := High(x.xmt), Low(x.xmt);
    }

    method SwapFields()
      modifies this
      ensures Value() == Swapped(old(Value()))
    {
      hide Htonl;
      rootDelay := Htonl(rootDelay);
      rootDispersion := Htonl(rootDispersion);
      SwapEarlier();
      SwapLater();
    }

    method SwapEarlier()
      modifies `refTmS, `refTmF, `origTmS, `origTmF
      ensures refTmS == Htonl(old(refTmS)) && refTmF == Htonl(old(refTmF))
      ensures origTmS == Htonl(old(origTmS)) && origTmF == Htonl(old(origTmF))
    {
      hide Htonl;
      refTmS := Htonl(refTmS);
      refTmF := Htonl(refTmF);
      origTmS := Htonl(origTmS);
      origTmF := Htonl(origTmF);
    }

    method SwapLater()
      modifies `rxTmS, `rxTmF, `txTmS, `txTmF
      ensures rxTmS == Htonl(old(rxTmS)) && rxTmF == Htonl(old(rxTmF))
      ensures txTmS == Htonl(old(txTmS)) && txTmF == Htonl(old(txTmF))
    {
      hide Htonl;
      rxTmS := Htonl(rxTmS);
      rxTmF := Htonl(rxTmF);
      txTmS := Htonl(txTmS);
      txTmF := Htonl(txTmF);
    }
  }

  class ReceiveBuffer {
    var header: Header
    var srcaddr: uint32
    var dstaddr: uint32
    var dst: uint64

    constructor ()
    {
      header := Header(0, 0, 0, 0, 0, 0, 0, 0, 0, 0, 0, 0, 0);
      srcaddr, dstaddr, dst := 0, 0, 0;
    }

    /** prv_create_ntp_r: decode a swapped packet and stamp its arrival. */
    method CreateFrom(pkt: Packet, c: Clock, serverIp: uint32, tick: uint32)
      modifies this, c`localTime, c`lastTick
      ensures header == Decode(pkt.Value())
      ensures srcaddr == serverIp && dstaddr == DSTADDR
      ensures StampOf(c) == AfterCall(old(StampOf(c)), Call(tick, false)) && dst == c.localTime
    {
      srcaddr, dstaddr := serverIp, DSTADDR;
      header := header.(leap := pkt.liVnMode / 64 % 4, version := pkt.liVnMode / 8 % 8,
                        mode := pkt.liVnMode % 8);
      header := header.(stratum := pkt.stratum, poll := pkt.poll,
                        precision := if pkt.precision < 0x80 then pkt.precision else pkt.precision - 0x100);
      header := header.(rootdelay := pkt.rootDelay, rootdisp := pkt.rootDispersion, refid := pkt.refId);
      header := header.(org := Join(pkt.origTmS, pkt.origTmF), reftime := Join(pkt.refTmS, pkt.refTmF));
      header := header.(xmt := Join(pkt.txTmS, pkt.txTmF), rec := Join(pkt.rxTmS, pkt.rxTmF));
      GetTime(c, tick, false);
      dst := c.localTime;
    }
  }

  /** A message sent by one client and received by another, both sides running
      the in-place routines. */
  method SendAndReceive(x: Header, c: Clock, serverIp: uint32, tick: uint32) returns (r: ReceiveBuffer)
    requires FieldsFit(x)
    modifies c`localTime, c`lastTick
    ensures r.header == x
  {
    var pkt := new Packet;
    pkt.TranslateFrom(x);
    pkt.SwapFields();
    pkt.SwapFields();
    SwapInvolution(Translate(x));
    r := new ReceiveBuffer();
    r.CreateFrom(pkt, c, serverIp, tick);
    TranslateDecode(x);
  }
}
