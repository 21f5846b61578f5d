/** What the built frames mean: their elements, their headers, and the negotiated rewrite. */
module FrameLaws {
  import opened Bytes
  import opened Elements
  import opened Dot11Frames

  // ----- Headers and payloads -----

  /** Reading a header back: frame control, three addresses, and the sequence number modulo 4096
      above a zero fragment number. */
  lemma HeaderFields(fc: word, a1: Mac, a2: Mac, a3: Mac, seqNum: word, rest: seq<byte>)
    ensures var f := Header(fc, a1, a2, a3, seqNum) + rest;
      && f[..2] == Le16(fc) && f[4..10] == a1 && f[10..16] == a2 && f[16..22] == a3
      && f[22..24] == Le16(seqNum % 4096 * 16) && f[24..] == rest
  {
    SequenceWraps(seqNum);
  }

  lemma SequenceWraps(seqNum: word)
    ensures seqNum * 16 % 0x1_0000 == seqNum % 4096 * 16
  {
  }

  /** A probe response to the same request data is the beacon under another header. */
  lemma BeaconAndProbeAgree(self: Mac, sta: Mac, ssid: seq<byte>, channel: byte, wpa2: bool)
    ensures Beacon(self, ssid, channel, wpa2)[24..] == ProbeResp(self, sta, ssid, channel, wpa2)[24..]
  {
  }

  /** Both EAPOL directions carry the key body from byte 32 on, whatever its length. */
  lemma EapolCarriesBody(fc: word, a1: Mac, a2: Mac, a3: Mac, keyBody: seq<byte>)
    ensures var f := EapolKey(fc, a1, a2, a3, keyBody);
      |f| == 32 + |keyBody| && f[32..] == keyBody && f[24..32] == LLC_EAPOL
  {
  }

  // ----- Whole frames, byte by byte -----

  const EVERYONE: seq<byte> := [0xFF, 0xFF, 0xFF, 0xFF, 0xFF, 0xFF]
  const RATES_IE: seq<byte> := [1, 8, 0x82, 0x84, 0x8b, 0x96, 0x0c, 0x12, 0x18, 0x24]
  const OFDM_RATES_IE: seq<byte> := [1, 8, 0x8c, 0x12, 0x98, 0x24, 0xb0, 0x48, 0x60, 0x6c]
  const EXT_RATES_IE: seq<byte> := [0x32, 4, 0x30, 0x48, 0x60, 0x6c]
  const RSN_IE_HEAD: seq<byte> := [0x30, 20, 1, 0, 0, 0x0f, 0xac, 4, 1, 0, 0, 0x0f, 0xac, 4, 1, 0, 0, 0x0f, 0xac, 2]
  const LLC_EAPOL: seq<byte> := [0xaa, 0xaa, 3, 0, 0, 0, 0x88, 0x8e]

  // What a station announces after RSN: WMM, HT and VHT capabilities, operating mode, extended capabilities.
  const WMM_IE: seq<byte> := [0xdd, 0x07, 0x00, 0x50, 0xf2, 0x02, 0x00, 0x01, 0x00]
  const HT_IE: seq<byte> := [0x2d, 0x1a, 0x2c, 0x19, 0x13, 0xff, 0xff,
    0x00, 0x00, 0x00, 0x00, 0x00, 0x00, 0x00, 0x00, 0x00, 0x00,
    0x00, 0x00, 0x00, 0x00, 0x00, 0x00, 0x00, 0x00, 0x00, 0x00, 0x00]
  const VHT_IE: seq<byte> := [0xbf, 0x0c, 0xa2, 0x31, 0xc0, 0x03, 0xfa, 0xff, 0x63, 0x03, 0xfa, 0xff, 0x63, 0x03]
  const MODE_IE: seq<byte> := [0xc7, 0x01, 0x12]
  const EXT_CAPS_IE: seq<byte> := [0x7f, 0x08, 0x00, 0x00, 0x00, 0x00, 0x00, 0x00, 0x00, 0x40]
  const STATION_TAIL: seq<byte> := WMM_IE + HT_IE + VHT_IE + MODE_IE + EXT_CAPS_IE

  /** Receiver, transmitter, BSSID and a zero sequence number, behind a two-byte frame control. */
  function Addressed(control: seq<byte>, receiver: Mac, transmitter: Mac, bssid: Mac): seq<byte> {
    control + [0, 0] + receiver + transmitter + bssid + [0, 0]
  }

  /** A beacon goes to everyone from the BSSID itself: time 0, interval 100, privacy if protected. */
  lemma BeaconBytes(self: Mac, ssid: seq<byte>, channel: byte, wpa2: bool)
    ensures Beacon(self, ssid, channel, wpa2)
         == Addressed([0x80, 0], EVERYONE, self, self) + [0, 0, 0, 0, 0, 0, 0, 0] + [100, 0]
            + [if wpa2 then 0x11 else 0x01, 0] + [0, |ssid| % 256] + ssid + RATES_IE + [3, 1, channel]
            + if wpa2 then RSN_IE_HEAD + [0, 0] else []
  {
    hide Encode, ApElements, EncodeElement, Addressed, Header;
    ZeroHeader(FC_MGMT + FC_SUB_BEACON, BROADCAST, self, self);
    EncodedApElements(channel, wpa2);
    ElementBytes(channel, 0);
  }

  /** A probe response is the same body addressed to the asking station. */
  lemma ProbeRespBytes(ap: Mac, sta: Mac, ssid: seq<byte>, channel: byte, wpa2: bool)
    ensures ProbeResp(ap, sta, ssid, channel, wpa2)
         == Addressed([0x50, 0], sta, ap, ap) + Beacon(ap, ssid, channel, wpa2)[24..]
  {
    hide ApBody, Addressed, Header;
    ZeroHeader(FC_MGMT + FC_SUB_PROBE_RESP, sta, ap, ap);
  }

  /** An association response: ESS and privacy, success, the AID under two set bits, and rates. */
  lemma AssocRespBytes(ap: Mac, sta: Mac, aid: word)
    ensures AssocResp(ap, sta, aid)
         == Addressed([0x10, 0], sta, ap, ap) + [0x11, 0] + [0, 0] + [aid % 256, 192 + aid / 256 % 64] + RATES_IE
  {
    hide Encode, EncodeElement, Addressed, Header;
    ZeroHeader(FC_MGMT + FC_SUB_ASSOC_RESP, sta, ap, ap);
    EncodeTwo(Element(TAG_RATES, RATES), Element(TAG_RATES, RATES));
    ElementBytes(0, 0);
    AidBytes(aid);
  }

  lemma AidBytes(aid: word)
    ensures Le16(0xC000 + aid % 0x4000) == [aid % 256, 192 + aid / 256 % 64]
  {
    var low := aid % 0x4000;
    assert aid / 256 == aid / 0x4000 * 64 + low / 256;
  }

  /** An association request goes to the BSSID from the station: capabilities 0x1531, listen interval
      3, then SSID, rates, RSN with the capabilities given, and the station's announcements. */
  lemma AssocRequestBytes(self: Mac, bssid: Mac, ssid: seq<byte>, caps: word, ofdmOnly: bool)
    ensures AssocRequest(self, bssid, ssid, caps, ofdmOnly)
         == Addressed([0x00, 0], bssid, self, bssid) + [0x31, 0x15] + [3, 0] + [0, |ssid| % 256] + ssid
            + (if ofdmOnly then OFDM_RATES_IE else RATES_IE + EXT_RATES_IE)
            + (RSN_IE_HEAD + [caps % 256, caps / 256]) + STATION_TAIL
  {
    hide Encode, EncodeElement, Addressed, RateElements, TailElements, Rsn, AssocPrefix;
    hide RATES_IE, OFDM_RATES_IE, EXT_RATES_IE, RSN_IE_HEAD, STATION_TAIL;
    PrefixBytes(self, bssid, ssid, ofdmOnly);
    ElementBytes(0, caps);
    TailBytes();
  }

  /** With other ciphers than CCMP for both, and capabilities free of the tag byte, the request ends in
      an RSN element naming them: group before pairwise, most significant byte first. */
  lemma NegotiatedBytes(self: Mac, bssid: Mac, ssid: seq<byte>, pairwise: dword, group: dword, caps: word, ofdmOnly: bool)
    requires !(pairwise == 0x000F_AC04 && group == 0x000F_AC04) && caps % 256 != 0x30 && caps / 256 != 0x30
    ensures Negotiated(AssocRequest(self, bssid, ssid, caps, ofdmOnly), pairwise, group, caps)
         == Addressed([0x00, 0], bssid, self, bssid) + [0x31, 0x15] + [3, 0] + [0, |ssid| % 256] + ssid
            + (if ofdmOnly then OFDM_RATES_IE else RATES_IE + EXT_RATES_IE)
            + [0x30, 20, 1, 0, group / 0x100_0000, group / 0x1_0000 % 256, group / 256 % 256, group % 256]
            + [1, 0, pairwise / 0x100_0000, pairwise / 0x1_0000 % 256, pairwise / 256 % 256, pairwise % 256]
            + [1, 0, 0, 0x0f, 0xac, 2, caps % 256, caps / 256]
  {
    hide EncodeElement, Rsn, Addressed, Negotiated, AssocRequest, AssocPrefix, RATES_IE, OFDM_RATES_IE, EXT_RATES_IE;
    NegotiatedIsRewrite(self, bssid, ssid, pairwise, group, caps, ofdmOnly);
    PrefixBytes(self, bssid, ssid, ofdmOnly);
    RsnBytes(pairwise, group, caps);
  }

  /** With CCMP for both the request is left alone. */
  lemma CcmpKeepsRequest(base: seq<byte>, caps: word)
    ensures Negotiated(base, 0x000F_AC04, 0x000F_AC04, caps) == base
  {
  }

  lemma PrefixBytes(self: Mac, bssid: Mac, ssid: seq<byte>, ofdmOnly: bool)
    ensures AssocPrefix(self, bssid, ssid, ofdmOnly)
         == Addressed([0x00, 0], bssid, self, bssid) + [0x31, 0x15] + [3, 0] + [0, |ssid| % 256] + ssid
            + if ofdmOnly then OFDM_RATES_IE else RATES_IE + EXT_RATES_IE
  {
    hide Encode, Addressed, Header, RateElements, RATES_IE, OFDM_RATES_IE, EXT_RATES_IE;
    ZeroHeader(FC_MGMT + FC_SUB_ASSOC_REQ, bssid, self, bssid);
    EncodedRates(ofdmOnly);
  }

  lemma RsnBytes(pairwise: dword, group: dword, caps: word)
    ensures EncodeElement(Rsn(group, pairwise, caps))
         == [0x30, 20, 1, 0, group / 0x100_0000, group / 0x1_0000 % 256, group / 256 % 256, group % 256]
            + [1, 0, pairwise / 0x100_0000, pairwise / 0x1_0000 % 256, pairwise / 256 % 256, pairwise % 256]
            + [1, 0, 0, 0x0f, 0xac, 2, caps % 256, caps / 256]
  {
    assert Be32(AKM_PSK) == [0, 0x0f, 0xac, 2];
  }

  lemma ZeroHeader(fc: word, a1: Mac, a2: Mac, a3: Mac)
    ensures Header(fc, a1, a2, a3, 0) == Addressed([fc % 256, fc / 256], a1, a2, a3)
  {
  }

  lemma ElementBytes(channel: byte, caps: word)
    ensures EncodeElement(Element(TAG_RATES, RATES)) == RATES_IE
    ensures EncodeElement(Element(TAG_DS, [channel])) == [3, 1, channel]
    ensures EncodeElement(Rsn(CCMP, CCMP, caps)) == RSN_IE_HEAD + [caps % 256, caps / 256]
  {
    hide Rsn, EncodeElement;
    RatesBytes(channel);
    RsnBytes(CCMP, CCMP, caps);
  }

  lemma RatesBytes(channel: byte)
    ensures EncodeElement(Element(TAG_RATES, RATES)) == RATES_IE
    ensures EncodeElement(Element(TAG_DS, [channel])) == [3, 1, channel]
  {
  }

  lemma EncodedRates(ofdmOnly: bool)
    ensures Encode(RateElements(ofdmOnly)) == if ofdmOnly then OFDM_RATES_IE else RATES_IE + EXT_RATES_IE
  {
    hide Encode;
    EncodeTwo(Element(TAG_RATES, OFDM_RATES), WMM);
    EncodeTwo(Element(TAG_RATES, RATES), Element(TAG_EXT_RATES, EXT_RATES));
    assert EncodeElement(Element(TAG_RATES, OFDM_RATES)) == OFDM_RATES_IE;
    assert EncodeElement(Element(TAG_RATES, RATES)) == RATES_IE;
    assert EncodeElement(Element(TAG_EXT_RATES, EXT_RATES)) == EXT_RATES_IE;
  }

  lemma TailBytes()
    ensures Encode(TailElements()) == STATION_TAIL
  {
    hide Encode, TailElements, EncodeElement;
    EncodedTail();
    TailElementBytes();
  }

  lemma TailElementBytes()
    ensures EncodeElement(WMM) == WMM_IE && EncodeElement(VHT_CAPS) == VHT_IE
    ensures EncodeElement(OPERATING_MODE) == MODE_IE && EncodeElement(EXT_CAPS) == EXT_CAPS_IE
    ensures EncodeElement(HT_CAPS) == HT_IE
  {
    HtCapsBytes();
  }

  lemma HtCapsBytes()
    ensures EncodeElement(HT_CAPS) == HT_IE
  {
    assert |HT_CAPS.body| == 26;
  }

  // ----- Element lists -----

  lemma DropPrefix(a: seq<byte>, b: seq<byte>)
    ensures (a + b)[|a|..] == b
  {
  }

  /** Beacon and probe response: after the 36 bytes of header and fixed fields the intended elements
      follow, nothing else, if and only if the SSID fits its length byte. */
  lemma BeaconElements(self: Mac, ssid: seq<byte>, channel: byte, wpa2: bool)
    ensures |Beacon(self, ssid, channel, wpa2)| >= 36
    ensures var ies := Beacon(self, ssid, channel, wpa2)[36..];
      && (Parse(ies) == [Element(TAG_SSID, ssid)] + ApElements(channel, wpa2) <==> |ssid| <= 255)
      && (|ssid| <= 255 ==> Walked(ies) == |ies|)
  {
    hide Encode, Parse, Walked, RawSsid, ApElements, Header;
    var fixed := Header(FC_MGMT + FC_SUB_BEACON, BROADCAST, self, self, 0)
                 + (Zeros(8) + Le16(100) + Le16(if wpa2 then 0x0011 else 0x0001));
    var ies := RawSsid(ssid) + Encode(ApElements(channel, wpa2));
    assert Beacon(self, ssid, channel, wpa2) == fixed + ies;
    DropPrefix(fixed, ies);
    RawSsidParses(ssid, ApElements(channel, wpa2));
  }

  lemma ProbeRespElements(ap: Mac, sta: Mac, ssid: seq<byte>, channel: byte, wpa2: bool)
    ensures |ProbeResp(ap, sta, ssid, channel, wpa2)| >= 36
    ensures var ies := ProbeResp(ap, sta, ssid, channel, wpa2)[36..];
      && (Parse(ies) == [Element(TAG_SSID, ssid)] + ApElements(channel, wpa2) <==> |ssid| <= 255)
      && (|ssid| <= 255 ==> Walked(ies) == |ies|)
  {
    hide Parse, Walked, RawSsid, ApElements, ApBody;
    var body := ApBody(ssid, channel, wpa2);
    BeaconElements(ap, ssid, channel, wpa2);
    assert Beacon(ap, ssid, channel, wpa2)[36..] == body[12..];
    assert ProbeResp(ap, sta, ssid, channel, wpa2)[36..] == body[12..];
  }

  lemma AssocRespElements(ap: Mac, sta: Mac, aid: word)
    ensures |AssocResp(ap, sta, aid)| >= 30
    ensures Parse(AssocResp(ap, sta, aid)[30..]) == [Element(TAG_RATES, RATES)]
    ensures Walked(AssocResp(ap, sta, aid)[30..]) == |AssocResp(ap, sta, aid)| - 30
  {
    hide Parse, Walked, Encode, Header;
    ParseExact([Element(TAG_RATES, RATES)]);
    assert AssocResp(ap, sta, aid)[30..] == Encode([Element(TAG_RATES, RATES)]);
  }

  /** Elements of an association request in order. */
  function AssocElements(caps: word, ofdmOnly: bool): (es: seq<Element>)
    ensures AllFit(es)
  {
    RateElements(ofdmOnly) + [Rsn(CCMP, CCMP, caps)] + TailElements()
  }

  lemma AssocRequestElements(self: Mac, bssid: Mac, ssid: seq<byte>, caps: word, ofdmOnly: bool)
    ensures |AssocRequest(self, bssid, ssid, caps, ofdmOnly)| >= 28
    ensures var ies := AssocRequest(self, bssid, ssid, caps, ofdmOnly)[28..];
      && (Parse(ies) == [Element(TAG_SSID, ssid)] + AssocElements(caps, ofdmOnly) <==> |ssid| <= 255)
      && (|ssid| <= 255 ==> Walked(ies) == |ies|)
  {
    hide Encode, Parse, Walked, RawSsid, RateElements, TailElements, RsnBody, EncodeElement;
    var fixed := Header(FC_MGMT + FC_SUB_ASSOC_REQ, bssid, self, bssid, 0) + Le16(0x1531) + Le16(3);
    var rsn := Rsn(CCMP, CCMP, caps);
    EncodeTwo(rsn, rsn);
    EncodeConcat(RateElements(ofdmOnly), [rsn]);
    EncodeConcat(RateElements(ofdmOnly) + [rsn], TailElements());
    var ies := RawSsid(ssid) + Encode(AssocElements(caps, ofdmOnly));
    assert AssocRequest(self, bssid, ssid, caps, ofdmOnly) == fixed + ies;
    DropPrefix(fixed, ies);
    RawSsidParses(ssid, AssocElements(caps, ofdmOnly));
  }

  // ----- The negotiated rewrite -----

  /** The search passes over bytes that are not the tag. */
  lemma {:induction false} SearchPasses(f: seq<byte>, j: nat, i: nat)
    requires j <= i <= |f|
    requires forall k | j <= k < i :: f[k] != TAG_RSN
    ensures LastTagBelow(f, i) == LastTagBelow(f, j)
    decreases i
  {
    if j < i {
      SearchPasses(f, j, i - 1);
    }
  }

  /** No element after RSN contains the tag byte. */
  lemma TailHasNoTag()
    ensures TAG_RSN !in Encode(TailElements()) && |Encode(TailElements())| > 0
  {
    hide EncodeElement, Encode;
    EncodedTail();
    ElementHasNoTag(WMM);
    HtCapsHaveNoTag();
    ElementHasNoTag(HT_CAPS);
    ElementHasNoTag(VHT_CAPS);
    ElementHasNoTag(OPERATING_MODE);
    ElementHasNoTag(EXT_CAPS);
  }

  lemma ElementHasNoTag(e: Element)
    requires Fits(e) && e.id != TAG_RSN && |e.body| != TAG_RSN && TAG_RSN !in e.body
    ensures TAG_RSN !in EncodeElement(e) && |EncodeElement(e)| >= 2
  {
  }

  lemma HtCapsHaveNoTag()
    ensures TAG_RSN !in HT_CAPS.body && |HT_CAPS.body| == 26
  {
  }

  /** Offset of the cut from the RSN tag: the tag itself, or a capability byte that looks like it. */
  function CutOffset(caps: word): nat {
    if HighByte(caps) == TAG_RSN then 21 else if LowByte(caps) == TAG_RSN then 20 else 0
  }

  /** Exactly where the backward search stops, for every SSID and all capabilities: nothing in the
      SSID or the extended rates, which do contain the byte, is ever reached. */
  lemma CutPlace(self: Mac, bssid: Mac, ssid: seq<byte>, caps: word, ofdmOnly: bool)
    ensures var f := AssocRequest(self, bssid, ssid, caps, ofdmOnly);
      LastTagBelow(f, |f|) == |AssocPrefix(self, bssid, ssid, ofdmOnly)| + CutOffset(caps)
  {
    hide AssocPrefix, Encode, LastTagBelow;
    var prefix, rsn, tail := AssocPrefix(self, bssid, ssid, ofdmOnly), EncodeElement(Rsn(CCMP, CCMP, caps)), Encode(TailElements());
    var f := prefix + rsn + tail;
    var at := |prefix|;
    TailHasNoTag();
    RsnTagBytes(caps);
    forall k | at + 22 <= k < |f| ensures f[k] != TAG_RSN {
      assert f[k] == tail[k - at - 22];
    }
    SearchPasses(f, at + 22, |f|);
    assert f[at] == rsn[0] && f[at + 20] == rsn[20] && f[at + 21] == rsn[21];
    forall k | at + 1 <= k < at + 20 ensures f[k] != TAG_RSN {
      assert f[k] == rsn[k - at];
    }
    SearchFrom(f, at, caps);
  }

  lemma RsnTagBytes(caps: word)
    ensures var rsn := EncodeElement(Rsn(CCMP, CCMP, caps));
      && |rsn| == 22 && rsn[0] == TAG_RSN && rsn[20] == LowByte(caps) && rsn[21] == HighByte(caps)
      && forall k | 1 <= k < 20 :: rsn[k] != TAG_RSN
  {
    var rsn := EncodeElement(Rsn(CCMP, CCMP, caps));
    assert rsn[1..20] == [20, 1, 0, 0, 0x0f, 0xac, 4, 1, 0, 0, 0x0f, 0xac, 4, 1, 0, 0, 0x0f, 0xac, 2];
    assert TAG_RSN !in rsn[1..20];
    forall k | 1 <= k < 20 ensures rsn[k] != TAG_RSN {
      assert rsn[k] == rsn[1..20][k - 1];
    }
  }

  lemma SearchFrom(f: seq<byte>, at: nat, caps: word)
    requires at + 22 < |f| && f[at] == TAG_RSN
    requires f[at + 20] == LowByte(caps) && f[at + 21] == HighByte(caps)
    requires forall k | at + 1 <= k < at + 20 :: f[k] != TAG_RSN
    ensures LastTagBelow(f, at + 22) == at + CutOffset(caps)
  {
    assert LastTagBelow(f, at + 22) == if HighByte(caps) == TAG_RSN then at + 21 else LastTagBelow(f, at + 21);
    assert LastTagBelow(f, at + 21) == if LowByte(caps) == TAG_RSN then at + 20 else LastTagBelow(f, at + 20);
    SearchPasses(f, at + 1, at + 20);
    assert LastTagBelow(f, at + 1) == at;
  }

  predicate CapsFreeOfTag(caps: word) {
    LowByte(caps) != TAG_RSN && HighByte(caps) != TAG_RSN
  }

  /** For any SSID, the rewritten request is the base request up to its RSN tag followed by the
      negotiated element, if and only if neither capability byte equals the tag. Everything the
      base carried after RSN is dropped. */
  lemma NegotiatedIsRewrite(self: Mac, bssid: Mac, ssid: seq<byte>, pairwise: dword, group: dword,
                            caps: word, ofdmOnly: bool)
    requires !(pairwise == CCMP && group == CCMP)
    ensures Negotiated(AssocRequest(self, bssid, ssid, caps, ofdmOnly), pairwise, group, caps)
         == AssocPrefix(self, bssid, ssid, ofdmOnly) + EncodeElement(Rsn(group, pairwise, caps))
       <==> CapsFreeOfTag(caps)
  {
    hide AssocPrefix, LastTagBelow, EncodeElement, Encode;
    var base := AssocRequest(self, bssid, ssid, caps, ofdmOnly);
    var prefix, rsn := AssocPrefix(self, bssid, ssid, ofdmOnly), EncodeElement(Rsn(group, pairwise, caps));
    CutPlace(self, bssid, ssid, caps, ofdmOnly);
    assert |base[..LastTagBelow(base, |base|)] + rsn| == |prefix| + CutOffset(caps) + |rsn|;
    if CapsFreeOfTag(caps) {
      assert base[..|prefix|] == prefix;
    }
  }

  lemma Be32Injective(a: dword, b: dword)
    requires Be32(a) == Be32(b)
    ensures a == b
  {
    var s, t := Be32(a), Be32(b);
    assert s[0] == t[0] && s[1] == t[1] && s[2] == t[2] && s[3] == t[3];
    FromBytes(a);
    FromBytes(b);
  }

  lemma FromBytes(a: dword)
    ensures a / 0x100_0000 * 0x100_0000 + a / 0x1_0000 % 256 * 0x1_0000 + a / 0x100 % 256 * 0x100 + a % 256 == a
  {
  }

  /** RSN bodies that agree on their first fourteen bytes name the same two ciphers. */
  lemma SameCiphers(g: dword, p: dword, c: word, h: dword, q: dword, d: word)
    requires RsnBody(g, p, c)[..14] == RsnBody(h, q, d)[..14]
    ensures g == h && p == q
  {
    hide Be32, Le16;
    var a, b := RsnBody(g, p, c), RsnBody(h, q, d);
    assert |Be32(g)| == 4 && |Be32(h)| == 4 && |Be32(p)| == 4 && |Be32(q)| == 4 by {
      FourBytes(g);
      FourBytes(h);
      FourBytes(p);
      FourBytes(q);
    }
    assert a[2..6] == Be32(g) && b[2..6] == Be32(h);
    assert a[8..12] == Be32(p) && b[8..12] == Be32(q);
    assert a[2..6] == a[..14][2..6] && b[2..6] == b[..14][2..6];
    assert a[8..12] == a[..14][8..12] && b[8..12] == b[..14][8..12];
    Be32Injective(g, h);
    Be32Injective(p, q);
  }

  lemma FourBytes(v: dword)
    ensures |Be32(v)| == 4
  {
  }

  /** The element list of the negotiated request is SSID, rates and one RSN element with the
      requested ciphers and capabilities, if and only if the SSID fits its length byte and neither
      capability byte is the tag. */
  lemma NegotiatedElements(self: Mac, bssid: Mac, ssid: seq<byte>, pairwise: dword, group: dword,
                           caps: word, ofdmOnly: bool)
    requires !(pairwise == CCMP && group == CCMP)
    ensures var f := Negotiated(AssocRequest(self, bssid, ssid, caps, ofdmOnly), pairwise, group, caps);
      && |f| >= 28
      && (Parse(f[28..]) == [Element(TAG_SSID, ssid)] + RateElements(ofdmOnly) + [Rsn(group, pairwise, caps)]
          <==> |ssid| <= 255 && CapsFreeOfTag(caps))
  {
    hide Encode, Parse, LastTagBelow, RsnBody, RateElements, TailElements, Header, AssocPrefix, AssocRequest;
    var new0 := EncodeElement(Rsn(group, pairwise, caps));
    var f := Negotiated(AssocRequest(self, bssid, ssid, caps, ofdmOnly), pairwise, group, caps);
    var kept := EncodeElement(Rsn(CCMP, CCMP, caps))[..CutOffset(caps)];
    KeptBytes(self, bssid, ssid, caps, ofdmOnly);
    assert f == AssocPrefix(self, bssid, ssid, ofdmOnly) + kept + new0;
    assert f == AssocPrefix(self, bssid, ssid, ofdmOnly) + (kept + new0);
    if |ssid| > 255 {
      LongSsidPrefix(self, bssid, ssid, ofdmOnly, kept + new0);
      return;
    }
    PrefixParses(self, bssid, ssid, ofdmOnly, kept + new0);
    var head := [Element(TAG_SSID, ssid)] + RateElements(ofdmOnly);
    var wanted := [Rsn(group, pairwise, caps)];
    assert Parse(f[28..]) == head + Parse(kept + new0);
    SameSuffix(head, Parse(kept + new0), wanted);
    if CapsFreeOfTag(caps) {
      assert kept + new0 == new0;
      ParseExact(wanted);
      EncodeTwo(wanted[0], wanted[0]);
    } else {
      DamagedRsn(pairwise, group, caps);
    }
  }

  lemma SameSuffix(head: seq<Element>, a: seq<Element>, b: seq<Element>)
    ensures head + a == head + b <==> a == b
  {
    assert (head + a)[|head|..] == a && (head + b)[|head|..] == b;
  }

  lemma KeptBytes(self: Mac, bssid: Mac, ssid: seq<byte>, caps: word, ofdmOnly: bool)
    ensures var base := AssocRequest(self, bssid, ssid, caps, ofdmOnly);
      |EncodeElement(Rsn(CCMP, CCMP, caps))| == 22 &&
      base[..LastTagBelow(base, |base|)]
      == AssocPrefix(self, bssid, ssid, ofdmOnly) + EncodeElement(Rsn(CCMP, CCMP, caps))[..CutOffset(caps)]
  {
    hide AssocPrefix, Encode, LastTagBelow, RsnBody;
    CutPlace(self, bssid, ssid, caps, ofdmOnly);
  }

  /** Parsing passes over the prefix of an association request element by element. */
  lemma PrefixParses(self: Mac, bssid: Mac, ssid: seq<byte>, ofdmOnly: bool, rest: seq<byte>)
    requires |ssid| <= 255
    ensures |AssocPrefix(self, bssid, ssid, ofdmOnly)| >= 28
    ensures Parse((AssocPrefix(self, bssid, ssid, ofdmOnly) + rest)[28..])
         == [Element(TAG_SSID, ssid)] + RateElements(ofdmOnly) + Parse(rest)
  {
    hide Encode, Parse, RateElements, Header;
    var rates := Encode(RateElements(ofdmOnly));
    var first := Element(TAG_SSID, ssid);
    assert RawSsid(ssid) == EncodeElement(first);
    ParseFirst(first, rates + rest);
    ParseUndoesEncode(RateElements(ofdmOnly), rest);
    assert (AssocPrefix(self, bssid, ssid, ofdmOnly) + rest)[28..] == EncodeElement(first) + (rates + rest);
    assert [first] + (RateElements(ofdmOnly) + Parse(rest)) == [first] + RateElements(ofdmOnly) + Parse(rest);
  }

  lemma LongSsidPrefix(self: Mac, bssid: Mac, ssid: seq<byte>, ofdmOnly: bool, rest: seq<byte>)
    requires |ssid| > 255
    ensures |AssocPrefix(self, bssid, ssid, ofdmOnly)| >= 28
    ensures var es := Parse((AssocPrefix(self, bssid, ssid, ofdmOnly) + rest)[28..]);
      |es| > 0 && es[0].body != ssid
  {
    hide Encode, Parse, RateElements, Header, RawSsid;
    var rates := Encode(RateElements(ofdmOnly));
    assert (AssocPrefix(self, bssid, ssid, ofdmOnly) + rest)[28..] == RawSsid(ssid) + (rates + rest);
    LongSsidIsCut(ssid, rates + rest);
  }

  /** When the cut lands in the capabilities, the old element survives with its CCMP ciphers. */
  lemma DamagedRsn(pairwise: dword, group: dword, caps: word)
    requires !CapsFreeOfTag(caps) && !(pairwise == CCMP && group == CCMP)
    ensures var old0 := EncodeElement(Rsn(CCMP, CCMP, caps));
      && |old0| == 22
      && Parse(old0[..CutOffset(caps)] + EncodeElement(Rsn(group, pairwise, caps))) != [Rsn(group, pairwise, caps)]
  {
    hide RsnBody;
    var old0 := EncodeElement(Rsn(CCMP, CCMP, caps));
    var all := old0[..CutOffset(caps)] + EncodeElement(Rsn(group, pairwise, caps));
    assert FirstSize(all) == 22 && !Exhausted(all);
    var body := Parse(all)[0].body;
    assert body == all[2..22];
    assert old0[2..] == RsnBody(CCMP, CCMP, caps);
    assert body[..14] == all[2..16] == old0[2..16] == old0[2..][..14];
    assert body[..14] == RsnBody(CCMP, CCMP, caps)[..14];
    if body == RsnBody(group, pairwise, caps) {
      SameCiphers(CCMP, CCMP, caps, group, pairwise, caps);
    }
  }
}
