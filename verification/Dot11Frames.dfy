/** Construction of 802.11 management and EAPOL frames on a growing byte vector. */
module Dot11Frames {
  import opened Bytes
  import opened Elements

  type Mac = m: seq<byte> | |m| == 6 witness [0, 0, 0, 0, 0, 0]

  const FC_MGMT: word := 0x0000
  const FC_SUB_ASSOC_REQ: word := 0x0000
  const FC_SUB_ASSOC_RESP: word := 0x0010
  const FC_SUB_PROBE_RESP: word := 0x0050
  const FC_SUB_BEACON: word := 0x0080
  const FC_DATA_TODS: word := 0x0108
  const FC_DATA_FROMDS: word := 0x0208
  const BROADCAST: Mac := [0xFF, 0xFF, 0xFF, 0xFF, 0xFF, 0xFF]
  const CCMP: dword := 0x000F_AC04
  const AKM_PSK: dword := 0x000F_AC02

  const TAG_SSID: byte := 0x00
  const TAG_RATES: byte := 0x01
  const TAG_DS: byte := 0x03
  const TAG_RSN: byte := 0x30
  const TAG_EXT_RATES: byte := 0x32

  const RATES: seq<byte> := [0x82, 0x84, 0x8b, 0x96, 0x0c, 0x12, 0x18, 0x24]
  const OFDM_RATES: seq<byte> := [0x8c, 0x12, 0x98, 0x24, 0xb0, 0x48, 0x60, 0x6c]
  const EXT_RATES: seq<byte> := [0x30, 0x48, 0x60, 0x6c]
  const SNAP: seq<byte> := [0xaa, 0xaa, 0x03, 0x00, 0x00, 0x00, 0x88, 0x8e]

  // Elements after RSN in an association request.
  const WMM := Element(0xdd, [0x00, 0x50, 0xf2, 0x02, 0x00, 0x01, 0x00])
  const HT_CAPS := Element(0x2d, [0x2c, 0x19, 0x13, 0xff, 0xff,
    0x00, 0x00, 0x00, 0x00, 0x00, 0x00, 0x00, 0x00, 0x00, 0x00,
    0x00, 0x00, 0x00, 0x00, 0x00, 0x00, 0x00, 0x00, 0x00, 0x00, 0x00])
  const VHT_CAPS := Element(0xbf, [0xa2, 0x31, 0xc0, 0x03, 0xfa, 0xff, 0x63, 0x03, 0xfa, 0xff, 0x63, 0x03])
  const OPERATING_MODE := Element(0xc7, [0x12])
  const EXT_CAPS := Element(0x7f, [0x00, 0x00, 0x00, 0x00, 0x00, 0x00, 0x00, 0x40])

  // ----- Frame contents as values -----

  function LowByte(v: word): byte {
    v % 256
  }

  function HighByte(v: word): byte {
    v / 256
  }

  function Le16(v: word): seq<byte> {
    [LowByte(v), HighByte(v)]
  }

  function Be32(v: dword): seq<byte> {
    [v / 0x100_0000, v / 0x1_0000 % 256, v / 0x100 % 256, v % 256]
  }

  /** Three-address header; the sequence number sits above a four-bit fragment number. */
  function Header(fc: word, a1: Mac, a2: Mac, a3: Mac, seqNum: word): (h: seq<byte>)
    ensures |h| == 24
  {
    Le16(fc) + [0, 0] + a1 + a2 + a3 + Le16(seqNum * 16 % 0x1_0000)
  }

  /** RSN element body for one group cipher, one pairwise cipher and PSK (section 9.4.2.25). */
  function RsnBody(group: dword, pairwise: dword, caps: word): (b: seq<byte>)
    ensures |b| == 20
  {
    [0x01, 0x00] + Be32(group) + [0x01, 0x00] + Be32(pairwise) + [0x01, 0x00] + Be32(AKM_PSK) + Le16(caps)
  }

  function Rsn(group: dword, pairwise: dword, caps: word): Element {
    Element(TAG_RSN, RsnBody(group, pairwise, caps))
  }

  function Zeros(n: nat): seq<byte> {
    seq(n, i => 0)
  }

  /** Elements of a beacon or probe response after the SSID. */
  function ApElements(channel: byte, wpa2: bool): (es: seq<Element>)
    ensures AllFit(es)
  {
    [Element(TAG_RATES, RATES), Element(TAG_DS, [channel])] + if wpa2 then [Rsn(CCMP, CCMP, 0)] else []
  }

  /** What beacon and probe response share: timestamp, interval, capability, elements. */
  function ApBody(ssid: seq<byte>, channel: byte, wpa2: bool): seq<byte> {
    Zeros(8) + Le16(100) + Le16(if wpa2 then 0x0011 else 0x0001)
    + RawSsid(ssid) + Encode(ApElements(channel, wpa2))
  }

  function Beacon(self: Mac, ssid: seq<byte>, channel: byte, wpa2: bool): seq<byte> {
    Header(FC_MGMT + FC_SUB_BEACON, BROADCAST, self, self, 0) + ApBody(ssid, channel, wpa2)
  }

  function ProbeResp(ap: Mac, sta: Mac, ssid: seq<byte>, channel: byte, wpa2: bool): seq<byte> {
    Header(FC_MGMT + FC_SUB_PROBE_RESP, sta, ap, ap, 0) + ApBody(ssid, channel, wpa2)
  }

  function AssocResp(ap: Mac, sta: Mac, aid: word): seq<byte> {
    Header(FC_MGMT + FC_SUB_ASSOC_RESP, sta, ap, ap, 0)
    + Le16(0x0011) + Le16(0) + Le16(0xC000 + aid % 0x4000) + Encode([Element(TAG_RATES, RATES)])
  }

  function RateElements(ofdmOnly: bool): (es: seq<Element>)
    ensures AllFit(es)
  {
    if ofdmOnly then [Element(TAG_RATES, OFDM_RATES)]
    else [Element(TAG_RATES, RATES), Element(TAG_EXT_RATES, EXT_RATES)]
  }

  function TailElements(): (es: seq<Element>)
    ensures AllFit(es)
  {
    [WMM, HT_CAPS, VHT_CAPS, OPERATING_MODE, EXT_CAPS]
  }

  /** An association request up to the RSN element. */
  function AssocPrefix(self: Mac, bssid: Mac, ssid: seq<byte>, ofdmOnly: bool): seq<byte> {
    Header(FC_MGMT + FC_SUB_ASSOC_REQ, bssid, self, bssid, 0) + Le16(0x1531) + Le16(3)
    + RawSsid(ssid) + Encode(RateElements(ofdmOnly))
  }

  function AssocRequest(self: Mac, bssid: Mac, ssid: seq<byte>, caps: word, ofdmOnly: bool): seq<byte> {
    AssocPrefix(self, bssid, ssid, ofdmOnly) + EncodeElement(Rsn(CCMP, CCMP, caps)) + Encode(TailElements())
  }

  function EapolKey(fc: word, a1: Mac, a2: Mac, a3: Mac, keyBody: seq<byte>): seq<byte> {
    Header(fc, a1, a2, a3, 0) + SNAP + keyBody
  }

  /** Where a search from the end for an 0x30 byte that is not the very last byte stops:
      at that byte, or at the end of the frame when there is none before `i`. */
  function LastTagBelow(f: seq<byte>, i: nat): (cut: nat)
    requires i <= |f|
    ensures cut <= |f|
  {
    if i == 0 then |f|
    else if f[i - 1] == TAG_RSN && i < |f| then i - 1
    else LastTagBelow(f, i - 1)
  }

  /** The negotiated request: the base frame when both ciphers are CCMP, else the base frame cut
      at the byte found, with a new RSN element after it. Whatever followed the cut is gone. */
  function Negotiated(base: seq<byte>, pairwise: dword, group: dword, caps: word): seq<byte> {
    if pairwise == CCMP && group == CCMP then base
    else base[..LastTagBelow(base, |base|)] + EncodeElement(Rsn(group, pairwise, caps))
  }

  // ----- The builders -----

  /** A growable byte vector. */
  class ByteVector {
    var bytes: seq<byte>

    constructor ()
      ensures bytes == []
    {
      bytes := [];
    }

    method PushBack(b: byte)
      modifies this
      ensures bytes == old(bytes) + [b]
    {
      bytes := bytes + [b];
    }

    method Append(bs: seq<byte>)
      modifies this
      ensures bytes == old(bytes) + bs
    {
      bytes := bytes + bs;
    }

    method Set(i: nat, b: byte)
      requires i < |bytes|
      modifies this
      ensures bytes == old(bytes)[i := b]
    {
      bytes := bytes[i := b];
    }

    method Truncate(n: nat)
      requires n <= |bytes|
      modifies this
      ensures bytes == old(bytes)[..n]
    {
      bytes := bytes[..n];
    }
  }

  method PutLe16(f: ByteVector, v: word)
    modifies f
    ensures f.bytes == old(f.bytes) + Le16(v)
  {
    f.PushBack(v % 256);
    f.PushBack(v / 256);
  }

  method PutBe32(f: ByteVector, v: dword)
    modifies f
    ensures f.bytes == old(f.bytes) + Be32(v)
  {
    f.PushBack(v / 0x100_0000);
    f.PushBack(v / 0x1_0000 % 256);
    f.PushBack(v / 0x100 % 256);
    f.PushBack(v % 256);
  }

  method PutHdr(f: ByteVector, fc: word, a1: Mac, a2: Mac, a3: Mac, seqNum: word)
    modifies f
    ensures f.bytes == old(f.bytes) + Header(fc, a1, a2, a3, seqNum)
  {
    PutLe16(f, fc);
    hide Le16;
    f.PushBack(0);
    f.PushBack(0);
    f.Append(a1);
    f.Append(a2);
    f.Append(a3);
    f.PushBack(seqNum * 16 % 256);
    f.PushBack(seqNum * 16 / 256 % 256);
    SequenceControl(seqNum);
  }

  lemma SequenceControl(seqNum: word)
    ensures Le16(seqNum * 16 % 0x1_0000) == [seqNum * 16 % 256, seqNum * 16 / 256 % 256]
  {
    LowWord(seqNum * 16);
  }

  /** The two low bytes of a number are those of its low sixteen bits. */
  lemma LowWord(v: nat)
    ensures v % 0x1_0000 / 256 == v / 256 % 256 && v % 0x1_0000 % 256 == v % 256
  {
    var low, high := v % 0x1_0000, v / 0x1_0000;
    assert v / 256 == high * 256 + low / 256;
  }

  method PutElement(f: ByteVector, id: byte, body: seq<byte>)
    requires |body| <= 255
    modifies f
    ensures f.bytes == old(f.bytes) + EncodeElement(Element(id, body))
  {
    f.PushBack(id);
    f.PushBack(|body|);
    f.Append(body);
  }

  method PutSsid(f: ByteVector, ssid: seq<byte>)
    modifies f
    ensures f.bytes == old(f.bytes) + RawSsid(ssid)
  {
    f.PushBack(0x00);
    f.PushBack(|ssid| % 256);
    f.Append(ssid);
  }

  /** The fixed WPA2-PSK/CCMP element of beacon and probe response. */
  method AppendRsnIe(f: ByteVector)
    modifies f
    ensures f.bytes == old(f.bytes) + EncodeElement(Rsn(CCMP, CCMP, 0))
  {
    var rsn: seq<byte> := [
      0x30, 0x14, 0x01, 0x00, 0x00, 0x0f, 0xac, 0x04,
      0x01, 0x00, 0x00, 0x0f, 0xac, 0x04, 0x01, 0x00, 0x00, 0x0f, 0xac, 0x02, 0x00, 0x00];
    f.Append(rsn);
    assert rsn == EncodeElement(Rsn(CCMP, CCMP, 0));
  }

  lemma EncodeTwo(a: Element, b: Element)
    requires Fits(a) && Fits(b)
    ensures Encode([a]) == EncodeElement(a) && Encode([a, b]) == EncodeElement(a) + EncodeElement(b)
  {
    assert [a, b][1..] == [b] && [a][1..] == [] && [b][1..] == [];
    assert EncodeElement(b) + [] == EncodeElement(b);
  }

  lemma EncodedApElements(channel: byte, wpa2: bool)
    ensures Encode(ApElements(channel, wpa2))
         == EncodeElement(Element(TAG_RATES, RATES)) + EncodeElement(Element(TAG_DS, [channel]))
            + if wpa2 then EncodeElement(Rsn(CCMP, CCMP, 0)) else []
  {
    var a, b := Element(TAG_RATES, RATES), Element(TAG_DS, [channel]);
    EncodeTwo(a, b);
    EncodeTwo(Rsn(CCMP, CCMP, 0), b);
    EncodeConcat([a, b], if wpa2 then [Rsn(CCMP, CCMP, 0)] else []);
  }

  method PutZeros(f: ByteVector, n: nat)
    modifies f
    ensures f.bytes == old(f.bytes) + Zeros(n)
  {
    var i := 0;
    while i < n
      invariant i <= n && f.bytes == old(f.bytes) + Zeros(i)
    {
      f.PushBack(0);
      i := i + 1;
    }
  }

  /** The part after the header, as beacon and probe response both write it. */
  method PutApBody(f: ByteVector, ssid: seq<byte>, channel: byte, wpa2: bool)
    modifies f
    ensures f.bytes == old(f.bytes) + ApBody(ssid, channel, wpa2)
  {
    hide Rsn, Zeros, Le16, RawSsid, EncodeElement, Encode, ApElements;
    PutZeros(f, 8);  // timestamp
    PutLe16(f, 100);
    PutLe16(f, if wpa2 then 0x0011 else 0x0001);
    PutSsid(f, ssid);
    PutElement(f, 0x01, RATES);
    PutElement(f, 0x03, [channel]);
    if wpa2 {
      AppendRsnIe(f);
    }
    EncodedApElements(channel, wpa2);
  }

  method BuildBeacon(self: Mac, ssid: seq<byte>, channel: byte, wpa2: bool) returns (frame: seq<byte>)
    ensures frame == Beacon(self, ssid, channel, wpa2)
  {
    var f := new ByteVector();
    PutHdr(f, FC_MGMT + FC_SUB_BEACON, BROADCAST, self, self, 0);
    PutApBody(f, ssid, channel, wpa2);
    frame := f.bytes;
  }

  method BuildProbeResp(ap: Mac, sta: Mac, ssid: seq<byte>, channel: byte, wpa2: bool) returns (frame: seq<byte>)
    ensures frame == ProbeResp(ap, sta, ssid, channel, wpa2)
  {
    var f := new ByteVector();
    PutHdr(f, FC_MGMT + FC_SUB_PROBE_RESP, sta, ap, ap, 0);
    PutApBody(f, ssid, channel, wpa2);
    frame := f.bytes;
  }

  method BuildAssocResp(ap: Mac, sta: Mac, aid: word) returns (frame: seq<byte>)
    ensures frame == AssocResp(ap, sta, aid)
  {
    var f := new ByteVector();
    PutHdr(f, FC_MGMT + FC_SUB_ASSOC_RESP, sta, ap, ap, 0);
    PutLe16(f, 0x0011);
    PutLe16(f, 0);
    PutLe16(f, 0xC000 + aid % 0x4000);
    PutElement(f, 0x01, RATES);
    EncodeTwo(Element(TAG_RATES, RATES), Element(TAG_RATES, RATES));
    frame := f.bytes;
  }

  /** Changing the last two bytes of an RSN body changes its capabilities and nothing else. */
  lemma PatchCaps(prefix: seq<byte>, caps: word)
    ensures var f := prefix + EncodeElement(Rsn(CCMP, CCMP, 0));
      |f| >= 2 && f[|f| - 2 := LowByte(caps)][|f| - 1 := HighByte(caps)] == prefix + EncodeElement(Rsn(CCMP, CCMP, caps))
  {
    var old0: seq<byte> := EncodeElement(Rsn(CCMP, CCMP, 0));
    var new0: seq<byte> := EncodeElement(Rsn(CCMP, CCMP, caps));
    assert |old0| == 22 && |new0| == 22;
    assert new0 == old0[20 := LowByte(caps)][21 := HighByte(caps)];
  }

  lemma EncodedTail()
    ensures Encode(TailElements()) == EncodeElement(WMM) + EncodeElement(HT_CAPS) + EncodeElement(VHT_CAPS)
                                      + EncodeElement(OPERATING_MODE) + EncodeElement(EXT_CAPS)
  {
    hide EncodeElement;
    EncodeTwo(WMM, HT_CAPS);
    EncodeTwo(VHT_CAPS, OPERATING_MODE);
    EncodeTwo(EXT_CAPS, WMM);
    EncodeConcat([WMM, HT_CAPS], [VHT_CAPS, OPERATING_MODE]);
    EncodeConcat([WMM, HT_CAPS] + [VHT_CAPS, OPERATING_MODE], [EXT_CAPS]);
    assert TailElements() == [WMM, HT_CAPS] + [VHT_CAPS, OPERATING_MODE] + [EXT_CAPS];
  }

  method PutTail(f: ByteVector)
    modifies f
    ensures f.bytes == old(f.bytes) + Encode(TailElements())
  {
    hide EncodeElement, Encode;
    PutElement(f, WMM.id, WMM.body);
    PutElement(f, HT_CAPS.id, HT_CAPS.body);
    PutElement(f, VHT_CAPS.id, VHT_CAPS.body);
    PutElement(f, OPERATING_MODE.id, OPERATING_MODE.body);
    PutElement(f, EXT_CAPS.id, EXT_CAPS.body);
    EncodedTail();
  }

  method PutRates(f: ByteVector, ofdmOnly: bool)
    modifies f
    ensures f.bytes == old(f.bytes) + Encode(RateElements(ofdmOnly))
  {
    hide EncodeElement, Encode;
    if ofdmOnly {
      PutElement(f, 0x01, OFDM_RATES);
      EncodeTwo(Element(TAG_RATES, OFDM_RATES), WMM);
    } else {
      PutElement(f, 0x01, RATES);
      PutElement(f, 0x32, EXT_RATES);
      EncodeTwo(Element(TAG_RATES, RATES), Element(TAG_EXT_RATES, EXT_RATES));
    }
  }

  method BuildAssocRequest(self: Mac, bssid: Mac, ssid: seq<byte>, rsnCaps: word, ofdmOnly: bool)
    returns (frame: seq<byte>)
    ensures frame == AssocRequest(self, bssid, ssid, rsnCaps, ofdmOnly)
  {
    hide Rsn, RawSsid, Encode, RateElements, TailElements, Header, Le16;
    var f := new ByteVector();
    PutHdr(f, FC_MGMT + FC_SUB_ASSOC_REQ, bssid, self, bssid, 0);
    PutLe16(f, 0x1531);
    PutLe16(f, 3);
    PutSsid(f, ssid);
    PutRates(f, ofdmOnly);
    ghost var prefix := f.bytes;
    AppendRsnIe(f);
    PatchCaps(prefix, rsnCaps);
    f.Set(|f.bytes| - 2, LowByte(rsnCaps));
    f.Set(|f.bytes| - 1, HighByte(rsnCaps));
    PutTail(f);
    frame := f.bytes;
  }

  method BuildNegotiatedAssocRequest(self: Mac, bssid: Mac, ssid: seq<byte>,
                                     pairwise: dword, group: dword, rsnCaps: word, ofdmOnly: bool)
    returns (frame: seq<byte>)
    ensures frame == Negotiated(AssocRequest(self, bssid, ssid, rsnCaps, ofdmOnly), pairwise, group, rsnCaps)
  {
    hide AssocRequest;
    var base := BuildAssocRequest(self, bssid, ssid, rsnCaps, ofdmOnly);
    if pairwise == CCMP && group == CCMP {
      return base;
    }
    var f := new ByteVector();
    f.Append(base);
    assert f.bytes == base;
    CutAtLastTag(f);
    PutRsn(f, group, pairwise, rsnCaps);
    frame := f.bytes;
  }

  /** Backward search for the RSN tag byte, cutting the frame there. */
  method CutAtLastTag(f: ByteVector)
    modifies f
    ensures f.bytes == old(f.bytes)[..LastTagBelow(old(f.bytes), |old(f.bytes)|)]
  {
    ghost var base := f.bytes;
    var i: nat := |f.bytes|;
    while i > 0
      invariant i <= |base| && f.bytes == base
      invariant LastTagBelow(base, i) == LastTagBelow(base, |base|)
    {
      i := i - 1;
      if f.bytes[i] == 0x30 && i + 1 < |f.bytes| {
        f.Truncate(i);
        return;
      }
    }
    assert base[..|base|] == base;
  }

  method PutRsn(f: ByteVector, group: dword, pairwise: dword, rsnCaps: word)
    modifies f
    ensures f.bytes == old(f.bytes) + EncodeElement(Rsn(group, pairwise, rsnCaps))
  {
    hide Be32, Le16;
    f.PushBack(0x30);
    f.PushBack(20);
    f.PushBack(0x01);
    f.PushBack(0x00);
    PutBe32(f, group);
    PutCountedSuite(f, pairwise);
    PutCountedSuite(f, AKM_PSK);
    PutLe16(f, rsnCaps);
    assert f.bytes == old(f.bytes) + ([TAG_RSN, 20] + RsnBody(group, pairwise, rsnCaps));
  }

  /** A suite list of length one. */
  method PutCountedSuite(f: ByteVector, suite: dword)
    modifies f
    ensures f.bytes == old(f.bytes) + [0x01, 0x00] + Be32(suite)
  {
    f.PushBack(0x01);
    f.PushBack(0x00);
    PutBe32(f, suite);
  }

  /** EAPOL-Key frame from station to access point. */
  method BuildEapolKey(self: Mac, bssid: Mac, keyBody: seq<byte>) returns (frame: seq<byte>)
    ensures frame == EapolKey(FC_DATA_TODS, bssid, self, bssid, keyBody)
    ensures frame[..24] == [0x08, 0x01, 0, 0] + bssid + self + bssid + [0, 0]
  {
    var f := new ByteVector();
    PutHdr(f, FC_DATA_TODS, bssid, self, bssid, 0);
    f.Append(SNAP);
    f.Append(keyBody);
    frame := f.bytes;
  }

  /** EAPOL-Key frame from access point to station. */
  method BuildEapolKeyFromAp(ap: Mac, sta: Mac, keyBody: seq<byte>) returns (frame: seq<byte>)
    ensures frame == EapolKey(FC_DATA_FROMDS, sta, ap, ap, keyBody)
    ensures frame[..24] == [0x08, 0x02, 0, 0] + sta + ap + ap + [0, 0]
  {
    var f := new ByteVector();
    PutHdr(f, FC_DATA_FROMDS, sta, ap, ap, 0);
    f.Append(SNAP);
    f.Append(keyBody);
    frame := f.bytes;
  }
}
