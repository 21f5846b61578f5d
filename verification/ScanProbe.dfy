/** The scanner's reading of beacons and probe responses. */
module ScanProbe {
  import opened Bytes
  import opened Elements
  import opened Dot11Frames
  import FrameLaws

  datatype ApInfo = ApInfo(bssid: Mac, channel: int, found: bool, groupCipher: dword,
                           pairwise: seq<dword>, akm: seq<dword>, rsnPresent: bool)

  datatype Scan = Scan(ssid: seq<byte>, ap: ApInfo)

  const RSN_MIN_BODY := 8

  /** Four bytes as a big-endian suite number. */
  function Suite(d: seq<byte>, o: nat): dword
    requires o + 4 <= |d|
  {
    var b0: int, b1: int, b2: int, b3: int := d[o], d[o + 1], d[o + 2], d[o + 3];
    ((b0 * 256 + b1) * 256 + b2) * 256 + b3
  }

  function Count(d: seq<byte>, o: nat): word
    requires o + 2 <= |d|
  {
    var b0: int, b1: int := d[o], d[o + 1];
    b0 + 256 * b1
  }

  /** Up to `n` suites from offset `o`, as many as are complete. */
  function Suites(d: seq<byte>, o: nat, n: nat): (ss: seq<dword>)
    ensures |ss| <= n && (ss != [] ==> o + 4 * |ss| <= |d|)
    decreases n, |d|
  {
    if n == 0 || o + 4 > |d| then [] else [Suite(d, o)] + Suites(d, o + 4, n - 1)
  }

  /** What one element adds to a scan. */
  function Absorb(s: Scan, e: Element): Scan {
    if e.id == TAG_SSID then s.(ssid := e.body)
    else if e.id == TAG_DS && |e.body| >= 1 then s.(ap := s.ap.(channel := e.body[0]))
    else if e.id == TAG_RSN && |e.body| >= RSN_MIN_BODY then s.(ap := AbsorbRsn(s.ap, e.body))
    else s
  }

  function AbsorbRsn(ap: ApInfo, d: seq<byte>): ApInfo
    requires |d| >= RSN_MIN_BODY
  {
    ap.(rsnPresent := true, groupCipher := Suite(d, 2), pairwise := ap.pairwise + Ciphers(d), akm := ap.akm + Akms(d))
  }

  /** The pairwise ciphers an RSN body lists, and the AKM suites it lists after them. */
  function Ciphers(d: seq<byte>): seq<dword>
    requires |d| >= RSN_MIN_BODY
  {
    Suites(d, 8, Count(d, 6))
  }

  function Akms(d: seq<byte>): seq<dword>
    requires |d| >= RSN_MIN_BODY
  {
    var o := 8 + 4 * |Ciphers(d)|;
    if o + 2 <= |d| then Suites(d, o + 2, Count(d, o)) else []
  }

  function Fold(s: Scan, es: seq<Element>): Scan
    decreases |es|
  {
    if es == [] then s else Fold(Absorb(s, es[0]), es[1..])
  }

  function Blank(bssid: Mac): Scan {
    Scan([], ApInfo(bssid, 0, true, 0, [], [], false))
  }

  /** A management frame of subtype beacon or probe response, at least as long as its fixed part. */
  predicate IsApFrame(f: seq<byte>) {
    |f| >= 36 && f[0] / 4 % 4 == 0 && (f[0] / 16 == 8 || f[0] / 16 == 5)
  }

  /** What a scan of a frame yields: address 3 and the folded elements. */
  function ScanOf(f: seq<byte>): Option<Scan> {
    if IsApFrame(f) then Some(Fold(Blank(f[16..22]), Parse(f[36..]))) else None
  }

  /** Reads a suite list; both lists of an RSN element are read this way. */
  method ReadSuites(d: seq<byte>, start: nat, n: nat) returns (ss: seq<dword>, o: nat)
    ensures ss == Suites(d, start, n) && o == start + 4 * |ss|
  {
    ss, o := [], start;
    var k := 0;
    while k < n && o + 4 <= |d|
      invariant k <= n && |ss| == k && o == start + 4 * k
      invariant Suites(d, start, n) == ss + Suites(d, o, n - k)
    {
      ss := ss + [Suite(d, o)];
      o := o + 4;
      k := k + 1;
    }
  }

  /** One element of the walk, read by position. */
  lemma WalkStep(ie: seq<byte>, i: nat)
    requires i <= |ie|
    ensures i + 2 > |ie| || i + 2 + ie[i + 1] as int > |ie| ==> Parse(ie[i..]) == []
    ensures i + 2 <= |ie| && i + 2 + ie[i + 1] as int <= |ie| ==>
              var after := i + 2 + ie[i + 1] as int;
              Parse(ie[i..]) == [Element(ie[i], ie[i + 2..after])] + Parse(ie[after..])
  {
    var rest := ie[i..];
    if |rest| < 2 || FirstSize(rest) > |rest| {
      assert Exhausted(rest);
    } else {
      var after := i + 2 + ie[i + 1] as int;
      assert rest[2..FirstSize(rest)] == ie[i + 2..after] && rest[FirstSize(rest)..] == ie[after..];
    }
  }

  lemma FoldStep(s: Scan, e: Element, es: seq<Element>)
    ensures Fold(s, [e] + es) == Fold(Absorb(s, e), es)
    ensures Fold(s, []) == s
  {
    assert ([e] + es)[1..] == es;
  }

  /** Walks the elements of a beacon or probe response once. */
  method ParseAnyBeacon(f: seq<byte>) returns (r: Option<Scan>)
    ensures r == ScanOf(f)
  {
    hide Parse, Fold, Absorb;
    if |f| < 36 {
      return None;
    }
    if f[0] / 4 % 4 != 0 {
      return None;
    }
    var sub := f[0] / 16 % 16;
    if sub != 8 && sub != 5 {
      return None;
    }
    var ie := f[36..];
    var scan := Blank(f[16..22]);
    var i := 0;
    assert ie[0..] == ie;
    while i + 2 <= |ie|
      invariant i <= |ie|
      invariant Fold(scan, Parse(ie[i..])) == Fold(Blank(f[16..22]), Parse(ie))
    {
      var id, l := ie[i], ie[i + 1] as int;
      WalkStep(ie, i);
      if i + 2 + l > |ie| {
        break;
      }
      var d := ie[i + 2..i + 2 + l];
      FoldStep(scan, Element(id, d), Parse(ie[i + 2 + l..]));
      scan := AbsorbElement(scan, id, d);
      i := i + 2 + l;
    }
    WalkStep(ie, i);
    FoldStep(scan, Element(0, []), []);
    r := Some(scan);
  }

  /** The element dispatch of the walk. */
  method AbsorbElement(scan: Scan, id: byte, d: seq<byte>) returns (r: Scan)
    ensures r == Absorb(scan, Element(id, d))
  {
    r := scan;
    if id == 0 {
      r := r.(ssid := d);
    } else if id == 3 && |d| >= 1 {
      r := r.(ap := r.ap.(channel := d[0]));
    } else if id == 48 && |d| >= 8 {
      var o: nat;
      var pairwise, akm := [], [];
      pairwise, o := ReadSuites(d, 8, Count(d, 6));
      if o + 2 <= |d| {
        akm, o := ReadSuites(d, o + 2, Count(d, o));
      }
      r := r.(ap := r.ap.(rsnPresent := true, groupCipher := Suite(d, 2),
                          pairwise := r.ap.pairwise + pairwise, akm := r.ap.akm + akm));
    }
  }

  // ----- What a scan finds in any frame -----

  /** The element has this tag and a body long enough to be read. */
  predicate Readable(e: Element, id: byte, least: nat) {
    e.id == id && |e.body| >= least
  }

  /** `es[k]` is the last readable element with the tag. */
  predicate IsLast(es: seq<Element>, k: int, id: byte, least: nat) {
    && 0 <= k < |es| && Readable(es[k], id, least)
    && forall j | k < j < |es| :: !Readable(es[j], id, least)
  }

  predicate HasNone(es: seq<Element>, id: byte, least: nat) {
    forall j | 0 <= j < |es| :: !Readable(es[j], id, least)
  }

  /** Either some element is the last with the tag, or there is none. */
  lemma LastOrNone(es: seq<Element>, id: byte, least: nat) returns (k: int)
    ensures k >= 0 ==> IsLast(es, k, id, least)
    ensures k < 0 ==> HasNone(es, id, least)
  {
    k := |es| - 1;
    while k >= 0 && !Readable(es[k], id, least)
      invariant -1 <= k < |es|
      invariant forall j | k < j < |es| :: !Readable(es[j], id, least)
    {
      k := k - 1;
    }
  }

  /** The suites an element adds, and all those a list adds in order. */
  function CiphersOf(e: Element): seq<dword> {
    if Readable(e, 48, 8) then Ciphers(e.body) else []
  }

  function AkmsOf(e: Element): seq<dword> {
    if Readable(e, 48, 8) then Akms(e.body) else []
  }

  function AllCiphers(es: seq<Element>): seq<dword> {
    if es == [] then [] else CiphersOf(es[0]) + AllCiphers(es[1..])
  }

  function AllAkms(es: seq<Element>): seq<dword> {
    if es == [] then [] else AkmsOf(es[0]) + AllAkms(es[1..])
  }

  /** The number is that of four bytes, most significant first. */
  predicate SuiteIs(v: int, d: seq<byte>, o: nat) {
    o + 4 <= |d| &&
    var b0: int, b1: int, b2: int, b3: int := d[o], d[o + 1], d[o + 2], d[o + 3];
    v == 0x100_0000 * b0 + 0x1_0000 * b1 + 0x100 * b2 + b3
  }

  lemma SuiteOfBytes(d: seq<byte>, o: nat)
    requires o + 4 <= |d|
    ensures SuiteIs(Suite(d, o), d, o)
  {
  }

  /** SSID, channel and group cipher are those of the last element that carries them, else what the
      scan started with. */
  lemma {:induction false} FoldFindsLast(s: Scan, es: seq<Element>, k: int)
    ensures IsLast(es, k, 0, 0) ==> Fold(s, es).ssid == es[k].body
    ensures HasNone(es, 0, 0) ==> Fold(s, es).ssid == s.ssid
    ensures IsLast(es, k, 3, 1) ==> Fold(s, es).ap.channel == es[k].body[0]
    ensures HasNone(es, 3, 1) ==> Fold(s, es).ap.channel == s.ap.channel
    ensures IsLast(es, k, 48, 8) ==>
              SuiteIs(Fold(s, es).ap.groupCipher, es[k].body, 2) && Fold(s, es).ap.rsnPresent
    ensures HasNone(es, 48, 8) ==>
              Fold(s, es).ap.groupCipher == s.ap.groupCipher && Fold(s, es).ap.rsnPresent == s.ap.rsnPresent
    decreases |es|
  {
    hide Suite, SuiteIs, Suites, Count, Ciphers, Akms;
    if es != [] {
      if |es[0].body| >= 8 {
        SuiteOfBytes(es[0].body, 2);
      }
      FoldFindsLast(Absorb(s, es[0]), es[1..], k - 1);
    }
  }

  /** Ciphers and AKM suites accumulate over all RSN elements; sender and the found mark never change. */
  lemma {:induction false} FoldAccumulates(s: Scan, es: seq<Element>)
    ensures Fold(s, es).ap.pairwise == s.ap.pairwise + AllCiphers(es) && Fold(s, es).ap.akm == s.ap.akm + AllAkms(es)
    ensures Fold(s, es).ap.bssid == s.ap.bssid && Fold(s, es).ap.found == s.ap.found
    decreases |es|
  {
    hide Absorb, CiphersOf, AkmsOf;
    if es != [] {
      AbsorbAccumulates(s, es[0]);
      FoldAccumulates(Absorb(s, es[0]), es[1..]);
      assert s.ap.pairwise + (CiphersOf(es[0]) + AllCiphers(es[1..])) == s.ap.pairwise + CiphersOf(es[0]) + AllCiphers(es[1..]);
      assert s.ap.akm + (AkmsOf(es[0]) + AllAkms(es[1..])) == s.ap.akm + AkmsOf(es[0]) + AllAkms(es[1..]);
    }
  }

  lemma AbsorbAccumulates(s: Scan, e: Element)
    ensures Absorb(s, e).ap.pairwise == s.ap.pairwise + CiphersOf(e) && Absorb(s, e).ap.akm == s.ap.akm + AkmsOf(e)
    ensures Absorb(s, e).ap.bssid == s.ap.bssid && Absorb(s, e).ap.found == s.ap.found
  {
    hide Suite, Ciphers, Akms;
  }

  /** The network an element list names: the body of its last SSID element, or the empty name when
      it has no SSID element. */
  ghost predicate Names(es: seq<Element>, ssid: seq<byte>) {
    if HasNone(es, 0, 0) then ssid == []
    else exists k :: IsLast(es, k, 0, 0) && es[k].body == ssid
  }

  lemma ScanNames(f: seq<byte>, ssid: seq<byte>)
    requires IsApFrame(f)
    ensures ScanOf(f).value.ssid == ssid <==> Names(Parse(f[36..]), ssid)
  {
    hide Parse, Fold, Absorb;
    var es := Parse(f[36..]);
    var k := LastOrNone(es, TAG_SSID, 0);
    forall j ensures IsLast(es, j, TAG_SSID, 0) ==> Fold(Blank(f[16..22]), es).ssid == es[j].body {
      FoldFindsLast(Blank(f[16..22]), es, j);
    }
    FoldFindsLast(Blank(f[16..22]), es, k);
  }

  /** A scan reports a non-empty SSID if and only if the frame is a beacon or probe response whose
      last SSID element is there and not empty. */
  lemma NonEmptySsidIff(f: seq<byte>)
    ensures ScanOf(f).Some? && ScanOf(f).value.ssid != []
       <==> IsApFrame(f) && exists k :: IsLast(Parse(f[36..]), k, 0, 0) && Parse(f[36..])[k].body != []
  {
    hide Parse, Fold, Absorb;
    if IsApFrame(f) {
      var es := Parse(f[36..]);
      var k := LastOrNone(es, TAG_SSID, 0);
      forall j ensures IsLast(es, j, TAG_SSID, 0) ==> Fold(Blank(f[16..22]), es).ssid == es[j].body {
        FoldFindsLast(Blank(f[16..22]), es, j);
      }
      FoldFindsLast(Blank(f[16..22]), es, k);
    }
  }

  /** Scan for one network: succeeds if and only if the frame is a beacon or probe response that
      names it, where a frame without SSID element names the empty SSID. */
  method ParseBeacon(f: seq<byte>, ssid: seq<byte>) returns (r: Option<ApInfo>)
    ensures r.Some? <==> IsApFrame(f) && Names(Parse(f[36..]), ssid)
    ensures r.Some? ==> ScanOf(f) == Some(Scan(ssid, r.value)) && r.value.bssid == f[16..22]
  {
    var any := ParseAnyBeacon(f);
    r := None;
    if any.Some? {
      ScanNames(f, ssid);
      FoldAccumulates(Blank(f[16..22]), Parse(f[36..]));
      if any.value.ssid == ssid {
        r := Some(any.value.ap);
      }
    }
  }

  // ----- The scanner understands the frames the builders make -----

  /** What a scan of our own access-point frames should find. */
  function Advertised(bssid: Mac, channel: byte, wpa2: bool): ApInfo {
    if wpa2 then ApInfo(bssid, channel, true, CCMP, [CCMP], [AKM_PSK], true)
    else ApInfo(bssid, channel, true, 0, [], [], false)
  }

  function SuiteBytes(ss: seq<dword>): (b: seq<byte>)
    ensures |b| == 4 * |ss|
  {
    if ss == [] then [] else Be32(ss[0]) + SuiteBytes(ss[1..])
  }

  /** A counted list of suites, and an RSN body of two of them (section 9.4.2.25). */
  function SuiteList(ss: seq<dword>): seq<byte>
    requires |ss| < 0x1_0000
  {
    [|ss| % 256, |ss| / 256] + SuiteBytes(ss)
  }

  lemma {:induction false} SuitesRoundTrip(before: seq<byte>, ss: seq<dword>, after: seq<byte>)
    ensures Suites(before + SuiteBytes(ss) + after, |before|, |ss|) == ss
    decreases |ss|
  {
    hide Suite, Be32;
    var d := before + SuiteBytes(ss) + after;
    if ss != [] {
      FrameLaws.FourBytes(ss[0]);
      var next := before + Be32(ss[0]);
      assert d == next + SuiteBytes(ss[1..]) + after;
      assert d[|before|..|before| + 4] == Be32(ss[0]);
      SuiteAt(d, |before|, ss[0]);
      SuitesRoundTrip(next, ss[1..], after);
      assert [ss[0]] + ss[1..] == ss;
    }
  }

  lemma CountAt(before: seq<byte>, n: word, after: seq<byte>)
    ensures Count(before + [n % 256, n / 256] + after, |before|) == n
  {
    var d := before + [n % 256, n / 256] + after;
    assert d[|before|] == n % 256 && d[|before| + 1] == n / 256;
  }

  /** Scanning an RSN body built from any two suite lists gives back group, ciphers and AKM suites in
      order, whatever follows. */
  lemma RsnListsRoundTrip(ap: ApInfo, version: seq<byte>, group: dword, ciphers: seq<dword>, akms: seq<dword>, rest: seq<byte>)
    requires |version| == 2 && |ciphers| < 0x1_0000 && |akms| < 0x1_0000
    ensures var body := version + Be32(group) + SuiteList(ciphers) + SuiteList(akms) + rest;
      |body| >= 8 && AbsorbRsn(ap, body)
      == ap.(rsnPresent := true, groupCipher := group, pairwise := ap.pairwise + ciphers, akm := ap.akm + akms)
  {
    hide Suite, Suites, Count, Be32, SuiteBytes;
    FrameLaws.FourBytes(group);
    var body := version + Be32(group) + SuiteList(ciphers) + SuiteList(akms) + rest;
    var head, tail := version + Be32(group), SuiteList(akms) + rest;
    SuiteInMiddle(version, group, SuiteList(ciphers) + tail);
    assert body == head + SuiteList(ciphers) + tail;
    ListRead(head, ciphers, tail);
    assert body == (head + SuiteList(ciphers)) + SuiteList(akms) + rest;
    ListRead(head + SuiteList(ciphers), akms, rest);
    assert version + Be32(group) + (SuiteList(ciphers) + tail) == body;
  }

  lemma SuiteInMiddle(before: seq<byte>, v: dword, after: seq<byte>)
    ensures |before + Be32(v) + after| >= |before| + 4 && Suite(before + Be32(v) + after, |before|) == v
  {
    hide Suite, Be32;
    FrameLaws.FourBytes(v);
    var d := before + Be32(v) + after;
    assert d[|before|..|before| + 4] == Be32(v);
    SuiteAt(d, |before|, v);
  }

  lemma ListRead(before: seq<byte>, ss: seq<dword>, after: seq<byte>)
    requires |ss| < 0x1_0000
    ensures var d := before + SuiteList(ss) + after;
      && |d| == |before| + 2 + 4 * |ss| + |after|
      && Count(d, |before|) == |ss| && Suites(d, |before| + 2, |ss|) == ss
  {
    hide Count, Suites, SuiteBytes;
    var size: seq<byte> := [|ss| % 256, |ss| / 256];
    var d := before + SuiteList(ss) + after;
    assert d == before + size + (SuiteBytes(ss) + after);
    CountAt(before, |ss|, SuiteBytes(ss) + after);
    assert d == (before + size) + SuiteBytes(ss) + after;
    SuitesRoundTrip(before + size, ss, after);
  }

  /** Of any bytes, as many suites are read as are asked for and complete, each from its own four
      bytes, most significant first. */
  lemma {:induction false} SuitesByPosition(d: seq<byte>, o: nat, n: nat)
    requires o <= |d|
    ensures var ss := Suites(d, o, n);
      && |ss| == (if n < (|d| - o) / 4 then n else (|d| - o) / 4)
      && forall k | 0 <= k < |ss| :: SuiteIs(ss[k], d, o + 4 * k)
    decreases n
  {
    if n > 0 && o + 4 <= |d| {
      var rest := Suites(d, o + 4, n - 1);
      SuitesByPosition(d, o + 4, n - 1);
      forall k | 0 <= k < |rest| + 1 ensures SuiteIs(([Suite(d, o)] + rest)[k], d, o + 4 * k) {
        if k > 0 {
          assert SuiteIs(rest[k - 1], d, o + 4 + 4 * (k - 1));
        }
      }
    }
  }

  /** What any RSN body of at least eight bytes says: group at 2, ciphers from 8 on by the count at 6, and
      AKM suites after them by a count of their own, if that is still there. */
  lemma RsnByPosition(d: seq<byte>)
    requires |d| >= 8
    ensures SuiteIs(Suite(d, 2), d, 2)
    ensures var asked, room := d[6] + 256 * (d[7] as int), (|d| - 8) / 4;
      && |Ciphers(d)| == (if asked < room then asked else room)
      && forall k | 0 <= k < |Ciphers(d)| :: SuiteIs(Ciphers(d)[k], d, 8 + 4 * k)
    ensures var o := 8 + 4 * |Ciphers(d)|;
      if o + 2 > |d| then Akms(d) == []
      else
        var asked, room := d[o] + 256 * (d[o + 1] as int), (|d| - o - 2) / 4;
        && |Akms(d)| == (if asked < room then asked else room)
        && forall k | 0 <= k < |Akms(d)| :: SuiteIs(Akms(d)[k], d, o + 2 + 4 * k)
  {
    hide Suites;
    SuitesByPosition(d, 8, Count(d, 6));
    var o := 8 + 4 * |Ciphers(d)|;
    if o + 2 <= |d| {
      SuitesByPosition(d, o + 2, Count(d, o));
    }
  }

  /** Frames that are scanned at all: at least 36 bytes, and a first byte that says beacon or probe
      response in any protocol version. The sender is read from bytes 16 to 21, and without a
      channel element the channel is 0. */
  lemma ScannedFrames(f: seq<byte>)
    ensures ScanOf(f).Some? <==> |f| >= 36 && f[0] in {0x50, 0x51, 0x52, 0x53, 0x80, 0x81, 0x82, 0x83}
    ensures ScanOf(f).Some? ==> ScanOf(f).value.ap.bssid == f[16..22] && ScanOf(f).value.ap.found
    ensures ScanOf(f).Some? && HasNone(Parse(f[36..]), 3, 1) ==> ScanOf(f).value.ap.channel == 0
  {
    hide Parse, Fold;
    if IsApFrame(f) {
      FoldFindsLast(Blank(f[16..22]), Parse(f[36..]), 0);
      FoldAccumulates(Blank(f[16..22]), Parse(f[36..]));
    }
  }

  lemma RsnRoundTrip(ap: ApInfo, group: dword, pairwise: dword, caps: word)
    ensures AbsorbRsn(ap, RsnBody(group, pairwise, caps))
         == ap.(rsnPresent := true, groupCipher := group, pairwise := ap.pairwise + [pairwise], akm := ap.akm + [AKM_PSK])
  {
    var d := RsnBody(group, pairwise, caps);
    SuiteAt(d, 2, group);
    SuiteAt(d, 8, pairwise);
    SuiteAt(d, 14, AKM_PSK);
    assert Count(d, 6) == 1 && Count(d, 12) == 1;
    assert Suites(d, 8, 1) == [pairwise] + Suites(d, 12, 0);
    assert Suites(d, 14, 1) == [AKM_PSK] + Suites(d, 18, 0);
  }

  lemma SuiteAt(d: seq<byte>, o: nat, v: dword)
    requires o + 4 <= |d| && d[o..o + 4] == Be32(v)
    ensures Suite(d, o) == v
  {
    assert d[o] == Be32(v)[0] && d[o + 1] == Be32(v)[1] && d[o + 2] == Be32(v)[2] && d[o + 3] == Be32(v)[3];
    FrameLaws.FromBytes(v);
  }

  lemma FoldAdvertised(bssid: Mac, ssid: seq<byte>, channel: byte, wpa2: bool)
    ensures Fold(Blank(bssid), [Element(TAG_SSID, ssid)] + ApElements(channel, wpa2))
         == Scan(ssid, Advertised(bssid, channel, wpa2))
  {
    hide AbsorbRsn, RsnBody;
    var es := [Element(TAG_SSID, ssid)] + ApElements(channel, wpa2);
    var s1 := Absorb(Blank(bssid), es[0]);
    var s2 := Absorb(s1, es[1]);
    var s3 := Absorb(s2, es[2]);
    assert es[1..][1..] == es[2..] && es[2..][1..] == es[3..];
    assert Fold(Blank(bssid), es) == Fold(s1, es[1..]) == Fold(s2, es[2..]) == Fold(s3, es[3..]);
    if wpa2 {
      RsnRoundTrip(s3.ap, CCMP, CCMP, 0);
      assert es[3..] == [Rsn(CCMP, CCMP, 0)] && es[3..][1..] == [];
      assert s3.ap.pairwise + [CCMP] == [CCMP] && s3.ap.akm + [AKM_PSK] == [AKM_PSK];
      var s4 := Absorb(s3, es[3..][0]);
      assert Fold(s3, es[3..]) == Fold(s4, []);
    } else {
      assert es[3..] == [];
    }
  }

  /** The SSID a scan reports never exceeds 255 bytes. */
  lemma {:induction false} ScannedSsidFits(s: Scan, es: seq<Element>)
    requires |s.ssid| <= 255 && AllFit(es)
    ensures |Fold(s, es).ssid| <= 255
    decreases |es|
  {
    if es != [] {
      assert Fits(es[0]);
      ScannedSsidFits(Absorb(s, es[0]), es[1..]);
    }
  }

  /** Scanning a built beacon finds its sender, channel and security; it finds the SSID, and so the
      network, if and only if the SSID fits its length byte. */
  lemma BeaconIsScanned(self: Mac, ssid: seq<byte>, channel: byte, wpa2: bool)
    ensures ScanOf(Beacon(self, ssid, channel, wpa2)).Some?
    ensures |ssid| <= 255 ==>
              ScanOf(Beacon(self, ssid, channel, wpa2)) == Some(Scan(ssid, Advertised(self, channel, wpa2)))
    ensures ScanOf(Beacon(self, ssid, channel, wpa2)).value.ssid == ssid <==> |ssid| <= 255
  {
    hide Parse, Fold, ApBody, ApElements, Absorb;
    var f := Beacon(self, ssid, channel, wpa2);
    FrameLaws.BeaconElements(self, ssid, channel, wpa2);
    FrameLaws.HeaderFields(FC_MGMT + FC_SUB_BEACON, BROADCAST, self, self, 0, ApBody(ssid, channel, wpa2));
    assert f[0] == f[..2][0] == 0x80;
    FoldAdvertised(self, ssid, channel, wpa2);
    ScannedSsidFits(Blank(self), Parse(f[36..]));
  }

  /** The same for probe responses, whoever they are addressed to. */
  lemma ProbeRespIsScanned(ap: Mac, sta: Mac, ssid: seq<byte>, channel: byte, wpa2: bool)
    ensures ScanOf(ProbeResp(ap, sta, ssid, channel, wpa2)) == ScanOf(Beacon(ap, ssid, channel, wpa2))
  {
    hide Parse, Fold, ApBody, ApElements, Absorb;
    FrameLaws.BeaconElements(ap, ssid, channel, wpa2);
    FrameLaws.ProbeRespElements(ap, sta, ssid, channel, wpa2);
    var b, p := Beacon(ap, ssid, channel, wpa2), ProbeResp(ap, sta, ssid, channel, wpa2);
    var body := ApBody(ssid, channel, wpa2);
    FrameLaws.HeaderFields(FC_MGMT + FC_SUB_BEACON, BROADCAST, ap, ap, 0, body);
    FrameLaws.HeaderFields(FC_MGMT + FC_SUB_PROBE_RESP, sta, ap, ap, 0, body);
    assert b[0] == b[..2][0] == 0x80 && p[0] == p[..2][0] == 0x50;
    assert b[36..] == body[12..] == p[36..];
  }
}
