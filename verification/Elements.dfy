/** Tag-length-value elements of management frames (section 9.4.2.1 of IEEE 802.11-2016). */
module Elements {
  import opened Bytes

  datatype Element = Element(id: byte, body: seq<byte>)

  /** The length field is one byte. */
  predicate Fits(e: Element) {
    |e.body| <= 255
  }

  predicate AllFit(es: seq<Element>) {
    forall k | 0 <= k < |es| :: Fits(es[k])
  }

  function EncodeElement(e: Element): seq<byte>
    requires Fits(e)
  {
    [e.id, |e.body|] + e.body
  }

  function Encode(es: seq<Element>): seq<byte>
    requires AllFit(es)
  {
    if es == [] then [] else EncodeElement(es[0]) + Encode(es[1..])
  }

  /** Size of the first element by its length byte. */
  function FirstSize(bytes: seq<byte>): (n: nat)
    requires |bytes| >= 2
    ensures 2 <= n <= 257
  {
    var len: int := bytes[1];
    2 + len
  }

  /** Nothing more can be read: no room for a header, or the element overruns the rest. */
  predicate Exhausted(bytes: seq<byte>) {
    |bytes| < 2 || |bytes| < FirstSize(bytes)
  }

  /** The walk over elements: it stops at the first that does not fit in what is left. */
  function Parse(bytes: seq<byte>): (es: seq<Element>)
    ensures AllFit(es)
    decreases |bytes|
  {
    if Exhausted(bytes) then []
    else [Element(bytes[0], bytes[2..FirstSize(bytes)])] + Parse(bytes[FirstSize(bytes)..])
  }

  /** How many bytes the walk consumes. */
  function Walked(bytes: seq<byte>): (n: nat)
    ensures n <= |bytes|
    decreases |bytes|
  {
    if Exhausted(bytes) then 0 else FirstSize(bytes) + Walked(bytes[FirstSize(bytes)..])
  }

  lemma ParseFirst(e: Element, rest: seq<byte>)
    requires Fits(e)
    ensures Parse(EncodeElement(e) + rest) == [e] + Parse(rest)
    ensures Walked(EncodeElement(e) + rest) == |EncodeElement(e)| + Walked(rest)
  {
    var all := EncodeElement(e) + rest;
    assert FirstSize(all) == |EncodeElement(e)|;
    assert all[2..FirstSize(all)] == e.body;
    assert all[FirstSize(all)..] == rest;
  }

  /** Parsing undoes encoding and consumes exactly what was encoded. */
  lemma {:induction false} ParseUndoesEncode(es: seq<Element>, rest: seq<byte>)
    requires AllFit(es)
    ensures Parse(Encode(es) + rest) == es + Parse(rest)
    ensures Walked(Encode(es) + rest) == |Encode(es)| + Walked(rest)
    decreases |es|
  {
    hide Parse, Walked, EncodeElement;
    if es == [] {
      assert Encode(es) + rest == rest;
    } else {
      assert AllFit(es[1..]) && Fits(es[0]);
      hide AllFit, Fits;
      var first, others := EncodeElement(es[0]), Encode(es[1..]);
      ParseUndoesEncode(es[1..], rest);
      ParseFirst(es[0], others + rest);
      assert Encode(es) == first + others;
      assert first + others + rest == first + (others + rest);
      assert [es[0]] + (es[1..] + Parse(rest)) == es + Parse(rest);
    }
  }

  lemma ParseExact(es: seq<Element>)
    requires AllFit(es)
    ensures Parse(Encode(es)) == es && Walked(Encode(es)) == |Encode(es)|
  {
    ParseUndoesEncode(es, []);
    assert Encode(es) + [] == Encode(es);
  }

  lemma {:induction false} EncodeConcat(a: seq<Element>, b: seq<Element>)
    requires AllFit(a) && AllFit(b)
    ensures AllFit(a + b) && Encode(a + b) == Encode(a) + Encode(b)
    decreases |a|
  {
    hide EncodeElement;
    if a == [] {
      assert a + b == b;
    } else {
      assert AllFit(a + b) && AllFit(a[1..]) && Fits(a[0]);
      hide AllFit, Fits;
      EncodeConcat(a[1..], b);
      assert (a + b)[0] == a[0] && (a + b)[1..] == a[1..] + b;
      assert Encode(a) == EncodeElement(a[0]) + Encode(a[1..]);
      assert Encode(a + b) == EncodeElement(a[0]) + (Encode(a[1..]) + Encode(b));
    }
  }

  /** Conversely, encoding what was parsed gives back the consumed bytes. */
  lemma {:induction false} EncodeUndoesParse(bytes: seq<byte>)
    ensures Encode(Parse(bytes)) == bytes[..Walked(bytes)]
    decreases |bytes|
  {
    if !Exhausted(bytes) {
      var n := FirstSize(bytes);
      EncodeUndoesParse(bytes[n..]);
      var first := Element(bytes[0], bytes[2..n]);
      assert EncodeElement(first) == bytes[..n];
      hide EncodeElement, AllFit;
      assert Parse(bytes) == [first] + Parse(bytes[n..]);
      assert Parse(bytes)[1..] == Parse(bytes[n..]);
      assert bytes[..Walked(bytes)] == bytes[..n] + bytes[n..][..Walked(bytes[n..])];
    }
  }

  /** An SSID as the builders emit it: the length byte holds only the low eight bits. */
  function RawSsid(ssid: seq<byte>): seq<byte> {
    [0x00, |ssid| % 256] + ssid
  }

  /** An SSID that does not fit is read back shorter. */
  lemma LongSsidIsCut(ssid: seq<byte>, rest: seq<byte>)
    requires |ssid| > 255
    ensures var es := Parse(RawSsid(ssid) + rest);
      |es| > 0 && |es[0].body| == |ssid| % 256 && es[0].body != ssid
  {
    var all := RawSsid(ssid) + rest;
    assert all[1] == |ssid| % 256 && FirstSize(all) == 2 + |ssid| % 256;
  }

  /** A list that starts with a raw SSID parses as intended if and only if the SSID fits. */
  lemma RawSsidParses(ssid: seq<byte>, rest: seq<Element>)
    requires AllFit(rest)
    ensures Parse(RawSsid(ssid) + Encode(rest)) == [Element(0x00, ssid)] + rest <==> |ssid| <= 255
    ensures |ssid| <= 255 ==> Walked(RawSsid(ssid) + Encode(rest)) == |RawSsid(ssid) + Encode(rest)|
  {
    var all := RawSsid(ssid) + Encode(rest);
    if |ssid| <= 255 {
      assert RawSsid(ssid) == EncodeElement(Element(0x00, ssid));
      ParseFirst(Element(0x00, ssid), Encode(rest));
      ParseExact(rest);
    } else {
      LongSsidIsCut(ssid, Encode(rest));
    }
  }
}
