/** The EFUSE packet log as a value: what any contents of the one-time-programmable
    memory mean, how packets are encoded, and the laws that tie the two together. */
module EfuseLog {
  import opened Bytes
  import opened Dimensions

  const REAL_CONTENT_LEN := 512
  const MAX_SECTION := 64
  const MAX_WORD_UNIT := 4
  const BLANK: word := 0xFFFF

  /** The device: a total function from address to byte. */
  type Contents = nat -> byte

  /** One word of the map being programmed. */
  datatype WordWrite = WordWrite(section: nat, unit: nat, value: word)

  /** What one record contributes, and the address just after it. */
  datatype Chunk = Chunk(writes: seq<WordWrite>, next: nat)

  /** The mask is active low: bit `i` clear means word `i` is present. */
  predicate Enabled(mask: nat, i: nat) {
    Shifted(mask, i) % 2 == 0
  }

  function Shifted(mask: nat, i: nat): nat {
    if i == 0 then mask else if i == 1 then mask / 2 else if i == 2 then mask / 4 else mask / 8
  }

  // ----- Meaning of arbitrary contents -----

  /** Word `i` of a record read at `addr`, low byte first. At the end of the readable area the
      word is cut in half and keeps a zero high byte. */
  function WordRead(c: Contents, addr: nat, section: nat, i: nat): Chunk {
    if addr + 1 >= REAL_CONTENT_LEN then Chunk([WordWrite(section, i, c(addr))], addr + 1)
    else Chunk([WordWrite(section, i, c(addr) + 256 * c(addr + 1))], addr + 2)
  }

  /** The enabled data words of a record for `section` from word `i` on, until the readable area
      is used up. */
  function WordsAt(c: Contents, addr: nat, section: nat, mask: nat, i: nat): Chunk
    requires i <= MAX_WORD_UNIT
    decreases MAX_WORD_UNIT - i, mask
  {
    if i == MAX_WORD_UNIT then Chunk([], addr)
    else if !Enabled(mask, i) then WordsAt(c, addr, section, mask, i + 1)
    else
      var w := WordRead(c, addr, section, i);
      if w.next >= REAL_CONTENT_LEN then w
      else
        var rest := WordsAt(c, w.next, section, mask, i + 1);
        Chunk(w.writes + rest.writes, rest.next)
  }

  /** Where a record for a section outside the map is taken to end. The mask is not shifted
      there, so its lowest bit alone decides between skipping nothing and skipping eight bytes. */
  function SkipAt(addr: nat, mask: nat): nat {
    if mask % 2 == 1 then addr
    else if addr >= REAL_CONTENT_LEN then addr + 1
    else Min(addr + 8, REAL_CONTENT_LEN)
  }

  function SectionAt(c: Contents, addr: nat, section: nat, mask: nat): Chunk {
    if section < MAX_SECTION then WordsAt(c, addr, section, mask, 0)
    else Chunk([], SkipAt(addr, mask))
  }

  /** One record: header byte `hdr` has just been read and `addr` follows it. */
  function RecordAt(c: Contents, addr: nat, hdr: byte): Chunk {
    if hdr % 32 == 15 then
      var second := c(addr);
      if second % 16 == 15 then Chunk([], addr + 1)
      else SectionAt(c, addr + 1, second / 16 * 8 + hdr / 32, second % 16)
    else
      SectionAt(c, addr, hdr / 16, hdr % 16)
  }

  lemma {:induction false} RecordAdvances(c: Contents, addr: nat, hdr: byte)
    ensures RecordAt(c, addr, hdr).next >= addr
  {
    WordsAdvance(c, addr, hdr / 16, hdr % 16, 0);
    WordsAdvance(c, addr + 1, c(addr) / 16 * 8 + hdr / 32, c(addr) % 16, 0);
  }

  lemma {:induction false} WordsAdvance(c: Contents, addr: nat, section: nat, mask: nat, i: nat)
    requires i <= MAX_WORD_UNIT
    ensures WordsAt(c, addr, section, mask, i).next >= addr
    decreases MAX_WORD_UNIT - i
  {
    if i < MAX_WORD_UNIT {
      WordsAdvance(c, addr, section, mask, i + 1);
      WordsAdvance(c, addr + 2, section, mask, i + 1);
    }
  }

  /** No header is taken from address 511 on, and 0xFF ends the log. */
  predicate AtEnd(c: Contents, pos: nat) {
    pos >= REAL_CONTENT_LEN - 1 || c(pos) == 0xFF
  }

  /** All word writes of the log whose next header is at `pos`, in order. */
  function Log(c: Contents, pos: nat): seq<WordWrite>
    decreases REAL_CONTENT_LEN - pos, c(pos)
  {
    if AtEnd(c, pos) then []
    else
      var r := RecordAt(c, pos + 1, c(pos));
      RecordAdvances(c, pos + 1, c(pos));
      r.writes + Log(c, r.next)
  }

  /** Where the log starting at `pos` ends. */
  function LogEnd(c: Contents, pos: nat): nat
    decreases REAL_CONTENT_LEN - pos, c(pos)
  {
    if AtEnd(c, pos) then pos
    else
      RecordAdvances(c, pos + 1, c(pos));
      LogEnd(c, RecordAt(c, pos + 1, c(pos)).next)
  }

  /** The value the last write left in a slot, or the blank word. */
  function LastWrite(log: seq<WordWrite>, section: nat, unit: nat): word {
    if log == [] then BLANK
    else
      var w := log[|log| - 1];
      if w.section == section && w.unit == unit then w.value
      else LastWrite(log[..|log| - 1], section, unit)
  }

  /** Byte `k` of the logical map after the writes of `log`: words are little endian. */
  function MapByte(log: seq<WordWrite>, k: nat): byte {
    var w := LastWrite(log, k / 8, k % 8 / 2);
    if k % 2 == 0 then w % 256 else w / 256
  }

  /** The whole decoded map. */
  ghost function MapOf(c: Contents): (e: seq<byte>)
    ensures |e| == MAP_LEN
  {
    seq(MAP_LEN, k requires 0 <= k < MAP_LEN => MapByte(Log(c, 0), k))
  }

  // ----- Packets and their encoding -----

  datatype Packet = Packet(section: nat, mask: nat, words: seq<word>, extended: bool)

  /** A packet the format can carry. Sections 64..127 exist on the wire only; their records
      are skipped exactly when all four words are present or none is, see `SkipIsExact`. A header
      that enables no word stands for nothing; only the extended form can carry it. */
  predicate ValidPacket(p: Packet) {
    && p.section < 2 * MAX_SECTION
    && p.mask <= 15 && (p.mask == 15 ==> p.extended)
    && |p.words| == MAX_WORD_UNIT
    && (!p.extended ==> p.section < 16)
    && (p.section >= MAX_SECTION ==> p.mask == 0 || p.mask == 15)
  }

  predicate AllValid(ps: seq<Packet>) {
    forall k | 0 <= k < |ps| :: ValidPacket(ps[k])
  }

  function EncodeHeader(p: Packet): seq<byte>
    requires ValidPacket(p)
  {
    if p.extended then [p.section % 8 * 32 + 15, p.section / 8 * 16 + p.mask]
    else [p.section * 16 + p.mask]
  }

  function EncodeWords(mask: nat, words: seq<word>, i: nat): seq<byte>
    requires |words| == MAX_WORD_UNIT && i <= MAX_WORD_UNIT
    decreases MAX_WORD_UNIT - i, mask
  {
    if i == MAX_WORD_UNIT then []
    else (if Enabled(mask, i) then [words[i] % 256, words[i] / 256] else [])
         + EncodeWords(mask, words, i + 1)
  }

  function EncodePacket(p: Packet): seq<byte>
    requires ValidPacket(p)
  {
    EncodeHeader(p) + EncodeWords(p.mask, p.words, 0)
  }

  function EncodeLog(ps: seq<Packet>): seq<byte>
    requires AllValid(ps)
  {
    if ps == [] then [] else EncodePacket(ps[0]) + EncodeLog(ps[1..])
  }

  /** The word writes a packet stands for. */
  function PacketWrites(section: nat, mask: nat, words: seq<word>, i: nat): seq<WordWrite>
    requires |words| == MAX_WORD_UNIT && i <= MAX_WORD_UNIT
    decreases MAX_WORD_UNIT - i, mask
  {
    if i == MAX_WORD_UNIT then []
    else (if Enabled(mask, i) then [WordWrite(section, i, words[i])] else [])
         + PacketWrites(section, mask, words, i + 1)
  }

  function Writes(p: Packet): seq<WordWrite>
    requires ValidPacket(p)
  {
    if p.section < MAX_SECTION then PacketWrites(p.section, p.mask, p.words, 0) else []
  }

  function AllWrites(ps: seq<Packet>): seq<WordWrite>
    requires AllValid(ps)
  {
    if ps == [] then [] else Writes(ps[0]) + AllWrites(ps[1..])
  }

  /** The device holds `bytes` from address `pos` on. */
  ghost predicate Holds(c: Contents, pos: nat, bytes: seq<byte>) {
    forall k: nat {:trigger bytes[k]} | k < |bytes| :: c(pos + k) == bytes[k]
  }

  lemma HoldsSplit(c: Contents, pos: nat, a: seq<byte>, b: seq<byte>)
    requires Holds(c, pos, a + b)
    ensures Holds(c, pos, a) && Holds(c, pos + |a|, b)
  {
    forall k: nat | k < |a| ensures c(pos + k) == a[k] {
      assert (a + b)[k] == a[k];
    }
    forall k: nat | k < |b| ensures c(pos + |a| + k) == b[k] {
      assert (a + b)[|a| + k] == b[k];
    }
  }

  // ----- Decoding undoes encoding -----

  lemma {:induction false} WordsRoundTrip(c: Contents, addr: nat, section: nat, mask: nat, words: seq<word>, i: nat)
    requires |words| == MAX_WORD_UNIT && i <= MAX_WORD_UNIT
    requires Holds(c, addr, EncodeWords(mask, words, i))
    requires addr + |EncodeWords(mask, words, i)| <= REAL_CONTENT_LEN
    ensures WordsAt(c, addr, section, mask, i)
         == Chunk(PacketWrites(section, mask, words, i), addr + |EncodeWords(mask, words, i)|)
    decreases MAX_WORD_UNIT - i
  {
    hide Shifted;
    if i < MAX_WORD_UNIT {
      var rest := EncodeWords(mask, words, i + 1);
      if Enabled(mask, i) {
        var both := [words[i] % 256, words[i] / 256];
        assert EncodeWords(mask, words, i) == both + rest;
        HoldsSplit(c, addr, both, rest);
        assert c(addr + 0) == both[0] && c(addr + 1) == both[1];
        WordsRoundTrip(c, addr + 2, section, mask, words, i + 1);
        if addr + 2 == REAL_CONTENT_LEN {
          NoDataNoWrites(section, mask, words, i + 1);
        }
      } else {
        assert EncodeWords(mask, words, i) == rest;
        WordsRoundTrip(c, addr, section, mask, words, i + 1);
      }
    }
  }

  lemma NoDataNoWrites(section: nat, mask: nat, words: seq<word>, i: nat)
    requires |words| == MAX_WORD_UNIT && i <= MAX_WORD_UNIT
    requires EncodeWords(mask, words, i) == []
    ensures PacketWrites(section, mask, words, i) == []
    decreases MAX_WORD_UNIT - i
  {
  }

  lemma EncodedWordsLength(mask: nat, words: seq<word>)
    requires |words| == MAX_WORD_UNIT && mask <= 15
    ensures |EncodeWords(mask, words, 0)| <= 8 && |EncodeWords(mask, words, 0)| % 2 == 0
    ensures |EncodeWords(mask, words, 0)| == 8 <==> mask == 0
    ensures |EncodeWords(mask, words, 0)| == 0 <==> mask == 15
  {
    assert |EncodeWords(mask, words, 4)| == 0;
    assert |EncodeWords(mask, words, 3)| == if Enabled(mask, 3) then 2 else 0;
    assert |EncodeWords(mask, words, 2)| == (if Enabled(mask, 2) then 2 else 0) + |EncodeWords(mask, words, 3)|;
    assert |EncodeWords(mask, words, 1)| == (if Enabled(mask, 1) then 2 else 0) + |EncodeWords(mask, words, 2)|;
    assert |EncodeWords(mask, words, 0)| == (if Enabled(mask, 0) then 2 else 0) + |EncodeWords(mask, words, 1)|;
  }

  lemma OctSplit(q: nat, r: nat)
    requires r < 8
    ensures (q * 8 + r) / 8 == q && (q * 8 + r) % 8 == r && (q * 8 + r) % 2 == r % 2
  {
  }

  /** The two bytes of a slot lie where `MapByte` looks for them. */
  lemma SlotOfByte(i: nat, j: nat)
    requires j < MAX_WORD_UNIT
    ensures var k := i * 8 + j * 2;
      && k / 8 == i && k % 8 / 2 == j && k % 2 == 0
      && (k + 1) / 8 == i && (k + 1) % 8 / 2 == j && (k + 1) % 2 == 1
  {
    OctSplit(i, 2 * j);
    OctSplit(i, 2 * j + 1);
  }

  lemma PackedByNibble(q: nat, r: nat)
    requires r < 16
    ensures (q * 16 + r) / 16 == q && (q * 16 + r) % 16 == r
  {
  }

  lemma PackedByFive(q: nat, r: nat)
    requires r < 32
    ensures (q * 32 + r) / 32 == q && (q * 32 + r) % 32 == r
  {
  }

  lemma HeaderRoundTrip(p: Packet)
    requires ValidPacket(p)
    ensures var h := EncodeHeader(p);
      && h[0] != 0xFF
      && (p.extended <==> h[0] % 32 == 15)
      && (p.extended ==> h[1] % 16 == p.mask && h[1] / 16 * 8 + h[0] / 32 == p.section)
      && (!p.extended ==> h[0] / 16 == p.section && h[0] % 16 == p.mask)
  {
    if p.extended {
      PackedByFive(p.section % 8, 15);
      PackedByNibble(p.section / 8, p.mask);
    } else {
      PackedByNibble(p.section, p.mask);
    }
  }

  lemma PacketRoundTrip(c: Contents, pos: nat, p: Packet)
    requires ValidPacket(p)
    requires Holds(c, pos, EncodePacket(p)) && pos + |EncodePacket(p)| <= REAL_CONTENT_LEN
    ensures !AtEnd(c, pos)
    ensures RecordAt(c, pos + 1, c(pos)) == Chunk(Writes(p), pos + |EncodePacket(p)|)
  {
    hide RecordAt, SectionAt, EncodeHeader, EncodeWords, PacketWrites;
    var h, d := EncodeHeader(p), EncodeWords(p.mask, p.words, 0);
    HoldsSplit(c, pos, h, d);
    HeaderRead(c, pos, p);
    EncodedWordsLength(p.mask, p.words);
    if p.mask == 15 {
      NoDataNoWrites(p.section, p.mask, p.words, 0);
    } else {
      SectionRoundTrip(c, pos + |h|, p);
    }
  }

  /** The header alone: the section and the mask it carries open the record. */
  lemma HeaderRead(c: Contents, pos: nat, p: Packet)
    requires ValidPacket(p) && Holds(c, pos, EncodeHeader(p))
    ensures c(pos) != 0xFF && |EncodeHeader(p)| == if p.extended then 2 else 1
    ensures RecordAt(c, pos + 1, c(pos))
         == if p.mask == 15 then Chunk([], pos + |EncodeHeader(p)|)
            else SectionAt(c, pos + |EncodeHeader(p)|, p.section, p.mask)
  {
    hide SectionAt;
    var h := EncodeHeader(p);
    assert c(pos + 0) == h[0];
    assert p.extended ==> c(pos + 1) == h[1];
    HeaderRoundTrip(p);
  }

  lemma SectionRoundTrip(c: Contents, addr: nat, p: Packet)
    requires ValidPacket(p)
    requires Holds(c, addr, EncodeWords(p.mask, p.words, 0))
    requires addr + |EncodeWords(p.mask, p.words, 0)| <= REAL_CONTENT_LEN
    ensures SectionAt(c, addr, p.section, p.mask) == Chunk(Writes(p), addr + |EncodeWords(p.mask, p.words, 0)|)
  {
    if p.section < MAX_SECTION {
      WordsRoundTrip(c, addr, p.section, p.mask, p.words, 0);
    } else {
      EncodedWordsLength(p.mask, p.words);
    }
  }

  lemma LogUnfold(c: Contents, pos: nat)
    requires !AtEnd(c, pos)
    ensures var r := RecordAt(c, pos + 1, c(pos));
      Log(c, pos) == r.writes + Log(c, r.next) && LogEnd(c, pos) == LogEnd(c, r.next)
  {
  }

  /** The first record of a non-empty log: where it lies, and what decoding it does. */
  lemma FirstPacket(c: Contents, pos: nat, ps: seq<Packet>)
    requires AllValid(ps) && ps != []
    requires Holds(c, pos, EncodeLog(ps)) && pos + |EncodeLog(ps)| <= REAL_CONTENT_LEN
    ensures var mid := pos + |EncodePacket(ps[0])|;
      && AllValid(ps[1..]) && Holds(c, mid, EncodeLog(ps[1..]))
      && pos + |EncodeLog(ps)| == mid + |EncodeLog(ps[1..])|
      && Log(c, pos) == Writes(ps[0]) + Log(c, mid)
      && LogEnd(c, pos) == LogEnd(c, mid)
  {
    hide RecordAt, EncodePacket, Writes, ValidPacket, Holds;
    var head, tail := EncodePacket(ps[0]), EncodeLog(ps[1..]);
    HoldsSplit(c, pos, head, tail);
    PacketRoundTrip(c, pos, ps[0]);
  }

  /** Decoding an encoded log gives back exactly its writes, in order. The log may fill the
      readable area to the last byte; when it is shorter a 0xFF byte must follow it. */
  lemma {:induction false} LogRoundTrip(c: Contents, pos: nat, ps: seq<Packet>)
    requires AllValid(ps)
    requires Holds(c, pos, EncodeLog(ps)) && pos + |EncodeLog(ps)| <= REAL_CONTENT_LEN
    requires AtEnd(c, pos + |EncodeLog(ps)|)
    ensures Log(c, pos) == AllWrites(ps)
    ensures LogEnd(c, pos) == pos + |EncodeLog(ps)|
    decreases |ps|
  {
    hide RecordAt, EncodePacket, Writes, ValidPacket, Holds;
    if ps != [] {
      FirstPacket(c, pos, ps);
      LogRoundTrip(c, pos + |EncodePacket(ps[0])|, ps[1..]);
    }
  }
}
