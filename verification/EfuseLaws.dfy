/** Laws of the EFUSE log: what the decoded map holds, programming one more packet,
    and exactly when a record for a section outside the map is skipped correctly. */
module EfuseLaws {
  import opened Bytes
  import opened Dimensions
  import opened EfuseLog

  predicate Touches(log: seq<WordWrite>, section: nat, unit: nat) {
    exists w <- log :: w.section == section && w.unit == unit
  }

  /** The packet programs word `unit` of `section`. */
  predicate WritesSlot(p: Packet, section: nat, unit: nat) {
    p.section == section && section < MAX_SECTION && unit < MAX_WORD_UNIT && Enabled(p.mask, unit)
  }

  lemma {:induction false} LastWriteConcat(a: seq<WordWrite>, b: seq<WordWrite>, section: nat, unit: nat)
    ensures LastWrite(a + b, section, unit)
         == LastWrite(if Touches(b, section, unit) then b else a, section, unit)
    decreases |b|
  {
    if b == [] {
      assert a + b == a;
    } else {
      var init, w := b[..|b| - 1], b[|b| - 1];
      assert b == init + [w];
      assert (a + b)[..|a + b| - 1] == a + init;
      LastWriteConcat(a, init, section, unit);
      assert Touches(b, section, unit) <==>
             (w.section == section && w.unit == unit) || Touches(init, section, unit);
    }
  }

  lemma {:induction false} PacketWritesSlots(section: nat, mask: nat, words: seq<word>, i: nat, s: nat, u: nat)
    requires |words| == MAX_WORD_UNIT && i <= MAX_WORD_UNIT
    ensures var log := PacketWrites(section, mask, words, i);
      && (Touches(log, s, u) <==> section == s && i <= u < MAX_WORD_UNIT && Enabled(mask, u))
      && (Touches(log, s, u) ==> LastWrite(log, s, u) == words[u])
    decreases MAX_WORD_UNIT - i
  {
    hide Enabled;
    if i < MAX_WORD_UNIT {
      PacketWritesSlots(section, mask, words, i + 1, s, u);
      if Enabled(mask, i) {
        var head, tail := [WordWrite(section, i, words[i])], PacketWrites(section, mask, words, i + 1);
        assert PacketWrites(section, mask, words, i) == head + tail;
        LastWriteConcat(head, tail, s, u);
        assert Touches(head + tail, s, u) <==> (section == s && i == u) || Touches(tail, s, u) by {
          assert head[0] in head + tail;
        }
        assert LastWrite(head, section, i) == words[i];
      } else {
        assert PacketWrites(section, mask, words, i) == PacketWrites(section, mask, words, i + 1);
      }
    }
  }

  lemma WritesSlots(p: Packet, s: nat, u: nat)
    requires ValidPacket(p)
    ensures Touches(Writes(p), s, u) <==> WritesSlot(p, s, u)
    ensures WritesSlot(p, s, u) ==> LastWrite(Writes(p), s, u) == p.words[u]
  {
    PacketWritesSlots(p.section, p.mask, p.words, 0, s, u);
  }

  predicate Unwritten(ps: seq<Packet>, s: nat, u: nat) {
    forall k | 0 <= k < |ps| :: !WritesSlot(ps[k], s, u)
  }

  lemma {:induction false} NeverWritten(ps: seq<Packet>, s: nat, u: nat)
    requires AllValid(ps)
    requires Unwritten(ps, s, u)
    ensures !Touches(AllWrites(ps), s, u) && LastWrite(AllWrites(ps), s, u) == BLANK
    decreases |ps|
  {
    if ps != [] {
      var head, tail := Writes(ps[0]), AllWrites(ps[1..]);
      WritesSlots(ps[0], s, u);
      NeverWritten(ps[1..], s, u);
      LastWriteConcat(head, tail, s, u);
      LastWriteConcat([], head, s, u);
      assert [] + head == head;
    }
  }

  /** `ps[k]` is the last packet that programs the slot. */
  predicate LastWriter(ps: seq<Packet>, k: int, s: nat, u: nat) {
    && 0 <= k < |ps| && WritesSlot(ps[k], s, u)
    && forall j | k < j < |ps| :: !WritesSlot(ps[j], s, u)
  }

  lemma {:induction false} LastWriterWins(ps: seq<Packet>, k: int, s: nat, u: nat)
    requires AllValid(ps) && LastWriter(ps, k, s, u)
    ensures Touches(AllWrites(ps), s, u) && LastWrite(AllWrites(ps), s, u) == ps[k].words[u]
    decreases |ps|
  {
    hide WritesSlot, ValidPacket, Writes, LastWrite;
    var head, tail := Writes(ps[0]), AllWrites(ps[1..]);
    WritesSlots(ps[0], s, u);
    LastWriteConcat(head, tail, s, u);
    assert AllWrites(ps) == head + tail;
    if k == 0 {
      NeverWritten(ps[1..], s, u);
      var w :| w in head && w.section == s && w.unit == u;
      assert w in head + tail;
    } else {
      LastWriterWins(ps[1..], k - 1, s, u);
      var w :| w in tail && w.section == s && w.unit == u;
      assert w in head + tail;
    }
  }

  /** Decoding undoes encoding, word by word of the map: each word holds the value of the last
      packet that programmed it, and is blank where no packet ever wrote. */
  lemma SlotRoundTrip(c: Contents, ps: seq<Packet>, s: nat, u: nat)
    requires AllValid(ps)
    requires Holds(c, 0, EncodeLog(ps)) && |EncodeLog(ps)| <= REAL_CONTENT_LEN
    requires AtEnd(c, |EncodeLog(ps)|)
    ensures Unwritten(ps, s, u) ==> LastWrite(Log(c, 0), s, u) == BLANK
    ensures forall j | LastWriter(ps, j, s, u) :: LastWrite(Log(c, 0), s, u) == ps[j].words[u]
  {
    assert 0 + |EncodeLog(ps)| == |EncodeLog(ps)|;
    LogRoundTrip(c, 0, ps);
    if Unwritten(ps, s, u) {
      NeverWritten(ps, s, u);
    }
    forall j | LastWriter(ps, j, s, u)
      ensures LastWrite(AllWrites(ps), s, u) == ps[j].words[u]
    {
      LastWriterWins(ps, j, s, u);
    }
  }

  /** The same, byte by byte of the 512-byte map. */
  lemma MapRoundTrip(c: Contents, ps: seq<Packet>, s: nat, u: nat)
    requires AllValid(ps) && s < MAX_SECTION && u < MAX_WORD_UNIT
    requires Holds(c, 0, EncodeLog(ps)) && |EncodeLog(ps)| <= REAL_CONTENT_LEN
    requires AtEnd(c, |EncodeLog(ps)|)
    ensures var at := 8 * s + 2 * u;
      && (Unwritten(ps, s, u) ==> MapOf(c)[at] == 0xFF && MapOf(c)[at + 1] == 0xFF)
      && (forall j | LastWriter(ps, j, s, u) ::
            MapOf(c)[at] == ps[j].words[u] % 256 && MapOf(c)[at + 1] == ps[j].words[u] / 256)
  {
    hide EncodeLog, Holds, AtEnd, AllValid, Log, LastWrite, WritesSlot;
    SlotRoundTrip(c, ps, s, u);
    SlotBytes(c, s, u);
  }

  /** A slot's two bytes in the map. */
  lemma SlotBytes(c: Contents, s: nat, u: nat)
    requires s < MAX_SECTION && u < MAX_WORD_UNIT
    ensures MapOf(c)[8 * s + 2 * u] == LastWrite(Log(c, 0), s, u) % 256
    ensures MapOf(c)[8 * s + 2 * u + 1] == LastWrite(Log(c, 0), s, u) / 256
  {
    hide Log, MapByte;
    assert 8 * s + 2 * u + 1 < MAP_LEN;
    MapByteAt(Log(c, 0), s, u);
  }

  lemma MapByteAt(log: seq<WordWrite>, s: nat, u: nat)
    requires u < MAX_WORD_UNIT
    ensures MapByte(log, 8 * s + 2 * u) == LastWrite(log, s, u) % 256
    ensures MapByte(log, 8 * s + 2 * u + 1) == LastWrite(log, s, u) / 256
  {
    hide LastWrite, MapByte;
    SlotOfByte(s, u);
    var k := s * 8 + u * 2;
    MapByteOf(log, k, s, u);
    MapByteOf(log, k + 1, s, u);
    assert 8 * s + 2 * u == k;
  }

  lemma MapByteOf(log: seq<WordWrite>, k: nat, s: nat, u: nat)
    requires k / 8 == s && k % 8 / 2 == u
    ensures MapByte(log, k) == if k % 2 == 0 then LastWrite(log, s, u) % 256 else LastWrite(log, s, u) / 256
  {
    hide LastWrite;
  }

  // ----- Programming one more packet -----

  /** The two devices agree below address `e`. */
  ghost predicate AgreeBelow(c: Contents, d: Contents, e: nat) {
    forall k: nat | k < e :: c(k) == d(k)
  }

  lemma {:induction false} WordsLocal(c: Contents, d: Contents, e: nat, addr: nat, section: nat, mask: nat, i: nat)
    requires i <= MAX_WORD_UNIT
    requires AgreeBelow(c, d, e) && WordsAt(c, addr, section, mask, i).next <= e
    ensures WordsAt(d, addr, section, mask, i) == WordsAt(c, addr, section, mask, i)
    decreases MAX_WORD_UNIT - i
  {
    if i < MAX_WORD_UNIT {
      if !Enabled(mask, i) {
        WordsLocal(c, d, e, addr, section, mask, i + 1);
      } else if addr + 2 < REAL_CONTENT_LEN {
        WordsAdvance(c, addr + 2, section, mask, i + 1);
        WordsLocal(c, d, e, addr + 2, section, mask, i + 1);
      }
    }
  }

  lemma SectionLocal(c: Contents, d: Contents, e: nat, addr: nat, section: nat, mask: nat)
    requires AgreeBelow(c, d, e) && SectionAt(c, addr, section, mask).next <= e
    ensures SectionAt(d, addr, section, mask) == SectionAt(c, addr, section, mask)
    ensures SectionAt(c, addr, section, mask).next >= addr
  {
    WordsAdvance(c, addr, section, mask, 0);
    if section < MAX_SECTION {
      WordsLocal(c, d, e, addr, section, mask, 0);
    }
  }

  lemma RecordLocal(c: Contents, d: Contents, e: nat, addr: nat, hdr: byte)
    requires AgreeBelow(c, d, e) && RecordAt(c, addr, hdr).next <= e
    ensures RecordAt(d, addr, hdr) == RecordAt(c, addr, hdr)
  {
    if hdr % 32 == 15 {
      var second := c(addr);
      if second % 16 == 15 {
        assert d(addr) == second;
      } else {
        var section, mask := second / 16 * 8 + hdr / 32, second % 16;
        assert RecordAt(c, addr, hdr) == SectionAt(c, addr + 1, section, mask);
        WordsAdvance(c, addr + 1, section, mask, 0);
        assert d(addr) == second;
        SectionLocal(c, d, e, addr + 1, section, mask);
      }
    } else {
      SectionLocal(c, d, e, addr, hdr / 16, hdr % 16);
    }
  }

  lemma {:induction false} EndAdvances(c: Contents, pos: nat)
    ensures LogEnd(c, pos) >= pos
    decreases REAL_CONTENT_LEN - pos
  {
    if !AtEnd(c, pos) {
      RecordAdvances(c, pos + 1, c(pos));
      EndAdvances(c, RecordAt(c, pos + 1, c(pos)).next);
    }
  }

  lemma FirstRecordLocal(c: Contents, d: Contents, pos: nat)
    requires !AtEnd(c, pos) && AgreeBelow(c, d, LogEnd(c, pos))
    ensures var r := RecordAt(c, pos + 1, c(pos));
      && pos < r.next && LogEnd(c, pos) == LogEnd(c, r.next)
      && Log(c, pos) == r.writes + Log(c, r.next)
      && Log(d, pos) == r.writes + Log(d, r.next)
  {
    var r := RecordAt(c, pos + 1, c(pos));
    RecordAdvances(c, pos + 1, c(pos));
    LogUnfold(c, pos);
    EndAdvances(c, r.next);
    assert d(pos) == c(pos);
    RecordLocal(c, d, LogEnd(c, pos), pos + 1, c(pos));
    LogUnfold(d, pos);
  }

  /** Decoding never looks past the end it finds: whatever follows there is decoded next. */
  lemma {:induction false} LogIsLocal(c: Contents, d: Contents, pos: nat)
    requires AgreeBelow(c, d, LogEnd(c, pos))
    ensures Log(d, pos) == Log(c, pos) + Log(d, LogEnd(c, pos))
    decreases REAL_CONTENT_LEN - pos
  {
    hide RecordAt, AgreeBelow, AtEnd, Log, LogEnd;
    if AtEnd(c, pos) {
      EmptyLog(c, pos);
      assert [] + Log(d, pos) == Log(d, pos);
    } else {
      FirstRecordLocal(c, d, pos);
      var r := RecordAt(c, pos + 1, c(pos));
      EndedBefore(c, pos);
      LogIsLocal(c, d, r.next);
      Associative(r.writes, Log(c, r.next), Log(d, LogEnd(c, pos)));
    }
  }

  lemma EmptyLog(c: Contents, pos: nat)
    requires AtEnd(c, pos)
    ensures Log(c, pos) == [] && LogEnd(c, pos) == pos
  {
  }

  lemma EndedBefore(c: Contents, pos: nat)
    requires !AtEnd(c, pos)
    ensures pos < REAL_CONTENT_LEN
  {
  }

  lemma Associative<T>(x: seq<T>, y: seq<T>, z: seq<T>)
    ensures x + (y + z) == x + y + z
  {
  }

  /** Programming a packet where the log of ANY contents ends replaces exactly the words that
      packet enables and leaves every other word of the map as it was. */
  lemma AppendPacket(c: Contents, d: Contents, p: Packet, s: nat, u: nat)
    requires ValidPacket(p)
    requires AgreeBelow(c, d, LogEnd(c, 0))
    requires Holds(d, LogEnd(c, 0), EncodePacket(p))
    requires LogEnd(c, 0) + |EncodePacket(p)| <= REAL_CONTENT_LEN
    requires AtEnd(d, LogEnd(c, 0) + |EncodePacket(p)|)
    ensures LastWrite(Log(d, 0), s, u)
         == if WritesSlot(p, s, u) then p.words[u] else LastWrite(Log(c, 0), s, u)
  {
    hide RecordAt, EncodePacket, Writes, WritesSlot, LastWrite;
    var e := LogEnd(c, 0);
    LogIsLocal(c, d, 0);
    PacketRoundTrip(d, e, p);
    LogUnfold(d, e);
    assert Log(d, e) == Writes(p);
    WritesSlots(p, s, u);
    LastWriteConcat(Log(c, 0), Writes(p), s, u);
  }

  /** Header form does not matter: one-byte and extended headers decode alike. */
  lemma HeaderFormIrrelevant(c: Contents, d: Contents, pos: nat, p: Packet)
    requires ValidPacket(p) && !p.extended
    requires Holds(c, pos, EncodePacket(p)) && pos + |EncodePacket(p)| <= REAL_CONTENT_LEN
    requires Holds(d, pos, EncodePacket(p.(extended := true)))
    requires pos + |EncodePacket(p)| + 1 <= REAL_CONTENT_LEN
    ensures RecordAt(c, pos + 1, c(pos)).writes == RecordAt(d, pos + 1, d(pos)).writes
    ensures RecordAt(c, pos + 1, c(pos)).next + 1 == RecordAt(d, pos + 1, d(pos)).next
  {
    PacketRoundTrip(c, pos, p);
    PacketRoundTrip(d, pos, p.(extended := true));
  }

  // ----- The wire format, byte by byte -----

  const MASK_BITS: seq<nat> := [1, 2, 4, 8]

  /** How many of the words `first` up to `last` a mask has present: those whose bit is clear. */
  function Present(mask: nat, first: nat, last: nat): (n: nat)
    requires last <= 4
    ensures n <= if first <= last then last - first else 0
    decreases last - first, mask
  {
    if first >= last then 0 else (if mask / MASK_BITS[first] % 2 == 0 then 1 else 0) + Present(mask, first + 1, last)
  }

  /** Word `u` of the record data at `a` is read: it is present, and it is the first word or starts
      inside the readable area. */
  predicate ReadAt(mask: nat, a: nat, from: nat, u: nat)
    requires from <= u < 4
  {
    var before := Present(mask, from, u);
    mask / MASK_BITS[u] % 2 == 0 && (before == 0 || a + 2 * before < 512)
  }

  /** Record data word by word, for any bytes: the present words follow each other low byte first, the
      last one is cut to its low byte at the end of the readable area, and the record ends after
      them or there. */
  lemma {:induction false} WordsByMask(c: Contents, a: nat, section: nat, mask: nat, from: nat, u: nat)
    requires mask < 16 && from <= 4 && u < 4
    ensures var r := WordsAt(c, a, section, mask, from);
      && (Touches(r.writes, section, u) <==> from <= u && ReadAt(mask, a, from, u))
      && (from <= u && ReadAt(mask, a, from, u) ==>
            var at := a + 2 * Present(mask, from, u);
            LastWrite(r.writes, section, u) == if at + 1 < 512 then c(at) + 256 * c(at + 1) else c(at))
      && (forall w <- r.writes :: w.section == section && w.unit < 4)
      && r.next == (var n := Present(mask, from, 4);
                    if n == 0 then a else if a >= 512 then a + 1 else if a + 2 * n < 512 then a + 2 * n else 512)
    decreases 4 - from
  {
    hide Present, Enabled, Touches, LastWrite, WordsAt;
    PresentStep(mask, from, u);
    PresentStep(mask, from, 4);
    WordsStep(c, a, section, mask, from);
    if from < 4 {
      BitOfMask(mask, from);
      var w, rest := WordRead(c, a, section, from), WordsAt(c, a + 2, section, mask, from + 1);
      SingleWrite(w.writes[0], section, u);
      if !Enabled(mask, from) {
        WordsByMask(c, a, section, mask, from + 1, u);
      } else if w.next < REAL_CONTENT_LEN {
        WordsByMask(c, a + 2, section, mask, from + 1, u);
        LastWriteConcat(w.writes, rest.writes, section, u);
        TouchesConcat(w.writes, rest.writes, section, u);
      }
    } else {
      SingleWrite(WordWrite(section, 0, 0), section, u);
    }
  }

  lemma PresentStep(mask: nat, first: nat, last: nat)
    requires last <= 4
    ensures Present(mask, first, last)
         == if first >= last then 0 else (if mask / MASK_BITS[first] % 2 == 0 then 1 else 0) + Present(mask, first + 1, last)
  {
  }

  lemma WordsStep(c: Contents, a: nat, section: nat, mask: nat, i: nat)
    requires i <= 4
    ensures WordsAt(c, a, section, mask, i)
         == if i == 4 then Chunk([], a) else if !Enabled(mask, i) then WordsAt(c, a, section, mask, i + 1)
            else if WordRead(c, a, section, i).next >= REAL_CONTENT_LEN then WordRead(c, a, section, i)
            else Chunk(WordRead(c, a, section, i).writes + WordsAt(c, a + 2, section, mask, i + 1).writes,
                       WordsAt(c, a + 2, section, mask, i + 1).next)
  {
  }

  lemma SingleWrite(w: WordWrite, s: nat, u: nat)
    ensures Touches([w], s, u) <==> w.section == s && w.unit == u
    ensures Touches([w], s, u) ==> LastWrite([w], s, u) == w.value
    ensures !Touches([], s, u)
  {
  }

  lemma BitOfMask(mask: nat, i: nat)
    requires i < 4
    ensures Enabled(mask, i) <==> mask / MASK_BITS[i] % 2 == 0
  {
  }

  lemma TouchesConcat(a: seq<WordWrite>, b: seq<WordWrite>, s: nat, u: nat)
    ensures Touches(a + b, s, u) <==> Touches(a, s, u) || Touches(b, s, u)
  {
    if Touches(a, s, u) {
      var w :| w in a && w.section == s && w.unit == u;
      assert w in a + b;
    }
    if Touches(b, s, u) {
      var w :| w in b && w.section == s && w.unit == u;
      assert w in a + b;
    }
  }

  /** Headers bit by bit, for any bytes: no header is taken at 511 or beyond or where 0xFF stands. A
      header whose low five bits are 15 is followed by a second byte with the upper section bits and
      the mask; any other holds section and mask itself. Data of a section below 64 is laid out as
      `WordsByMask` says; of another it is passed over, eight bytes for an even mask, none for an odd. */
  lemma HeaderByBits(c: Contents, pos: nat)
    ensures pos >= 511 || c(pos) == 0xFF ==> Log(c, pos) == [] && LogEnd(c, pos) == pos
    ensures pos < 511 && c(pos) != 0xFF ==>
              var long := c(pos) % 32 == 15;
              var section := if long then c(pos + 1) / 16 * 8 + c(pos) / 32 else c(pos) / 16;
              var mask, a := if long then c(pos + 1) % 16 else c(pos) % 16, if long then pos + 2 else pos + 1;
              var r := if section < 64 then WordsAt(c, a, section, mask, 0)
                       else Chunk([], if mask % 2 == 1 then a else if a == 512 then 513 else if a + 8 < 512 then a + 8 else 512);
              Log(c, pos) == r.writes + Log(c, r.next) && LogEnd(c, pos) == LogEnd(c, r.next)
  {
    hide WordsAt;
    if !AtEnd(c, pos) {
      LogUnfold(c, pos);
      if c(pos) % 32 == 15 && c(pos + 1) % 16 == 15 {
        NoWords(c, pos + 2, c(pos + 1) / 16 * 8 + c(pos) / 32);
      }
    }
  }

  lemma NoWords(c: Contents, a: nat, section: nat)
    ensures WordsAt(c, a, section, 15, 0) == Chunk([], a)
  {
    assert WordsAt(c, a, section, 15, 4) == Chunk([], a);
    assert WordsAt(c, a, section, 15, 3) == Chunk([], a);
    assert WordsAt(c, a, section, 15, 2) == Chunk([], a);
    assert WordsAt(c, a, section, 15, 1) == Chunk([], a);
  }

  // ----- Sections outside the map -----

  /** The skip of an out-of-map record ends where its data ends if and only if all four words
      are present or none is, or the mask is even and the record fills the area to its last byte. */
  lemma SkipIsExact(addr: nat, mask: nat, words: seq<word>)
    requires mask <= 15 && |words| == MAX_WORD_UNIT
    requires addr + |EncodeWords(mask, words, 0)| <= REAL_CONTENT_LEN
    ensures SkipAt(addr, mask) == addr + |EncodeWords(mask, words, 0)|
       <==> mask == 0 || mask == 15 || (mask % 2 == 0 && addr + |EncodeWords(mask, words, 0)| == REAL_CONTENT_LEN)
  {
    EncodedWordsLength(mask, words);
  }

  /** A log of a one-word record for section 64 followed by a one-word record for section 1. */
  const DESYNC: seq<byte> := [0x0F, 0x8E, 0x34, 0x12, 0x1E, 0xAA, 0xBB]

  /** There the decoder skips too far and loses the second record. */
  lemma SkipLosesARecord(c: Contents)
    requires Holds(c, 0, DESYNC) && forall k: nat | k >= |DESYNC| :: c(k) == 0xFF
    ensures DESYNC[..2] == [64 % 8 * 32 + 15, 64 / 8 * 16 + 14]
    ensures DESYNC[4..] == EncodePacket(Packet(1, 14, [0xBBAA, 0, 0, 0], false))
    ensures Log(c, 0) == []
  {
    var p := Packet(1, 14, [0xBBAA, 0, 0, 0], false);
    assert EncodeWords(14, p.words, 3) == [] && EncodeWords(14, p.words, 2) == [];
    assert EncodeWords(14, p.words, 1) == [] && EncodeWords(14, p.words, 0) == [0xAA, 0xBB];
    assert c(0 + 0) == DESYNC[0] && c(0 + 1) == DESYNC[1];
    assert RecordAt(c, 1, c(0)) == Chunk([], 10);
  }
}
