/** The EFUSE read loop over the device, with the addresses it reads recorded. */
module EfuseDecoder {
  import opened Bytes
  import opened Dimensions
  import opened EfuseLog

  /** The one-time-programmable memory behind its byte-read command. */
  class EfuseDevice {
    const contents: Contents
    ghost var trace: seq<nat>  // addresses read so far

    constructor (contents: Contents)
      ensures this.contents == contents && trace == []
    {
      this.contents := contents;
      trace := [];
    }

    method ReadEFuseByte(addr: nat) returns (b: byte)
      modifies this
      ensures b == contents(addr)
      ensures trace == old(trace) + [addr]
    {
      b := contents(addr);
      trace := trace + [addr];
    }
  }

  /** Strictly increasing addresses, all below `bound`. */
  ghost predicate Ascending(tr: seq<nat>, bound: nat) {
    && (forall i, j | 0 <= i < j < |tr| :: tr[i] < tr[j])
    && (forall i | 0 <= i < |tr| :: tr[i] < bound)
  }

  /** Every address read since `before` lies above all earlier ones and below `bound`. */
  ghost predicate ReadsAscend(before: seq<nat>, now: seq<nat>, bound: nat) {
    before <= now && Ascending(now[|before|..], bound)
  }

  lemma ReadNext(before: seq<nat>, now: seq<nat>, bound: nat, addr: nat)
    requires ReadsAscend(before, now, bound) && bound <= addr
    ensures ReadsAscend(before, now + [addr], addr + 1)
  {
    assert (now + [addr])[|before|..] == now[|before|..] + [addr];
  }

  /** The map words agree with the writes of `log`. */
  ghost predicate WordsMatch(words: array2<word>, log: seq<WordWrite>)
    requires words.Length0 == MAX_SECTION && words.Length1 == MAX_WORD_UNIT
    reads words
  {
    forall s, u | 0 <= s < MAX_SECTION && 0 <= u < MAX_WORD_UNIT :: words[s, u] == LastWrite(log, s, u)
  }

  lemma LastWriteSnoc(log: seq<WordWrite>, w: WordWrite, s: nat, u: nat)
    ensures LastWrite(log + [w], s, u)
         == if w.section == s && w.unit == u then w.value else LastWrite(log, s, u)
  {
    assert (log + [w])[..|log|] == log;
  }

  /** Once slot `w` holds its value and all others still match `log`, the words match `log + [w]`. */
  lemma StoreWord(words: array2<word>, log: seq<WordWrite>, w: WordWrite)
    requires words.Length0 == MAX_SECTION && words.Length1 == MAX_WORD_UNIT
    requires w.section < MAX_SECTION && w.unit < MAX_WORD_UNIT && words[w.section, w.unit] == w.value
    requires forall s, u | 0 <= s < MAX_SECTION && 0 <= u < MAX_WORD_UNIT && (s != w.section || u != w.unit) ::
               words[s, u] == LastWrite(log, s, u)
    ensures WordsMatch(words, log + [w])
  {
    forall s, u | 0 <= s < MAX_SECTION && 0 <= u < MAX_WORD_UNIT
      ensures words[s, u] == LastWrite(log + [w], s, u)
    {
      LastWriteSnoc(log, w, s, u);
    }
  }

  /** Reads one enabled word, low byte first; `stop` when the readable area is used up. */
  method ReadWord(dev: EfuseDevice, words: array2<word>, start: nat, section: nat, i: nat,
                  ghost log: seq<WordWrite>, ghost before: seq<nat>)
    returns (addr: nat, stop: bool)
    requires words.Length0 == MAX_SECTION && words.Length1 == MAX_WORD_UNIT
    requires section < MAX_SECTION && i < MAX_WORD_UNIT && start <= REAL_CONTENT_LEN
    requires WordsMatch(words, log) && ReadsAscend(before, dev.trace, start)
    modifies dev, words
    ensures var r := WordRead(dev.contents, start, section, i);
      addr == r.next && WordsMatch(words, log + r.writes)
    ensures stop <==> addr >= REAL_CONTENT_LEN
    ensures start < addr <= REAL_CONTENT_LEN + 1
    ensures ReadsAscend(before, dev.trace, addr)
  {
    addr := start;
    ReadNext(before, dev.trace, addr, addr);
    var low := dev.ReadEFuseByte(addr);
    addr := addr + 1;
    words[section, i] := low;
    if addr >= REAL_CONTENT_LEN {
      StoreWord(words, log, WordWrite(section, i, low));
      return addr, true;
    }
    ReadNext(before, dev.trace, addr, addr);
    var high: int := dev.ReadEFuseByte(addr);
    addr := addr + 1;
    words[section, i] := words[section, i] + 256 * high;
    StoreWord(words, log, WordWrite(section, i, low + 256 * high));
    stop := addr >= REAL_CONTENT_LEN;
  }

  /** The data words of a record for a section inside the map. */
  method ReadWords(dev: EfuseDevice, words: array2<word>, start: nat, section: nat, mask: byte,
                   ghost log: seq<WordWrite>, ghost before: seq<nat>)
    returns (addr: nat)
    requires words.Length0 == MAX_SECTION && words.Length1 == MAX_WORD_UNIT
    requires section < MAX_SECTION && start <= REAL_CONTENT_LEN
    requires WordsMatch(words, log) && ReadsAscend(before, dev.trace, start)
    modifies dev, words
    ensures var r := WordsAt(dev.contents, start, section, mask, 0);
      addr == r.next && WordsMatch(words, log + r.writes)
    ensures start <= addr <= REAL_CONTENT_LEN + 1
    ensures ReadsAscend(before, dev.trace, addr)
  {
    hide ReadsAscend, WordsMatch, WordRead;
    var wren := mask;
    addr := start;
    ghost var done := [];
    ghost var goal := WordsAt(dev.contents, start, section, mask, 0);
    var i := 0;
    assert log + done == log;
    while i < MAX_WORD_UNIT
      invariant i <= MAX_WORD_UNIT && start <= addr <= REAL_CONTENT_LEN
      invariant i < MAX_WORD_UNIT ==> wren == Shifted(mask, i)
      invariant goal == Chunk(done + WordsAt(dev.contents, addr, section, mask, i).writes,
                              WordsAt(dev.contents, addr, section, mask, i).next)
      invariant WordsMatch(words, log + done)
      invariant ReadsAscend(before, dev.trace, addr)
    {
      if wren % 2 != 1 {
        ghost var read := WordRead(dev.contents, addr, section, i);
        var stop;
        addr, stop := ReadWord(dev, words, addr, section, i, log + done, before);
        assert log + done + read.writes == log + (done + read.writes);
        done := done + read.writes;
        if stop {
          assert goal.writes == done;
          break;
        }
      }
      wren := wren / 2;
      i := i + 1;
    }
    if i == MAX_WORD_UNIT {
      assert goal.writes == done;
    }
  }

  /** The record of a section outside the map: its data is stepped over, unread. */
  method SkipWords(start: nat, mask: byte) returns (addr: nat)
    requires start <= REAL_CONTENT_LEN
    ensures addr == SkipAt(start, mask)
  {
    addr := start;
    var i := 0;
    while i < MAX_WORD_UNIT
      invariant i <= MAX_WORD_UNIT
      invariant mask % 2 == 1 ==> addr == start
      invariant mask % 2 == 0 ==> addr == start + 2 * i
      invariant i == 0 || mask % 2 == 1 || addr < REAL_CONTENT_LEN
    {
      if mask % 2 != 1 {
        addr := addr + 1;
        if addr >= REAL_CONTENT_LEN {
          break;
        }
        addr := addr + 1;
        if addr >= REAL_CONTENT_LEN {
          break;
        }
      }
      i := i + 1;
    }
  }

  /** One turn of the main loop: `hdr` was read just below `start`. The record it opens is consumed
      and the byte after that record is fetched as the next header. */
  method ReadRecord(dev: EfuseDevice, words: array2<word>, start: nat, hdr: byte,
                    ghost log: seq<WordWrite>, ghost before: seq<nat>)
    returns (next: byte, addr: nat)
    requires words.Length0 == MAX_SECTION && words.Length1 == MAX_WORD_UNIT
    requires hdr != 0xFF && start < REAL_CONTENT_LEN
    requires WordsMatch(words, log) && ReadsAscend(before, dev.trace, start)
    modifies dev, words
    ensures var r := RecordAt(dev.contents, start, hdr);
      && next == dev.contents(r.next)
      && addr == (if next != 0xFF && r.next < REAL_CONTENT_LEN then r.next + 1 else r.next)
      && WordsMatch(words, log + r.writes)
      && ReadsAscend(before, dev.trace, r.next + 1)
      && start <= r.next <= REAL_CONTENT_LEN + 1
  {
    addr := start;
    var section, wren;
    if hdr % 32 == 15 {
      // extended header: the low three section bits, then a second byte
      var low := hdr / 32;
      ReadNext(before, dev.trace, addr, addr);
      var second := dev.ReadEFuseByte(addr);
      addr := addr + 1;
      if second % 16 == 15 {
        ReadNext(before, dev.trace, addr, addr);
        next := dev.ReadEFuseByte(addr);
        if next != 0xFF && addr < REAL_CONTENT_LEN {
          addr := addr + 1;
        }
        assert log + [] == log;
        return;
      }
      section, wren := second / 16 * 8 + low, second % 16;
    } else {
      section, wren := hdr / 16, hdr % 16;
    }
    assert RecordAt(dev.contents, start, hdr) == SectionAt(dev.contents, addr, section, wren);
    if section < MAX_SECTION {
      addr := ReadWords(dev, words, addr, section, wren, log, before);
    } else {
      addr := SkipWords(addr, wren);
      assert log + [] == log;
    }
    ReadNext(before, dev.trace, addr, addr);
    next := dev.ReadEFuseByte(addr);
    if next != 0xFF && addr < REAL_CONTENT_LEN {
      addr := addr + 1;
    }
  }

  /** Lays the words out as the 512-byte map, little endian. */
  method Collect(words: array2<word>, ghost log: seq<WordWrite>) returns (tbl: array<byte>)
    requires words.Length0 == MAX_SECTION && words.Length1 == MAX_WORD_UNIT
    requires WordsMatch(words, log)
    ensures fresh(tbl) && tbl.Length == MAP_LEN
    ensures forall k | 0 <= k < MAP_LEN :: tbl[k] == MapByte(log, k)
  {
    tbl := new byte[MAP_LEN](k => 0);
    var i := 0;
    while i < MAX_SECTION
      invariant i <= MAX_SECTION
      invariant forall k | 0 <= k < 8 * i :: tbl[k] == MapByte(log, k)
    {
      var j := 0;
      while j < MAX_WORD_UNIT
        invariant j <= MAX_WORD_UNIT
        invariant forall k | 0 <= k < 8 * i + 2 * j :: tbl[k] == MapByte(log, k)
      {
        tbl[i * 8 + j * 2] := words[i, j] % 256;
        tbl[i * 8 + (j * 2 + 1)] := words[i, j] / 256 % 256;
        SlotOfByte(i, j);
        j := j + 1;
      }
      i := i + 1;
    }
  }

  lemma BlankWords(words: array2<word>)
    requires words.Length0 == MAX_SECTION && words.Length1 == MAX_WORD_UNIT
    requires forall s, u | 0 <= s < MAX_SECTION && 0 <= u < MAX_WORD_UNIT :: words[s, u] == BLANK
    ensures WordsMatch(words, [])
  {
  }

  /** Copies the window `offset .. offset + size` of the decoded map into `pbuf`. A window that
      does not fit the map, or an empty EFUSE, leaves `pbuf` as it was. */
  method ReadEFuse(dev: EfuseDevice, offset: nat, size: nat, pbuf: array<byte>)
    requires size <= pbuf.Length
    modifies dev, pbuf
    ensures var c := dev.contents;
      if offset + size > MAP_LEN then pbuf[..] == old(pbuf[..]) && dev.trace == old(dev.trace)
      else if c(0) == 0xFF then pbuf[..] == old(pbuf[..]) && dev.trace == old(dev.trace) + [0]
      else
        && (forall k | 0 <= k < size :: pbuf[k] == MapByte(Log(c, 0), offset + k))
        && pbuf[size..] == old(pbuf[size..])
    ensures ReadsAscend(old(dev.trace), dev.trace, REAL_CONTENT_LEN + 2)
  {
    hide RecordAt, WordsMatch, MapByte, LastWrite;
    if offset + size > MAP_LEN {
      return;
    }
    var c := dev.contents;
    ghost var before := dev.trace;
    var words := new word[MAX_SECTION, MAX_WORD_UNIT]((i, j) => BLANK);
    var addr := 0;
    BlankWords(words);
    ReadNext(before, dev.trace, 0, 0);
    var hdr := dev.ReadEFuseByte(addr);
    if hdr == 0xFF {
      return;
    }
    addr := addr + 1;

    ghost var pos: nat := 0;                      // address of the header byte held in `hdr`
    ghost var done: seq<WordWrite> := [];    // writes of the records before it
    assert done + Log(c, 0) == Log(c, 0);
    while hdr != 0xFF && addr < REAL_CONTENT_LEN
      invariant hdr == c(pos) && addr == if hdr != 0xFF && pos < REAL_CONTENT_LEN then pos + 1 else pos
      invariant pos <= REAL_CONTENT_LEN + 1
      invariant done + Log(c, pos) == Log(c, 0)
      invariant WordsMatch(words, done)
      invariant ReadsAscend(before, dev.trace, pos + 1)
      modifies dev, words
      decreases if hdr == 0xFF then 0 else REAL_CONTENT_LEN + 1 - addr
    {
      ghost var record := RecordAt(c, pos + 1, hdr);
      LogUnfold(c, pos);
      RecordAdvances(c, pos + 1, hdr);
      hdr, addr := ReadRecord(dev, words, addr, hdr, done, before);
      pos := record.next;
      assert done + (record.writes + Log(c, pos)) == done + record.writes + Log(c, pos);
      done := done + record.writes;
    }
    assert AtEnd(c, pos) && done + [] == done;

    var tbl := Collect(words, done);
    var i := 0;
    while i < size
      invariant i <= size
      invariant forall k | 0 <= k < i :: pbuf[k] == tbl[offset + k]
      invariant pbuf[i..] == old(pbuf[i..])
      modifies pbuf
    {
      pbuf[i] := tbl[offset + i];
      i := i + 1;
    }
  }
}
