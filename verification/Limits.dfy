/** The regulatory limit table: what a flat list of seven-string rows says about each cell. */
module Limits {
  import opened Bytes
  import opened Channels
  import opened Decimal
  import opened Dimensions

  const ROW_STRINGS := 7
  const NUM_REGULATIONS := 4
  const NUM_2G_BW := 2
  const NUM_5G_BW := 4
  const NUM_LIMIT_SECTION := 4
  const NO_LIMIT: int8 := 63

  function RegulationOf(s: string): Option<nat> {
    if s == "FCC" then Some(0) else if s == "ETSI" then Some(1)
    else if s == "MKK" then Some(2) else if s == "WW" then Some(3) else None
  }

  function BandOf(s: string): Option<nat> {
    if s == "2.4G" then Some(0) else if s == "5G" then Some(1) else None
  }

  function BandwidthOf(s: string): Option<nat> {
    if s == "20M" then Some(0) else if s == "40M" then Some(1)
    else if s == "80M" then Some(2) else if s == "160M" then Some(3) else None
  }

  function RateSectionOf(s: string): Option<nat> {
    if s == "CCK" then Some(0) else if s == "OFDM" then Some(1)
    else if s == "HT" then Some(2) else if s == "VHT" then Some(3) else None
  }

  function TxCountOf(s: string): Option<nat> {
    if s == "1T" then Some(0) else if s == "2T" then Some(1)
    else if s == "3T" then Some(2) else if s == "4T" then Some(3) else None
  }

  const REGULATION_NAMES: seq<string> := ["FCC", "ETSI", "MKK", "WW"]
  const BAND_NAMES: seq<string> := ["2.4G", "5G"]
  const BANDWIDTH_NAMES: seq<string> := ["20M", "40M", "80M", "160M"]
  const SECTION_NAMES: seq<string> := ["CCK", "OFDM", "HT", "VHT"]
  const TX_COUNT_NAMES: seq<string> := ["1T", "2T", "3T", "4T"]

  /** Each column reads exactly its own names, in index order, and nothing else. */
  lemma NamesRoundTrip(s: string, i: nat)
    ensures RegulationOf(s) == Some(i) <==> i < 4 && s == REGULATION_NAMES[i]
    ensures BandOf(s) == Some(i) <==> i < 2 && s == BAND_NAMES[i]
    ensures BandwidthOf(s) == Some(i) <==> i < 4 && s == BANDWIDTH_NAMES[i]
    ensures RateSectionOf(s) == Some(i) <==> i < 4 && s == SECTION_NAMES[i]
    ensures TxCountOf(s) == Some(i) <==> i < 4 && s == TX_COUNT_NAMES[i]
  {
    assert i < 4 ==> i == 0 || i == 1 || i == 2 || i == 3;
    DistinctNames();
  }

  lemma DistinctNames()
    ensures "FCC" != "ETSI" && "FCC" != "MKK" && "FCC" != "WW" && "ETSI" != "MKK" && "ETSI" != "WW" && "MKK" != "WW"
    ensures "2.4G" != "5G"
    ensures "20M" != "40M" && "20M" != "80M" && "20M" != "160M" && "40M" != "80M" && "40M" != "160M" && "80M" != "160M"
    ensures "CCK" != "OFDM" && "CCK" != "HT" && "CCK" != "VHT" && "OFDM" != "HT" && "OFDM" != "VHT" && "HT" != "VHT"
    ensures "1T" != "2T" && "1T" != "3T" && "1T" != "4T" && "2T" != "3T" && "2T" != "4T" && "3T" != "4T"
  {
    assert "FCC"[0] != "ETSI"[0] && "FCC"[0] != "MKK"[0] && "FCC"[0] != "WW"[0];
    assert "ETSI"[0] != "MKK"[0] && "ETSI"[0] != "WW"[0] && "MKK"[0] != "WW"[0];
    assert "2.4G"[0] != "5G"[0];
    assert "20M"[0] != "40M"[0] && "20M"[0] != "80M"[0] && "20M"[0] != "160M"[0];
    assert "40M"[0] != "80M"[0] && "40M"[0] != "160M"[0] && "80M"[0] != "160M"[0];
    assert "CCK"[0] != "OFDM"[0] && "CCK"[0] != "HT"[0] && "CCK"[0] != "VHT"[0];
    assert "OFDM"[0] != "HT"[0] && "OFDM"[0] != "VHT"[0] && "HT"[0] != "VHT"[0];
    assert "1T"[0] != "2T"[0] && "1T"[0] != "3T"[0] && "1T"[0] != "4T"[0];
    assert "2T"[0] != "3T"[0] && "2T"[0] != "4T"[0] && "3T"[0] != "4T"[0];
  }

  /** First position of a channel in a table. */
  function FirstIndex(s: seq<byte>, ch: byte): (i: Option<nat>)
    ensures i.Some? ==> i.value < |s| && s[i.value] == ch && ch !in s[..i.value]
    ensures i.None? ==> ch !in s
  {
    if s == [] then None
    else if s[0] == ch then Some(0)
    else
      match FirstIndex(s[1..], ch)
      case Some(i) => assert s[..i + 1] == [s[0]] + s[1..][..i]; Some(i + 1)
      case None => None
  }

  /** Index of a channel within its band's cells: 14 at 2.4 GHz, the 65-entry table at 5 GHz. */
  function ChannelIndex(band: nat, ch: byte): (i: Option<nat>)
    ensures i.Some? ==> i.value < if band == 0 then CENTER_CH_2G_NUM else |CENTER_CH_5G|
  {
    if band == 0 then
      if 1 <= ch <= CENTER_CH_2G_NUM then Some(ch - 1) else None
    else FirstIndex(CENTER_CH_5G, ch)
  }

  function NumBandwidths(band: nat): nat {
    if band == 0 then NUM_2G_BW else NUM_5G_BW
  }

  /** One cell of the two limit arrays. */
  datatype Cell = Cell(regulation: nat, band: nat, bw: nat, section: nat, ntx: nat, channel: nat)

  predicate ValidCell(c: Cell) {
    && c.regulation < NUM_REGULATIONS && c.band < 2 && c.bw < NumBandwidths(c.band)
    && c.section < NUM_LIMIT_SECTION && c.ntx < MAX_TX_COUNT
    && c.channel < if c.band == 0 then CENTER_CH_2G_NUM else CENTER_CH_5G_ALL_NUM
  }

  /** A row that reads as a cell and a value; a row with any unknown name, a bandwidth its band
      does not have, or a channel without an index, says nothing. */
  datatype RowSaying = RowSaying(cell: Cell, value: int8)

  function NumRows(strings: seq<string>): nat {
    |strings| / ROW_STRINGS
  }

  function RowSays(strings: seq<string>, r: nat): Option<RowSaying>
    requires r < NumRows(strings)
  {
    var row := strings[r * ROW_STRINGS..];
    var regulation, band, bw := RegulationOf(row[0]), BandOf(row[1]), BandwidthOf(row[2]);
    var section, ntx := RateSectionOf(row[3]), TxCountOf(row[4]);
    if regulation.None? || band.None? || bw.None? || section.None? || ntx.None? then None
    else if bw.value >= NumBandwidths(band.value) then None
    else
      match ChannelIndex(band.value, Parsed(row[5]))
      case None => None
      case Some(i) =>
        Some(RowSaying(Cell(regulation.value, band.value, bw.value, section.value, ntx.value, i),
                       ToInt8(Parsed(row[6]))))
  }

  /** Row `r` names these seven things: five by their words, the channel and the value as numbers. */
  predicate RowNames(strings: seq<string>, r: nat, c: Cell, ch: byte, v: byte)
    requires r < NumRows(strings) && ValidCell(c)
  {
    && strings[7 * r] == REGULATION_NAMES[c.regulation] && strings[7 * r + 1] == BAND_NAMES[c.band]
    && strings[7 * r + 2] == BANDWIDTH_NAMES[c.bw] && strings[7 * r + 3] == SECTION_NAMES[c.section]
    && strings[7 * r + 4] == TX_COUNT_NAMES[c.ntx] && Parsed(strings[7 * r + 5]) == ch && Parsed(strings[7 * r + 6]) == v
  }

  /** A row says something about a cell if and only if it names it: the words of each column in
      index order, and channel `i + 1` at 2.4 GHz or entry `i` of the channel table at 5 GHz. */
  lemma RowSaysByNames(strings: seq<string>, r: nat, c: Cell, v: byte)
    requires r < NumRows(strings) && ValidCell(c)
    ensures RowSays(strings, r) == Some(RowSaying(c, ToInt8(v)))
       <==> RowNames(strings, r, c, if c.band == 0 then c.channel + 1 else ChannelAt5G(c.channel), v)
  {
    hide RegulationOf, BandOf, BandwidthOf, RateSectionOf, TxCountOf, Parsed, FirstIndex, CENTER_CH_5G;
    TableLength();
    NamesRoundTrip(strings[7 * r], c.regulation);
    NamesRoundTrip(strings[7 * r + 1], c.band);
    NamesRoundTrip(strings[7 * r + 2], c.bw);
    NamesRoundTrip(strings[7 * r + 3], c.section);
    NamesRoundTrip(strings[7 * r + 4], c.ntx);
    SignedInjective(Parsed(strings[7 * r + 6]), v);
    if c.band == 1 {
      IndexOfEntry(c.channel);
    }
  }

  lemma IndexOfEntry(i: nat)
    requires i < CENTER_CH_5G_ALL_NUM
    ensures ChannelIndex(1, ChannelAt5G(i)) == Some(i)
  {
    hide FirstIndex, CENTER_CH_5G;
    TableLength();
    var k := FirstIndex(CENTER_CH_5G, ChannelAt5G(i));
    assert CENTER_CH_5G[i] in CENTER_CH_5G;
    if k.value < i {
      TableAscends(k.value, i);
    }
  }

  lemma RowValue(strings: seq<string>, r: nat)
    requires r < NumRows(strings)
    ensures RowSays(strings, r).Some? ==> RowSays(strings, r).value.value == ToInt8(Parsed(strings[7 * r + 6]))
  {
    hide FirstIndex, CENTER_CH_5G, Parsed;
  }

  function ChannelAt5G(i: nat): byte
    requires i < CENTER_CH_5G_ALL_NUM
  {
    TableLength();
    CENTER_CH_5G[i]
  }

  lemma SignedInjective(a: byte, b: byte)
    ensures ToInt8(a) == ToInt8(b) <==> a == b
  {
  }

  lemma TableLength()
    ensures |CENTER_CH_5G| == CENTER_CH_5G_ALL_NUM
  {
    TableIs5G(0);
  }

  lemma RowsNameValidCells(strings: seq<string>, r: nat)
    requires r < NumRows(strings)
    ensures RowSays(strings, r).Some? ==> ValidCell(RowSays(strings, r).value.cell)
  {
    hide FirstIndex;
    TableLength();
  }

  /** The limit of a cell by plain scan: the last of the first `n` rows that names it, else 63. */
  function LimitAt(strings: seq<string>, n: nat, c: Cell): int8
    requires n <= NumRows(strings)
  {
    if n == 0 then NO_LIMIT
    else
      var said := RowSays(strings, n - 1);
      if said.Some? && said.value.cell == c then said.value.value else LimitAt(strings, n - 1, c)
  }

  /** From row `m` on only rows that name the cell matter; malformed rows never do. */
  lemma {:induction false} LimitIsLastRow(strings: seq<string>, m: nat, n: nat, c: Cell)
    requires m <= n <= NumRows(strings)
    requires forall q: nat | m <= q < n ::
               RowSays(strings, q).None? || RowSays(strings, q).value.cell != c
    ensures LimitAt(strings, n, c) == LimitAt(strings, m, c)
    ensures m > 0 && RowSays(strings, m - 1).Some? && RowSays(strings, m - 1).value.cell == c ==>
              LimitAt(strings, n, c) == RowSays(strings, m - 1).value.value
    ensures m == 0 ==> LimitAt(strings, n, c) == NO_LIMIT
    decreases n
  {
    hide RowSays;
    if m < n {
      LimitIsLastRow(strings, m, n - 1, c);
    }
  }

  // ----- Choice of the active regulation -----

  function ToLower(c: char): char {
    if 'A' <= c <= 'Z' then ((c as int) + 32) as char else c
  }

  predicate EqualIgnoringCase(a: string, b: string) {
    |a| == |b| && forall i | 0 <= i < |a| :: ToLower(a[i]) == ToLower(b[i])
  }

  /** The case-insensitive compare; the strings end where a NUL would stand. */
  method StrCaseEq(a: string, b: string) returns (eq: bool)
    ensures eq <==> EqualIgnoringCase(a, b)
  {
    var i := 0;
    while i < |a| && i < |b|
      invariant i <= |a| && i <= |b|
      invariant forall j | 0 <= j < i :: ToLower(a[j]) == ToLower(b[j])
    {
      if ToLower(a[i]) != ToLower(b[i]) {
        return false;
      }
      i := i + 1;
    }
    eq := i == |a| && i == |b|;
  }

  /** The regulation an override selects: anything but the three known names means FCC. */
  function OverrideOf(name: string): (regulation: nat)
    ensures regulation < NUM_REGULATIONS
  {
    if EqualIgnoringCase(name, "ETSI") then 1
    else if EqualIgnoringCase(name, "MKK") then 2
    else if EqualIgnoringCase(name, "WW") then 3
    else 0
  }

  /** An override equal up to case to a name the table uses selects that name's regulation, and
      any other override selects FCC. */
  lemma OverrideByName(name: string, known: string)
    ensures RegulationOf(known).Some? && EqualIgnoringCase(name, known) ==> OverrideOf(name) == RegulationOf(known).value
    ensures OverrideOf(name) != 0 ==>
              exists k :: RegulationOf(k) == Some(OverrideOf(name)) && EqualIgnoringCase(name, k)
  {
    DistinctNames();
    var first := (s: string) => if s == [] then ' ' else ToLower(s[0]);
    assert first("FCC") == 'f' && first("ETSI") == 'e' && first("MKK") == 'm' && first("WW") == 'w';
    assert RegulationOf("ETSI") == Some(1) && RegulationOf("MKK") == Some(2) && RegulationOf("WW") == Some(3);
  }

  /** Equality up to case: position by position the characters are equal, or one is a letter A to Z
      and the other the same letter 32 codes on. */
  lemma EqualUpToCase(a: string, b: string)
    ensures EqualIgnoringCase(a, b)
       <==> |a| == |b| && forall i | 0 <= i < |a| ::
              var (x, y) := (a[i] as int, b[i] as int);
              x == y || (65 <= x <= 90 && y == x + 32) || (65 <= y <= 90 && x == y + 32)
  {
  }
}
