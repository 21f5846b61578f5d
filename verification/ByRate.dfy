/** The per-rate power table: what a register table says about each cell, before and after
    normalisation against the section bases. */
module ByRate {
  import opened Bytes
  import opened Dimensions
  import opened Rates

  const ROW_WORDS := 6

  /** Which four rates a register carries, lowest byte first. */
  datatype RateRow = RateRow(reg: nat, rates: seq<byte>)

  const RATE_MAP_A: seq<RateRow> := [
    RateRow(0xc20, [0x02, 0x04, 0x0B, 0x16]),
    RateRow(0xc24, [0x0C, 0x12, 0x18, 0x24]),
    RateRow(0xc28, [0x30, 0x48, 0x60, 0x6C]),
    RateRow(0xc2c, [0x80, 0x81, 0x82, 0x83]),
    RateRow(0xc30, [0x84, 0x85, 0x86, 0x87]),
    RateRow(0xc34, [0x88, 0x89, 0x8A, 0x8B]),
    RateRow(0xc38, [0x8C, 0x8D, 0x8E, 0x8F]),
    RateRow(0xc3c, [0xA0, 0xA1, 0xA2, 0xA3]),
    RateRow(0xc40, [0xA4, 0xA5, 0xA6, 0xA7]),
    RateRow(0xc44, [0xA8, 0xA9, 0xAA, 0xAB]),
    RateRow(0xc48, [0xAC, 0xAD, 0xAE, 0xAF]),
    RateRow(0xc4c, [0xB0, 0xB1, 0xB2, 0xB3])]

  const RATE_MAP_B: seq<RateRow> := [
    RateRow(0xe20, [0x02, 0x04, 0x0B, 0x16]),
    RateRow(0xe24, [0x0C, 0x12, 0x18, 0x24]),
    RateRow(0xe28, [0x30, 0x48, 0x60, 0x6C]),
    RateRow(0xe2c, [0x80, 0x81, 0x82, 0x83]),
    RateRow(0xe30, [0x84, 0x85, 0x86, 0x87]),
    RateRow(0xe34, [0x88, 0x89, 0x8A, 0x8B]),
    RateRow(0xe38, [0x8C, 0x8D, 0x8E, 0x8F]),
    RateRow(0xe3c, [0xA0, 0xA1, 0xA2, 0xA3]),
    RateRow(0xe40, [0xA4, 0xA5, 0xA6, 0xA7]),
    RateRow(0xe44, [0xA8, 0xA9, 0xAA, 0xAB]),
    RateRow(0xe48, [0xAC, 0xAD, 0xAE, 0xAF]),
    RateRow(0xe4c, [0xB0, 0xB1, 0xB2, 0xB3])]

  const RATE_MAP: seq<RateRow> := RATE_MAP_A + RATE_MAP_B

  /** Position of a register in its bank of twelve, -1 for a register that carries no rates. */
  function BankSlot(reg: nat): (k: int)
    ensures -1 <= k < 12
  {
    if 0xc20 <= reg <= 0xc4c && reg % 4 == 0 then (reg - 0xc20) / 4
    else if 0xe20 <= reg <= 0xe4c && reg % 4 == 0 then (reg - 0xe20) / 4
    else -1
  }

  /** The flat index of the first of the four consecutive rates in a bank slot. */
  function FirstIdx(k: nat): (idx: nat)
    requires k < 12
    ensures idx + 3 < NUM_RATE_IDX
  {
    if k < 7 then 4 * k else 44 + 4 * (k - 7)
  }

  /** The table rows carry consecutive indices, and only registers of the two banks occur. */
  lemma RateMapRow(i: nat)
    requires i < 24
    ensures |RATE_MAP| == 24
    ensures BankSlot(RATE_MAP[i].reg) == i % 12
    ensures RATE_MAP[i].reg == if i < 12 then 0xc20 + 4 * i else 0xe20 + 4 * (i - 12)
    ensures |RATE_MAP[i].rates| == 4
    ensures forall j | 0 <= j < 4 :: RateToIdx(RATE_MAP[i].rates[j]) == FirstIdx(i % 12) + j
  {
    if i < 12 {
      assert RATE_MAP[i] == RATE_MAP_A[i];
      BankRow(RATE_MAP_A, 0xc20, i);
    } else {
      assert RATE_MAP[i] == RATE_MAP_B[i - 12];
      BankRow(RATE_MAP_B, 0xe20, i - 12);
    }
  }

  lemma BankRow(bank: seq<RateRow>, first: nat, i: nat)
    requires (bank == RATE_MAP_A && first == 0xc20) || (bank == RATE_MAP_B && first == 0xe20)
    requires i < 12
    ensures |bank| == 12 && bank[i].reg == first + 4 * i && |bank[i].rates| == 4
    ensures forall j | 0 <= j < 4 :: RateToIdx(bank[i].rates[j]) == FirstIdx(i) + j
  {
    assert i == 0 || i == 1 || i == 2 || i == 3 || i == 4 || i == 5
      || i == 6 || i == 7 || i == 8 || i == 9 || i == 10 || i == 11;
  }

  // ----- What a flat table of six-word rows says -----

  function NumRows(rows: seq<dword>): nat {
    |rows| / ROW_WORDS
  }

  /** Byte `j` of a register value. */
  function ByteOf(data: dword, j: nat): byte {
    if j == 0 then data % 256
    else if j == 1 then data / 0x100 % 256
    else if j == 2 then data / 0x1_0000 % 256
    else data / 0x100_0000 % 256
  }

  function Assembled(b0: int, b1: int, b2: int, b3: int): int {
    b0 + 0x100 * b1 + 0x1_0000 * b2 + 0x100_0000 * b3
  }

  /** The four bytes make up the register value, lowest first. */
  lemma BytesMakeValue(data: dword)
    ensures Assembled(ByteOf(data, 0), ByteOf(data, 1), ByteOf(data, 2), ByteOf(data, 3)) == data
  {
    Halves(data / 0x1_0000);
    Halves(data % 0x1_0000);
    LowHalf(data);
  }

  lemma Halves(d: nat)
    ensures d == d / 0x100 * 0x100 + d % 0x100
  {
  }

  /** The low two bytes are those of the low half, the top byte is that of the high half. */
  lemma LowHalf(data: dword)
    ensures data % 0x1_0000 / 0x100 == data / 0x100 % 256 && data % 0x1_0000 % 0x100 == data % 256
    ensures data / 0x100_0000 % 256 == data / 0x1_0000 / 0x100
  {
    var low, high := data % 0x1_0000, data / 0x1_0000;
    assert data / 0x100 == high * 0x100 + low / 0x100;
    assert data / 0x100_0000 == high / 0x100;
  }

  function DataOf(rows: seq<dword>, r: nat): dword
    requires r < NumRows(rows)
  {
    rows[r * ROW_WORDS + 5]
  }

  /** The value row `r` gives to a cell, if it addresses it: the row names band and path, and its
      register's low 16 bits decide which four indices its bytes are for. */
  function RowSays(rows: seq<dword>, r: nat, band: nat, path: nat, idx: nat): Option<byte>
    requires r < NumRows(rows)
  {
    var at := r * ROW_WORDS;
    var k := BankSlot(rows[at + 3] % 0x1_0000);
    if rows[at] == band && rows[at + 1] == path && k >= 0 && FirstIdx(k) <= idx < FirstIdx(k) + 4 then
      Some(ByteOf(DataOf(rows, r), idx - FirstIdx(k)))
    else None
  }

  /** A row addresses cells of the table only if its band and path are in range and its register
      carries rates. It then loses nothing: four cells hold its whole register value. */
  lemma RowKeepsRegister(rows: seq<dword>, r: nat)
    requires r < NumRows(rows)
    ensures var at := r * ROW_WORDS;
      var k := BankSlot(rows[at + 3] % 0x1_0000);
      if rows[at] < 2 && rows[at + 1] < MAX_RF_PATH && k >= 0 then
        var (b0, b1) := (RowByte(rows, r, k, 0), RowByte(rows, r, k, 1));
        var (b2, b3) := (RowByte(rows, r, k, 2), RowByte(rows, r, k, 3));
        && b0.Some? && b1.Some? && b2.Some? && b3.Some?
        && Assembled(b0.value, b1.value, b2.value, b3.value) == DataOf(rows, r)
      else
        forall band: nat, path: nat, idx: nat | band < 2 && path < MAX_RF_PATH :: RowSays(rows, r, band, path, idx).None?
  {
    hide ByteOf, BankSlot;
    BytesMakeValue(DataOf(rows, r));
  }

  /** What row `r` gives to the `j`-th of the cells it addresses in bank slot `k`. */
  function RowByte(rows: seq<dword>, r: nat, k: nat, j: nat): Option<byte>
    requires r < NumRows(rows) && k < 12
  {
    RowSays(rows, r, rows[r * ROW_WORDS], rows[r * ROW_WORDS + 1], FirstIdx(k) + j)
  }

  /** The raw value of a cell after the first `n` rows: the last row that addresses it decides. */
  function Raw(rows: seq<dword>, n: nat, band: nat, path: nat, idx: nat): int8
    requires n <= NumRows(rows)
  {
    if n == 0 then 0
    else
      match RowSays(rows, n - 1, band, path, idx)
      case Some(v) => ToInt8(v)
      case None => Raw(rows, n - 1, band, path, idx)
  }

  function RawCell(rows: seq<dword>, band: nat, path: nat, idx: nat): int8 {
    Raw(rows, NumRows(rows), band, path, idx)
  }

  /** Base of a section: the raw value of its base rate as an unsigned byte. Paths beyond the
      active ones keep base 0 and raw offsets. */
  function SectionBase(rows: seq<dword>, active: nat, band: nat, path: nat, rs: nat): byte
    requires rs < NUM_RATE_SECTION
  {
    if path < active then ToByte(RawCell(rows, band, path, BaseIdx(rs))) else 0
  }

  function Offset(rows: seq<dword>, active: nat, band: nat, path: nat, idx: nat): int8
    requires idx < NUM_RATE_IDX
  {
    ToInt8(RawCell(rows, band, path, idx) - SectionBase(rows, active, band, path, SectionOfIdx(idx)))
  }

  // ----- Laws -----

  /** The raw table is a last-writer-wins reading of the rows: from any row on, only rows that
      address the cell matter. */
  lemma {:induction false} RawIsLastRow(rows: seq<dword>, m: nat, n: nat, band: nat, path: nat, idx: nat)
    requires m <= n <= NumRows(rows)
    requires forall q: nat | m <= q < n :: RowSays(rows, q, band, path, idx).None?
    ensures Raw(rows, n, band, path, idx) == Raw(rows, m, band, path, idx)
    ensures m > 0 && RowSays(rows, m - 1, band, path, idx).Some? ==>
              Raw(rows, n, band, path, idx) == ToInt8(RowSays(rows, m - 1, band, path, idx).value)
    ensures m == 0 ==> Raw(rows, n, band, path, idx) == 0
    decreases n
  {
    hide RowSays, ToInt8;
    if m < n {
      RawIsLastRow(rows, m, n - 1, band, path, idx);
    }
  }

  /** Normalising can be undone: offset plus section base is the raw value modulo 256, and it is
      exactly the raw value if and only if their difference fits a signed byte. */
  lemma NormalisationInvertible(rows: seq<dword>, active: nat, band: nat, path: nat, idx: nat)
    requires idx < NUM_RATE_IDX
    ensures var raw, base := RawCell(rows, band, path, idx), SectionBase(rows, active, band, path, SectionOfIdx(idx));
      && (Offset(rows, active, band, path, idx) + base - raw) % 256 == 0
      && (Offset(rows, active, band, path, idx) + base == raw <==> raw - base >= -128)
  {
  }

  /** Position of the rate a cell is normalised against: 11M, 54M, and the eighth rate of each HT
      group of eight and of each VHT group of ten. */
  function BaseOf(idx: nat): nat {
    if idx < 4 then 3 else if idx < 12 then 11
    else if idx < 44 then 12 + (idx - 12) / 8 * 8 + 7
    else 44 + (idx - 44) / 10 * 10 + 7
  }

  /** Every offset by the layout of the table: modulo 256, the raw value of the cell less the raw
      value of its group's base rate, or the raw value alone on a path that is not active. */
  lemma OffsetByLayout(rows: seq<dword>, active: nat, band: nat, path: nat, idx: nat)
    requires idx < NUM_RATE_IDX
    ensures (Offset(rows, active, band, path, idx)
             - (RawCell(rows, band, path, idx) - if path < active then RawCell(rows, band, path, BaseOf(idx)) else 0)) % 256 == 0
    ensures path < active && idx == BaseOf(idx) ==> Offset(rows, active, band, path, idx) == 0
  {
    BaseByLayout(idx);
  }

  lemma BaseByLayout(idx: nat)
    requires idx < NUM_RATE_IDX
    ensures BaseIdx(SectionOfIdx(idx)) == BaseOf(idx) < NUM_RATE_IDX
  {
  }

  /** What the driver's search finds: row `r` names band and path, and entry `i` of the register
      table has the row's register and cell `idx` as the rate of its byte `j`. */
  predicate Addresses(rows: seq<dword>, r: nat, band: nat, path: nat, idx: nat, i: nat, j: nat)
    requires r < NumRows(rows)
  {
    && rows[6 * r] == band && rows[6 * r + 1] == path && i < |RATE_MAP| && j < |RATE_MAP[i].rates|
    && RATE_MAP[i].reg == rows[6 * r + 3] % 0x1_0000 && RateToIdx(RATE_MAP[i].rates[j]) == idx
  }

  const BYTE_PLACES: seq<int> := [1, 0x100, 0x1_0000, 0x100_0000]

  /** A row says something about a cell if and only if the search finds it, and then it says the
      byte of the register value in that place. */
  lemma RowSaysBySearch(rows: seq<dword>, r: nat, band: nat, path: nat, idx: nat)
    requires r < NumRows(rows)
    ensures RowSays(rows, r, band, path, idx).Some? <==> exists i: nat, j: nat :: Addresses(rows, r, band, path, idx, i, j)
    ensures forall i: nat, j: nat | Addresses(rows, r, band, path, idx, i, j) ::
              j < 4 && RowSays(rows, r, band, path, idx) == Some(rows[6 * r + 5] / BYTE_PLACES[j] % 256)
  {
    hide RateToIdx, RATE_MAP, BankSlot, FirstIdx;
    forall i: nat, j: nat | Addresses(rows, r, band, path, idx, i, j)
      ensures j < 4 && RowSays(rows, r, band, path, idx) == Some(rows[6 * r + 5] / BYTE_PLACES[j] % 256)
    {
      RateMapRow(0);
      RateMapRow(i);
      assert j == 0 || j == 1 || j == 2 || j == 3;
    }
    if RowSays(rows, r, band, path, idx).Some? {
      var reg := rows[6 * r + 3] % 0x1_0000;
      var i := EntryOf(reg);
      var j := idx - FirstIdx(BankSlot(reg));
      assert Addresses(rows, r, band, path, idx, i, j);
    }
  }

  /** The table entry of a register that carries rates. */
  lemma EntryOf(reg: nat) returns (i: nat)
    requires BankSlot(reg) >= 0
    ensures i < |RATE_MAP| && RATE_MAP[i].reg == reg && |RATE_MAP[i].rates| == 4
    ensures forall j: nat | j < 4 :: RateToIdx(RATE_MAP[i].rates[j]) == FirstIdx(BankSlot(reg)) + j
  {
    hide RateToIdx, FirstIdx, RATE_MAP;
    i := if reg < 0xe20 then BankSlot(reg) else BankSlot(reg) + 12;
    RateMapRow(i);
  }

  /** A register row with top byte 200 for OFDM on band 0 and path 0. */
  const WIDE_ROW: seq<dword> := [0, 0, 0, 0xc28, 0xffff_ffff, 0xC800_0000]

  /** There it is not exact: 54M has raw value -56 and base 200, and its offset 0 plus the base is not -56. */
  lemma NormalisationCanWrap()
    ensures RawCell(WIDE_ROW, 0, 0, 11) == -56 && SectionBase(WIDE_ROW, 1, 0, 0, SectionOfIdx(11)) == 200
    ensures Offset(WIDE_ROW, 1, 0, 0, 11) + SectionBase(WIDE_ROW, 1, 0, 0, SectionOfIdx(11)) != RawCell(WIDE_ROW, 0, 0, 11)
  {
    assert RowSays(WIDE_ROW, 0, 0, 0, 11) == Some(200);
    assert Raw(WIDE_ROW, 1, 0, 0, 11) == -56;
  }

  /** After normalisation the base rate of every section of an active path sits at offset 0. */
  lemma BaseRateIsZero(rows: seq<dword>, active: nat, band: nat, path: nat, rs: nat)
    requires rs < NUM_RATE_SECTION && path < active
    ensures Offset(rows, active, band, path, BaseIdx(rs)) == 0
  {
  }

  /** No byte of the table exceeds 127, as in every table the driver ships. */
  predicate SmallBytes(rows: seq<dword>) {
    forall r: nat | r < NumRows(rows) :: SmallData(DataOf(rows, r))
  }

  predicate SmallData(data: dword) {
    forall j: nat | j < 4 :: ByteOf(data, j) <= 127
  }

  /** Then normalisation is exact everywhere. */
  lemma SmallBytesExact(rows: seq<dword>, active: nat, band: nat, path: nat, idx: nat)
    requires idx < NUM_RATE_IDX && SmallBytes(rows)
    ensures Offset(rows, active, band, path, idx) + SectionBase(rows, active, band, path, SectionOfIdx(idx))
         == RawCell(rows, band, path, idx)
  {
    RawNotNegative(rows, NumRows(rows), band, path, idx);
    RawNotNegative(rows, NumRows(rows), band, path, BaseIdx(SectionOfIdx(idx)));
  }

  lemma {:induction false} RawNotNegative(rows: seq<dword>, n: nat, band: nat, path: nat, idx: nat)
    requires n <= NumRows(rows) && SmallBytes(rows)
    ensures Raw(rows, n, band, path, idx) >= 0
  {
    hide ByteOf;
    if n > 0 {
      RawNotNegative(rows, n - 1, band, path, idx);
    }
  }
}
