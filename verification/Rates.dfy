/** Rate codes, their flat index, and the rate sections they belong to. */
module Rates {
  import opened Bytes

  const NUM_RATE_IDX := 84
  const NUM_RATE_SECTION := 10

  const CCK_RATES: seq<byte> := [0x02, 0x04, 0x0B, 0x16]
  const OFDM_RATES: seq<byte> := [0x0C, 0x12, 0x18, 0x24, 0x30, 0x48, 0x60, 0x6C]

  const RS_CCK := 0
  const RS_OFDM := 1
  const RS_HT_1SS := 2
  const RS_HT_4SS := 5
  const RS_VHT_1SS := 6

  /** The rate whose value becomes the base of each section. */
  const SECTION_BASE_RATE: seq<byte> := [0x16, 0x6C, 0x87, 0x8F, 0x97, 0x9F, 0xA7, 0xB1, 0xBB, 0xC5]

  predicate IsCck(rate: byte) {
    rate == 0x02 || rate == 0x04 || rate == 0x0B || rate == 0x16
  }

  predicate IsOfdm(rate: byte) {
    rate == 0x0C || rate == 0x12 || rate == 0x18 || rate == 0x24
    || rate == 0x30 || rate == 0x48 || rate == 0x60 || rate == 0x6C
  }

  /** Flat index of a rate, -1 for a code that is not a rate. */
  function RateToIdx(rate: byte): (idx: int)
    ensures -1 <= idx < NUM_RATE_IDX
  {
    match rate
    case 0x02 => 0
    case 0x04 => 1
    case 0x0B => 2
    case 0x16 => 3
    case 0x0C => 4
    case 0x12 => 5
    case 0x18 => 6
    case 0x24 => 7
    case 0x30 => 8
    case 0x48 => 9
    case 0x60 => 10
    case 0x6C => 11
    case _ =>
      if 0x80 <= rate <= 0x9F then 12 + (rate - 0x80)
      else if 0xA0 <= rate <= 0xC7 then 44 + (rate - 0xA0)
      else -1
  }

  /** The rate reconstructed from a flat index. */
  function IdxToRate(idx: nat): (rate: byte)
    requires idx < NUM_RATE_IDX
  {
    if idx <= 3 then CCK_RATES[idx]
    else if idx <= 11 then OFDM_RATES[idx - 4]
    else if idx <= 43 then 0x80 + (idx - 12)
    else 0xA0 + (idx - 44)
  }

  function RateToSection(rate: byte): (section: int)
    ensures -1 <= section < NUM_RATE_SECTION
  {
    if IsCck(rate) then RS_CCK
    else if 0x0C <= rate <= 0x6C then RS_OFDM
    else if 0x80 <= rate <= 0x87 then 2
    else if 0x88 <= rate <= 0x8F then 3
    else if 0x90 <= rate <= 0x97 then 4
    else if 0x98 <= rate <= 0x9F then 5
    else if 0xA0 <= rate <= 0xA9 then 6
    else if 0xAA <= rate <= 0xB3 then 7
    else if 0xB4 <= rate <= 0xBD then 8
    else if 0xBE <= rate <= 0xC7 then 9
    else -1
  }

  /** The section of a flat index, by arithmetic alone. */
  function SectionOfIdx(idx: nat): (section: nat)
    requires idx < NUM_RATE_IDX
    ensures section < NUM_RATE_SECTION
  {
    if idx < 4 then RS_CCK
    else if idx < 12 then RS_OFDM
    else if idx < 44 then RS_HT_1SS + (idx - 12) / 8
    else RS_VHT_1SS + (idx - 44) / 10
  }

  /** Spatial streams of an HT or VHT rate; no other code carries stream diffs. */
  function Streams(rate: byte): (n: nat)
    ensures n <= 4
  {
    if 0x80 <= rate <= 0x9F then 1 + (rate - 0x80) / 8
    else if 0xA0 <= rate <= 0xC7 then 1 + (rate - 0xA0) / 10
    else 0
  }

  /** Index and rate are inverse to each other: 84 rates, one index each. */
  lemma IdxRateInverse(idx: nat, rate: byte)
    ensures idx < NUM_RATE_IDX ==> RateToIdx(IdxToRate(idx)) == idx
    ensures RateToIdx(rate) >= 0 ==> IdxToRate(RateToIdx(rate)) == rate
  {
    assert CCK_RATES[0] == 0x02 && CCK_RATES[1] == 0x04 && CCK_RATES[2] == 0x0B && CCK_RATES[3] == 0x16;
    assert OFDM_RATES[0] == 0x0C && OFDM_RATES[1] == 0x12 && OFDM_RATES[2] == 0x18 && OFDM_RATES[3] == 0x24;
    assert OFDM_RATES[4] == 0x30 && OFDM_RATES[5] == 0x48 && OFDM_RATES[6] == 0x60 && OFDM_RATES[7] == 0x6C;
  }

  /** Which codes have an index, with legacy rates in units of 500 kb/s: CCK 1 to 11 Mb/s, OFDM 6 to
      54 Mb/s, 32 HT and 40 VHT codes. Within each family indices ascend with the code. */
  lemma IndexFamilies(rate: byte, next: byte)
    ensures 0 <= RateToIdx(rate) < 4 <==> rate in {2, 4, 11, 22}
    ensures 4 <= RateToIdx(rate) < 12 <==> rate in {12, 18, 24, 36, 48, 72, 96, 108}
    ensures 12 <= RateToIdx(rate) < 44 <==> 128 <= rate < 160
    ensures 44 <= RateToIdx(rate) <==> 160 <= rate < 200
    ensures rate < next && 0 <= RateToIdx(rate) && Family(RateToIdx(rate)) == Family(RateToIdx(next)) ==>
              RateToIdx(rate) < RateToIdx(next)
  {
  }

  function Family(idx: int): int {
    if idx < 0 then -1 else if idx < 4 then 0 else if idx < 12 then 1 else if idx < 44 then 2 else 3
  }

  /** Every index has a section, and it is the one its rate classifies to. */
  lemma SectionAgrees(idx: nat)
    requires idx < NUM_RATE_IDX
    ensures RateToSection(IdxToRate(idx)) == SectionOfIdx(idx)
  {
    assert CCK_RATES[0] == 0x02 && CCK_RATES[1] == 0x04 && CCK_RATES[2] == 0x0B && CCK_RATES[3] == 0x16;
    assert OFDM_RATES[0] == 0x0C && OFDM_RATES[1] == 0x12 && OFDM_RATES[2] == 0x18 && OFDM_RATES[3] == 0x24;
    assert OFDM_RATES[4] == 0x30 && OFDM_RATES[5] == 0x48 && OFDM_RATES[6] == 0x60 && OFDM_RATES[7] == 0x6C;
  }

  function BaseIdx(rs: nat): (idx: nat)
    requires rs < NUM_RATE_SECTION
    ensures idx == RateToIdx(SECTION_BASE_RATE[rs]) && idx < NUM_RATE_IDX
    ensures SectionOfIdx(idx) == rs
  {
    [3, 11, 19, 27, 35, 43, 51, 61, 71, 81][rs]
  }
}
