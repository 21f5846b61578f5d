/** The TX-power index of one (path, rate, streams, bandwidth, channel), stated directly over the
    EFUSE map, the register table and the limit table, with no table in between. */
module PowerQuery {
  import opened Bytes
  import opened Rates
  import opened Channels
  import opened Dimensions
  import opened PgBlock
  import ByRate
  import Decimal
  import Limits

  const BOOST := 2
  const TXGI_MAX := 63

  // ----- Layer 1: base power -----

  /** The diff table a query adds up. */
  function KindFor(fiveG: bool, rate: byte, bw: nat): DiffKind {
    if fiveG then
      if IsOfdm(rate) then Ofdm5 else if bw == 0 then Bw20At5 else if bw == 1 then Bw40At5 else Bw80At5
    else if IsCck(rate) then Cck24
    else if IsOfdm(rate) then Ofdm24
    else if bw == 0 then Bw20At24 else Bw40At24
  }

  /** How many leading diffs it adds: one per transmit chain for legacy rates, one per spatial
      stream for HT and VHT rates, none for anything else. */
  function Terms(fiveG: bool, rate: byte, ntx: nat): (n: nat)
    ensures n <= MAX_TX_COUNT
  {
    if IsOfdm(rate) || (!fiveG && IsCck(rate)) then Min(ntx, 3) + 1 else Streams(rate)
  }

  function DiffSum(e: seq<byte>, path: nat, d: DiffKind, n: nat): int
    requires |e| == MAP_LEN && path < MAX_RF_PATH && n <= MAX_TX_COUNT
    decreases n, path
  {
    if n == 0 then 0 else DiffSum(e, path, d, n - 1) + PgDiff(e, path, d, n - 1)
  }

  /** Band of a channel the driver has tables for. */
  function BandIndex(ch: byte): Option<nat> {
    match ClassifyChannel(ch)
    case Invalid => None
    case Band2G(_, _) => Some(0)
    case Band5G(_) => if Limits.ChannelIndex(1, ch).Some? then Some(1) else None
  }

  /** The base byte of the channel's group plus the diffs. */
  function DirectBase(e: seq<byte>, path: nat, rate: byte, ntx: nat, bw: nat, ch: byte): int
    requires |e| == MAP_LEN && path < MAX_RF_PATH && BandIndex(ch).Some?
  {
    match ClassifyChannel(ch)
    case Band2G(group, cckGroup) =>
      (if IsCck(rate) then CckBase(e, path, cckGroup) else Base24(e, path, group))
      + DiffSum(e, path, KindFor(false, rate, bw), Terms(false, rate, ntx))
    case Band5G(group) =>
      Base5(e, path, group) + DiffSum(e, path, KindFor(true, rate, bw), Terms(true, rate, ntx))
  }

  /** A sum of `n` diffs, term by term. */
  lemma DiffsOneByOne(e: seq<byte>, path: nat, d: DiffKind, n: nat)
    requires |e| == MAP_LEN && path < MAX_RF_PATH && n <= MAX_TX_COUNT
    ensures DiffSum(e, path, d, n)
         == (if n >= 1 then PgDiff(e, path, d, 0) else 0) + (if n >= 2 then PgDiff(e, path, d, 1) else 0)
            + (if n >= 3 then PgDiff(e, path, d, 2) else 0) + (if n >= 4 then PgDiff(e, path, d, 3) else 0)
  {
    hide PgDiff;
    assert n == 0 || n == 1 || n == 2 || n == 3 || n == 4;
  }

  /** HT codes come in groups of eight from 128 on, VHT codes in groups of ten from 160 on; the
      `s`-th group of either uses `s` spatial streams. */
  predicate InStreamGroup(rate: byte, s: nat) {
    1 <= s <= 4 && (128 + 8 * (s - 1) <= rate < 128 + 8 * s || 160 + 10 * (s - 1) <= rate < 160 + 10 * s)
  }

  /** Base power at 2.4 GHz by map address: on a channel of group `g`, CCK rates start from byte `g` of the
      block (byte 5 for channel 14), all others from byte `6 + g`. CCK (1 to 11 Mb/s) and OFDM (6 to 54)
      add one diff per transmit chain up to four, HT and VHT one per stream, other codes nothing. */
  lemma BaseAt24(e: seq<byte>, path: nat, rate: byte, ntx: nat, bw: nat, ch: byte, g: nat)
    requires |e| == MAP_LEN && path < MAX_RF_PATH && g < 5 && GROUP_STARTS_2G[g] <= ch < GROUP_STARTS_2G[g + 1]
    ensures BandIndex(ch) == Some(0)
    ensures var chains := 1 + if ntx < 3 then ntx else 3;
      var power := DirectBase(e, path, rate, ntx, bw, ch) - e[16 + 42 * path + 6 + g];
      && (rate in {2, 4, 11, 22} ==>
            DirectBase(e, path, rate, ntx, bw, ch)
            == e[16 + 42 * path + if ch == 14 then 5 else g] + DiffSum(e, path, Cck24, chains))
      && (rate in {12, 18, 24, 36, 48, 72, 96, 108} ==> power == DiffSum(e, path, Ofdm24, chains))
      && (forall s: nat | InStreamGroup(rate, s) ::
            power == DiffSum(e, path, if bw == 0 then Bw20At24 else Bw40At24, s))
      && (rate !in {2, 4, 11, 22, 12, 18, 24, 36, 48, 72, 96, 108} && (rate < 128 || rate >= 200) ==> power == 0)
  {
    hide PgDiff, ClassifyChannel, DiffSum;
    ChannelGroup24(g, ch);
    NoDiffs(e, path);
  }

  /** The same at 5 GHz, where group bases start at byte 18 of the block. */
  lemma BaseAt5(e: seq<byte>, path: nat, rate: byte, ntx: nat, bw: nat, ch: byte, g: nat)
    requires |e| == MAP_LEN && path < MAX_RF_PATH && g < 14 && Known5G(ch)
    requires GROUP_CHANNELS_5G[g] <= ch < GROUP_CHANNELS_5G[g + 1]
    ensures BandIndex(ch) == Some(1)
    ensures var chains := 1 + if ntx < 3 then ntx else 3;
      var power := DirectBase(e, path, rate, ntx, bw, ch) - e[16 + 42 * path + 18 + g];
      && (rate in {12, 18, 24, 36, 48, 72, 96, 108} ==> power == DiffSum(e, path, Ofdm5, chains))
      && (forall s: nat | InStreamGroup(rate, s) ::
            power == DiffSum(e, path, if bw == 0 then Bw20At5 else if bw == 1 then Bw40At5 else Bw80At5, s))
      && (rate !in {12, 18, 24, 36, 48, 72, 96, 108} && (rate < 128 || rate >= 200) ==> power == 0)
  {
    hide PgDiff, ClassifyChannel, DiffSum, Known5G, Limits.FirstIndex, CENTER_CH_5G;
    ChannelGroup5(g, ch);
    TableIsKnown5G(ch);
    NoDiffs(e, path);
  }

  lemma NoDiffs(e: seq<byte>, path: nat)
    requires |e| == MAP_LEN && path < MAX_RF_PATH
    ensures forall d :: DiffSum(e, path, d, 0) == 0
  {
  }

  /** Cumulative over streams: the next HT rate group, eight codes up, adds exactly one diff, and so
      does the next VHT group, ten codes up. */
  lemma NextStreamAddsOneDiff(e: seq<byte>, path: nat, rate: byte, ntx: nat, bw: nat, ch: byte)
    requires |e| == MAP_LEN && path < MAX_RF_PATH && BandIndex(ch).Some?
    requires 0x80 <= rate <= 0x97 || 0xA0 <= rate <= 0xBD
    ensures var up := if rate < 0xA0 then rate + 8 else rate + 10;
      DirectBase(e, path, up, ntx, bw, ch) - DirectBase(e, path, rate, ntx, bw, ch)
      == PgDiff(e, path, KindFor(ClassifyChannel(ch).Band5G?, rate, bw), Streams(rate))
  {
    hide PgDiff;
    var up := if rate < 0xA0 then rate + 8 else rate + 10;
    assert Streams(up) == Streams(rate) + 1;
  }

  /** Legacy rates add one diff per further transmit chain up to four, then no more. */
  lemma NextChainAddsOneDiff(e: seq<byte>, path: nat, rate: byte, ntx: nat, bw: nat, ch: byte)
    requires |e| == MAP_LEN && path < MAX_RF_PATH && BandIndex(ch).Some?
    requires IsOfdm(rate) || (IsCck(rate) && BandIndex(ch) == Some(0))
    ensures DirectBase(e, path, rate, ntx + 1, bw, ch) - DirectBase(e, path, rate, ntx, bw, ch)
         == if ntx < 3 then PgDiff(e, path, KindFor(ClassifyChannel(ch).Band5G?, rate, bw), ntx + 1) else 0
  {
    hide PgDiff;
  }

  /** Two maps give a path the same base bytes and diffs. Nibbles the driver passes over may differ. */
  ghost predicate SameSettings(e: seq<byte>, f: seq<byte>, path: nat)
    requires |e| == MAP_LEN && |f| == MAP_LEN && path < MAX_RF_PATH
  {
    && (forall d, t: nat | t < MAX_TX_COUNT :: PgDiff(e, path, d, t) == PgDiff(f, path, d, t))
    && (forall g: nat | g < 6 :: CckBase(e, path, g) == CckBase(f, path, g))
    && (forall g: nat | g < 5 :: Base24(e, path, g) == Base24(f, path, g))
    && (forall g: nat | g < 14 :: Base5(e, path, g) == Base5(f, path, g))
  }

  /** Two maps answer every base-power query of a path alike. */
  ghost predicate SameAnswers(e: seq<byte>, f: seq<byte>, path: nat)
    requires |e| == MAP_LEN && |f| == MAP_LEN && path < MAX_RF_PATH
  {
    forall rate, ntx: nat, bw: nat, ch | Answers(rate, ch) ::
      DirectBase(e, path, rate, ntx, bw, ch) == DirectBase(f, path, rate, ntx, bw, ch)
  }

  /** Only a path's settings matter to its base power, and every one of them does: two maps answer
      all its queries alike if and only if they agree on every base byte and every diff. */
  lemma SettingsDetermineAnswers(e: seq<byte>, f: seq<byte>, path: nat)
    requires |e| == MAP_LEN && |f| == MAP_LEN && path < MAX_RF_PATH
    ensures SameAnswers(e, f, path) <==> SameSettings(e, f, path)
  {
    hide DirectBase, PgDiff, CckBase, Base24, Base5;
    if SameSettings(e, f, path) {
      forall rate, ntx: nat, bw: nat, ch | Answers(rate, ch)
        ensures DirectBase(e, path, rate, ntx, bw, ch) == DirectBase(f, path, rate, ntx, bw, ch)
      {
        SameSettingsSameBase(e, f, path, rate, ntx, bw, ch);
      }
    }
    if SameAnswers(e, f, path) {
      forall g: nat | g < 6 ensures CckBase(e, path, g) == CckBase(f, path, g) {
        RecoverCckBase(e, f, path, g);
      }
      forall g: nat | g < 5 ensures Base24(e, path, g) == Base24(f, path, g) {
        RecoverBase24(e, f, path, g);
      }
      forall g: nat | g < 14 ensures Base5(e, path, g) == Base5(f, path, g) {
        RecoverBase5(e, f, path, g);
      }
      forall d, t: nat | t < MAX_TX_COUNT ensures PgDiff(e, path, d, t) == PgDiff(f, path, d, t) {
        RecoverDiff(e, f, path, d, t);
      }
    }
  }

  lemma SameSettingsSameBase(e: seq<byte>, f: seq<byte>, path: nat, rate: byte, ntx: nat, bw: nat, ch: byte)
    requires |e| == MAP_LEN && |f| == MAP_LEN && path < MAX_RF_PATH
    requires SameSettings(e, f, path) && BandIndex(ch).Some?
    ensures DirectBase(e, path, rate, ntx, bw, ch) == DirectBase(f, path, rate, ntx, bw, ch)
  {
    hide PgDiff, CckBase, Base24, Base5, DiffSum;
    var fiveG := ClassifyChannel(ch).Band5G?;
    SameDiffSum(e, f, path, KindFor(fiveG, rate, bw), Terms(fiveG, rate, ntx));
  }

  /** A channel of each group. */
  function Channel24(g: nat): (ch: byte)
    requires g < 6
    ensures g < 5 ==> ClassifyChannel(ch) == Band2G(g, g)
    ensures g == 5 ==> ClassifyChannel(ch) == Band2G(4, 5)
  {
    [1, 3, 6, 9, 12, 14][g]
  }

  function Channel5(g: nat): (ch: byte)
    requires g < 14
    ensures ClassifyChannel(ch) == Band5G(g)
  {
    [15, 44, 52, 60, 84, 108, 116, 124, 132, 140, 149, 157, 165, 173][g]
  }

  lemma Channel5IsKnown(g: nat)
    requires g < 14
    ensures BandIndex(Channel5(g)) == Some(1)
  {
    hide Limits.FirstIndex;
    if g < 5 {
      assert CENTER_CH_5G_A[0] == 15 && CENTER_CH_5G_A[12] == 44;
      assert CENTER_CH_5G_B[0] == 52 && CENTER_CH_5G_B[4] == 60 && CENTER_CH_5G_B[11] == 84;
      assert Channel5(g) in CENTER_CH_5G_A + CENTER_CH_5G_B;
    } else if g < 8 {
      assert CENTER_CH_5G_C[4] == 108 && CENTER_CH_5G_C[7] == 116 && CENTER_CH_5G_C[11] == 124;
      assert Channel5(g) in CENTER_CH_5G_C;
    } else {
      assert CENTER_CH_5G_D[0] == 132 && CENTER_CH_5G_D[4] == 140;
      assert CENTER_CH_5G_D[7] == 149 && CENTER_CH_5G_D[11] == 157;
      assert CENTER_CH_5G_E[0] == 165 && CENTER_CH_5G_E[4] == 173;
      assert Channel5(g) in CENTER_CH_5G_D + CENTER_CH_5G_E;
    }
    assert Channel5(g) in CENTER_CH_5G;
  }

  /** The query that adds up the first `n` diffs of a table. */
  datatype Probe = Probe(rate: byte, ntx: nat, bw: nat, ch: byte)

  function ProbeFor(d: DiffKind, n: nat): (q: Probe)
    requires 1 <= n <= MAX_TX_COUNT
  {
    match d
    case Cck24 => Probe(0x02, n - 1, 0, Channel24(0))
    case Ofdm24 => Probe(0x0C, n - 1, 0, Channel24(0))
    case Bw20At24 => Probe(0x80 + 8 * (n - 1), 0, 0, Channel24(0))
    case Bw40At24 => Probe(0x80 + 8 * (n - 1), 0, 1, Channel24(0))
    case Ofdm5 => Probe(0x0C, n - 1, 0, Channel5(0))
    case Bw20At5 => Probe(0x80 + 8 * (n - 1), 0, 0, Channel5(0))
    case Bw40At5 => Probe(0x80 + 8 * (n - 1), 0, 1, Channel5(0))
    case Bw80At5 => Probe(0x80 + 8 * (n - 1), 0, 2, Channel5(0))
  }

  /** The base byte under the diffs of a table. */
  function BaseUnder(e: seq<byte>, path: nat, d: DiffKind): int
    requires |e| == MAP_LEN && path < MAX_RF_PATH
  {
    match d
    case Cck24 => CckBase(e, path, 0)
    case Ofdm24 | Bw20At24 | Bw40At24 => Base24(e, path, 0)
    case _ => Base5(e, path, 0)
  }

  lemma ProbeAnswer(e: seq<byte>, path: nat, d: DiffKind, n: nat)
    requires |e| == MAP_LEN && path < MAX_RF_PATH && 1 <= n <= MAX_TX_COUNT
    ensures var q := ProbeFor(d, n);
      Answers(q.rate, q.ch) && DirectBase(e, path, q.rate, q.ntx, q.bw, q.ch) == BaseUnder(e, path, d) + DiffSum(e, path, d, n)
  {
    hide CckBase, Base24, Base5, DiffSum, Limits.FirstIndex;
    Channel5IsKnown(0);
    assert n == 1 || n == 2 || n == 3 || n == 4;
  }

  lemma RecoverCckBase(e: seq<byte>, f: seq<byte>, path: nat, g: nat)
    requires |e| == MAP_LEN && |f| == MAP_LEN && path < MAX_RF_PATH && SameAnswers(e, f, path) && g < 6
    ensures CckBase(e, path, g) == CckBase(f, path, g)
  {
    hide CckBase;
    assert Answers(0x02, Channel24(g));
    FirstSum(e, path, Cck24);
    FirstSum(f, path, Cck24);
    assert DirectBase(e, path, 0x02, 0, 0, Channel24(g)) == DirectBase(f, path, 0x02, 0, 0, Channel24(g));
  }

  lemma RecoverBase24(e: seq<byte>, f: seq<byte>, path: nat, g: nat)
    requires |e| == MAP_LEN && |f| == MAP_LEN && path < MAX_RF_PATH && SameAnswers(e, f, path) && g < 5
    ensures Base24(e, path, g) == Base24(f, path, g)
  {
    hide Base24;
    assert Answers(0x80, Channel24(g));
    FirstSum(e, path, Bw40At24);
    FirstSum(f, path, Bw40At24);
    assert DirectBase(e, path, 0x80, 0, 1, Channel24(g)) == DirectBase(f, path, 0x80, 0, 1, Channel24(g));
  }

  lemma RecoverBase5(e: seq<byte>, f: seq<byte>, path: nat, g: nat)
    requires |e| == MAP_LEN && |f| == MAP_LEN && path < MAX_RF_PATH && SameAnswers(e, f, path) && g < 14
    ensures Base5(e, path, g) == Base5(f, path, g)
  {
    hide Base5, Channel5, Limits.FirstIndex;
    Channel5IsKnown(g);
    assert Answers(0x80, Channel5(g));
    FirstSum(e, path, Bw40At5);
    FirstSum(f, path, Bw40At5);
    assert DirectBase(e, path, 0x80, 0, 1, Channel5(g)) == DirectBase(f, path, 0x80, 0, 1, Channel5(g));
  }

  /** Three tables have no first diff, so one term of them is nothing. */
  lemma FirstSum(e: seq<byte>, path: nat, d: DiffKind)
    requires |e| == MAP_LEN && path < MAX_RF_PATH && d in {Cck24, Bw40At24, Bw40At5}
    ensures DiffSum(e, path, d, 1) == 0
  {
    assert DiffSum(e, path, d, 0) == 0;
  }

  /** The answers to two neighbouring probes differ by one diff. */
  lemma RecoverDiff(e: seq<byte>, f: seq<byte>, path: nat, d: DiffKind, t: nat)
    requires |e| == MAP_LEN && |f| == MAP_LEN && path < MAX_RF_PATH && SameAnswers(e, f, path) && t < MAX_TX_COUNT
    ensures PgDiff(e, path, d, t) == PgDiff(f, path, d, t)
  {
    hide PgDiff, DirectBase, Answers, ProbeFor, BaseUnder;
    SameSums(e, f, path, d, t + 1);
    if t > 0 {
      SameSums(e, f, path, d, t);
    }
  }

  lemma SameSums(e: seq<byte>, f: seq<byte>, path: nat, d: DiffKind, n: nat)
    requires |e| == MAP_LEN && |f| == MAP_LEN && path < MAX_RF_PATH && SameAnswers(e, f, path) && 1 <= n <= MAX_TX_COUNT
    ensures DiffSum(e, path, d, n) == DiffSum(f, path, d, n)
  {
    hide DiffSum, DirectBase, ProbeFor;
    ProbeAnswer(e, path, d, n);
    ProbeAnswer(f, path, d, n);
    RecoverCckBase(e, f, path, 0);
    RecoverBase24(e, f, path, 0);
    RecoverBase5(e, f, path, 0);
    var q := ProbeFor(d, n);
    assert DirectBase(e, path, q.rate, q.ntx, q.bw, q.ch) == DirectBase(f, path, q.rate, q.ntx, q.bw, q.ch);
  }

  lemma {:induction false} SameDiffSum(e: seq<byte>, f: seq<byte>, path: nat, d: DiffKind, n: nat)
    requires |e| == MAP_LEN && |f| == MAP_LEN && path < MAX_RF_PATH && n <= MAX_TX_COUNT
    requires forall t: nat | t < MAX_TX_COUNT :: PgDiff(e, path, d, t) == PgDiff(f, path, d, t)
    ensures DiffSum(e, path, d, n) == DiffSum(f, path, d, n)
  {
    hide PgDiff;
    if n > 0 {
      SameDiffSum(e, f, path, d, n - 1);
    }
  }

  // ----- Layers 2 and 3: by-rate offset under the regulatory limit -----

  /** The by-rate offset is not applied to VHT rates at 2.4 GHz. */
  predicate ByRateApplies(band: nat, rate: byte) {
    !(band == 0 && RateToSection(rate) >= RS_VHT_1SS) && RateToIdx(rate) >= 0
  }

  /** Limit-table section of a rate. */
  function LimitSection(rate: byte): Option<nat> {
    var section := RateToSection(rate);
    if section == RS_CCK then Some(0)
    else if section == RS_OFDM then Some(1)
    else if RS_HT_1SS <= section <= RS_HT_4SS then Some(2)
    else if section >= RS_VHT_1SS then Some(3)
    else None
  }

  /** Values outside -62..62 mean "no limit". */
  function EffectiveLimit(v: int8): (limit: int)
    ensures -63 < limit <= TXGI_MAX
  {
    if -63 < v < TXGI_MAX then v else TXGI_MAX
  }

  /** Offset capped to the headroom left under the limit, boost, and the final clamp. */
  function Combine(base: int, byRate: int, limit: int): (r: byte)
    ensures r <= TXGI_MAX
  {
    var headroom := Max(0, limit - base - BOOST);
    Min(TXGI_MAX, Max(0, base + Min(byRate, headroom) + BOOST))
  }

  /** The offset never lifts power above the limit: whatever the tables hold, the result is at most
      the larger of the limit and base plus boost, and a larger offset never gives less power. */
  lemma OffsetNeverExceedsLimit(base: int, byRate: int, limit: int)
    ensures Combine(base, byRate, limit) <= Max(0, Max(limit, base + BOOST))
    ensures base + BOOST <= limit ==> Combine(base, byRate, limit) <= Max(0, limit)
    ensures forall more | byRate <= more :: Combine(base, byRate, limit) <= Combine(base, more, limit)
    ensures base + BOOST > limit && byRate >= 0 ==> Combine(base, byRate, limit) == Combine(base, 0, limit)
  {
  }

  /** The result respects the limit exactly when the limit is not negative and the power before
      any positive offset is within it, or when there is no limit at all. */
  lemma RespectsLimitIff(base: int, byRate: int, limit: int)
    ensures Combine(base, byRate, limit) <= limit
       <==> limit >= TXGI_MAX || (limit >= 0 && base + BOOST + Min(0, byRate) <= limit)
  {
  }

  // ----- The whole query -----

  function ByRateOffset(rows: seq<dword>, active: nat, enabled: bool, band: nat, path: nat, rate: byte): int {
    if enabled && ByRateApplies(band, rate) then ByRate.Offset(rows, active, band, path, RateToIdx(rate)) else 0
  }

  function DirectLimit(strings: seq<string>, regulation: nat, band: nat, rate: byte, ntx: nat, bw: nat, ch: byte): int
    requires Limits.ChannelIndex(band, ch).Some?
  {
    match LimitSection(rate)
    case None => TXGI_MAX
    case Some(section) =>
      if bw < Limits.NumBandwidths(band) && ntx < MAX_TX_COUNT then
        var cell := Limits.Cell(regulation, band, bw, section, ntx, Limits.ChannelIndex(band, ch).value);
        EffectiveLimit(Limits.LimitAt(strings, Limits.NumRows(strings), cell))
      else TXGI_MAX
  }

  /** No power is computed for unknown channels, nor at 5 GHz for codes below 0x0C. The CCK code
      0x16 is above that and does get a 5 GHz power: the bare group base. */
  predicate Answers(rate: byte, ch: byte) {
    BandIndex(ch).Some? && !(BandIndex(ch).value == 1 && rate < 0x0C)
  }

  /** Exactly these queries are answered: any code on channels 1 to 14, and from 12 on at 5 GHz. */
  lemma AnswersIff(rate: byte, ch: byte)
    ensures Answers(rate, ch) <==> 1 <= ch <= 14 || (Known5G(ch) && rate >= 12)
    ensures Answers(rate, ch) ==> BandIndex(ch) == Some(if ch <= 14 then 0 else 1)
  {
    hide Known5G, Limits.FirstIndex, CENTER_CH_5G, CENTER_CH_5G_A, CENTER_CH_5G_B, CENTER_CH_5G_C, CENTER_CH_5G_D,
         CENTER_CH_5G_E;
    TableIsKnown5G(ch);
    if Known5G(ch) {
      KnownIsBeyond14(ch);
      Known5GHasGroup(ch);
    }
  }

  lemma KnownIsBeyond14(ch: byte)
    requires Known5G(ch)
    ensures ch > 14
  {
  }

  lemma Known5GHasGroup(ch: byte)
    requires Known5G(ch)
    ensures ClassifyChannel(ch).Band5G?
  {
  }

  /** The by-rate offset applies when it is enabled, to every legacy and HT rate, and to VHT rates at
      5 GHz only. */
  lemma OffsetApplies(rows: seq<dword>, active: nat, enabled: bool, band: nat, path: nat, rate: byte)
    ensures ByRateOffset(rows, active, enabled, band, path, rate)
         == if enabled && (rate in {2, 4, 11, 22, 12, 18, 24, 36, 48, 72, 96, 108} || 128 <= rate < 160
                           || (band != 0 && 160 <= rate < 200))
            then ByRate.Offset(rows, active, band, path, RateToIdx(rate)) else 0
  {
    hide ByRate.Offset;
  }

  /** The word a limit row uses for a rate. */
  function SectionWord(rate: byte): string {
    if rate in {2, 4, 11, 22} then "CCK" else if 12 <= rate <= 108 then "OFDM"
    else if 128 <= rate < 160 then "HT" else if 160 <= rate < 200 then "VHT" else ""
  }

  const MHZ_WORDS: seq<string> := ["20M", "40M", "80M", "160M"]
  const CHAIN_WORDS: seq<string> := ["1T", "2T", "3T", "4T"]

  /** Row `r` of the limit table is written for this query. */
  predicate RowFor(strings: seq<string>, r: nat, regulation: nat, rate: byte, ntx: nat, bw: nat, ch: byte)
    requires r < Limits.NumRows(strings) && regulation < 4 && bw < 4 && ntx < 4
  {
    && strings[7 * r] == ["FCC", "ETSI", "MKK", "WW"][regulation]
    && strings[7 * r + 1] == (if ch <= 14 then "2.4G" else "5G")
    && strings[7 * r + 2] == MHZ_WORDS[bw] && strings[7 * r + 3] == SectionWord(rate)
    && strings[7 * r + 4] == CHAIN_WORDS[ntx] && Decimal.Parsed(strings[7 * r + 5]) == ch
  }

  /** The limit of an answered query in the words of the table: the signed value of the last row
      written for it, if that lies strictly between -63 and 63. In every other case there is none. */
  lemma LimitInWords(strings: seq<string>, regulation: nat, rate: byte, ntx: nat, bw: nat, ch: byte)
    requires Answers(rate, ch) && regulation < 4
    ensures var band := if ch <= 14 then 0 else 1;
      var limit := DirectLimit(strings, regulation, band, rate, ntx, bw, ch);
      if SectionWord(rate) == "" || ntx >= 4 || bw >= (if ch <= 14 then 2 else 4) then limit == 63
      else
        && ((forall r: nat | r < Limits.NumRows(strings) :: !RowFor(strings, r, regulation, rate, ntx, bw, ch)) ==>
              limit == 63)
        && (forall r: nat | LastRowFor(strings, r, regulation, rate, ntx, bw, ch) ::
              var v: int := Decimal.Parsed(strings[7 * r + 6]);
              limit == if v < 63 then v else if v > 193 then v - 256 else 63)
  {
    hide Limits.ChannelIndex, ClassifyChannel, Known5G, RowFor, LastRowFor, Limits.LimitAt, Limits.RowSays, Decimal.Parsed;
    AnswersIff(rate, ch);
    AnsweredChannel(rate, ch);
    SectionByWord(rate);
    var band := if ch <= 14 then 0 else 1;
    if SectionWord(rate) != "" && ntx < 4 && bw < if ch <= 14 then 2 else 4 {
      var cell := Limits.Cell(regulation, band, bw, LimitSection(rate).value, ntx, Limits.ChannelIndex(band, ch).value);
      LimitOfCell(strings, regulation, rate, ntx, bw, ch, cell);
    }
  }

  lemma SectionByWord(rate: byte)
    ensures LimitSection(rate).None? <==> SectionWord(rate) == ""
    ensures LimitSection(rate).Some? ==>
              LimitSection(rate).value < 4 && SectionWord(rate) == Limits.SECTION_NAMES[LimitSection(rate).value]
  {
  }

  /** The cell a query looks up. */
  predicate IsCellOf(c: Limits.Cell, regulation: nat, rate: byte, ntx: nat, bw: nat, ch: byte) {
    && Limits.ValidCell(c) && c.regulation == regulation && c.bw == bw && c.ntx == ntx
    && c.band == (if ch <= 14 then 0 else 1) && LimitSection(rate) == Some(c.section)
    && Limits.ChannelIndex(c.band, ch) == Some(c.channel)
  }

  lemma LimitOfCell(strings: seq<string>, regulation: nat, rate: byte, ntx: nat, bw: nat, ch: byte, cell: Limits.Cell)
    requires regulation < 4 && bw < 4 && ntx < 4 && IsCellOf(cell, regulation, rate, ntx, bw, ch)
    ensures var limit := Limits.LimitAt(strings, Limits.NumRows(strings), cell);
      && ((forall r: nat | r < Limits.NumRows(strings) :: !RowFor(strings, r, regulation, rate, ntx, bw, ch)) ==> limit == 63)
      && (forall r: nat | LastRowFor(strings, r, regulation, rate, ntx, bw, ch) ::
            limit == ToInt8(Decimal.Parsed(strings[7 * r + 6])))
  {
    hide RowFor, Limits.RowSays, IsCellOf, Decimal.Parsed;
    var n := Limits.NumRows(strings);
    forall r: nat | r < n {
      RowForCell(strings, r, regulation, rate, ntx, bw, ch, cell);
    }
    if forall r: nat | r < n :: !RowFor(strings, r, regulation, rate, ntx, bw, ch) {
      Limits.LimitIsLastRow(strings, 0, n, cell);
    }
    forall r: nat | LastRowFor(strings, r, regulation, rate, ntx, bw, ch)
      ensures Limits.LimitAt(strings, n, cell) == ToInt8(Decimal.Parsed(strings[7 * r + 6]))
    {
      Limits.LimitIsLastRow(strings, r + 1, n, cell);
    }
  }

  /** A row is written for a query if and only if it says something about the query's cell. */
  lemma RowForCell(strings: seq<string>, r: nat, regulation: nat, rate: byte, ntx: nat, bw: nat, ch: byte, cell: Limits.Cell)
    requires r < Limits.NumRows(strings) && regulation < 4 && bw < 4 && ntx < 4
    requires IsCellOf(cell, regulation, rate, ntx, bw, ch)
    ensures RowFor(strings, r, regulation, rate, ntx, bw, ch)
       <==> Limits.RowSays(strings, r).Some? && Limits.RowSays(strings, r).value.cell == cell
    ensures Limits.RowSays(strings, r).Some? ==>
              Limits.RowSays(strings, r).value.value == ToInt8(Decimal.Parsed(strings[7 * r + 6]))
  {
    hide Limits.RowSays, Limits.FirstIndex, CENTER_CH_5G, Decimal.Parsed, LimitSection, SectionWord;
    SectionByWord(rate);
    Limits.TableLength();
    Limits.RowValue(strings, r);
    Limits.RowSaysByNames(strings, r, cell, Decimal.Parsed(strings[7 * r + 6]));
  }

  lemma NoRowsNoLimit(regulation: nat, band: nat, rate: byte, ntx: nat, bw: nat, ch: byte)
    requires Limits.ChannelIndex(band, ch).Some?
    ensures DirectLimit([], regulation, band, rate, ntx, bw, ch) == TXGI_MAX
  {
    hide Limits.ChannelIndex;
  }

  predicate LastRowFor(strings: seq<string>, r: nat, regulation: nat, rate: byte, ntx: nat, bw: nat, ch: byte)
    requires regulation < 4 && bw < 4 && ntx < 4
  {
    && r < Limits.NumRows(strings) && RowFor(strings, r, regulation, rate, ntx, bw, ch)
    && forall q: nat | r < q < Limits.NumRows(strings) :: !RowFor(strings, q, regulation, rate, ntx, bw, ch)
  }

  lemma AnsweredChannel(rate: byte, ch: byte)
    requires Answers(rate, ch)
    ensures Limits.ChannelIndex(BandIndex(ch).value, ch).Some?
  {
  }

  /** At 5 GHz a CCK rate is answered if and only if it is 11M, and then with no diff added. */
  lemma CckAt5G(e: seq<byte>, path: nat, rate: byte, ntx: nat, bw: nat, ch: byte)
    requires |e| == MAP_LEN && path < MAX_RF_PATH && BandIndex(ch) == Some(1) && IsCck(rate)
    ensures Answers(rate, ch) <==> rate == 0x16
    ensures DirectBase(e, path, rate, ntx, bw, ch) == Base5(e, path, ClassifyChannel(ch).group)
  {
    assert Terms(true, rate, ntx) == 0;
  }

  function DirectPower(e: seq<byte>, rows: seq<dword>, strings: seq<string>, active: nat, regulation: nat,
                       enabled: bool, path: nat, rate: byte, ntx: nat, bw: nat, ch: byte): byte
    requires |e| == MAP_LEN
  {
    if path >= MAX_RF_PATH || !Answers(rate, ch) then 0
    else
      AnsweredChannel(rate, ch);
      var band := BandIndex(ch).value;
      var base := if path < active then DirectBase(e, path, rate, ntx, bw, ch) else 0;
      Combine(base, ByRateOffset(rows, active, enabled, band, path, rate),
              DirectLimit(strings, regulation, band, rate, ntx, bw, ch))
  }

  /** The power of every answered query: base, offset and boost together, or the larger of the limit
      and the boosted base when that is less, clamped to 0 .. 63. So an offset that fits under the
      limit is applied in full, and one that does not is cut, but not below the boosted base. The
      limit is respected exactly when there is none, or it is not negative and the power before any
      positive offset is within it. */
  lemma PowerCap(e: seq<byte>, rows: seq<dword>, strings: seq<string>, active: nat, regulation: nat,
                 enabled: bool, path: nat, rate: byte, ntx: nat, bw: nat, ch: byte)
    requires |e| == MAP_LEN && path < MAX_RF_PATH && Answers(rate, ch)
    ensures Limits.ChannelIndex(BandIndex(ch).value, ch).Some?
    ensures var band := BandIndex(ch).value;
      var base := if path < active then DirectBase(e, path, rate, ntx, bw, ch) else 0;
      var limit := DirectLimit(strings, regulation, band, rate, ntx, bw, ch);
      var offset := ByRateOffset(rows, active, enabled, band, path, rate);
      var power := DirectPower(e, rows, strings, active, regulation, enabled, path, rate, ntx, bw, ch);
      var sum, cap := base + offset + 2, if limit > base + 2 then limit else base + 2;
      var wanted := if sum < cap then sum else cap;
      && power == (if wanted < 0 then 0 else if wanted > 63 then 63 else wanted)
      && (offset <= 0 || sum <= limit ==> wanted == sum)
      && power <= TXGI_MAX && power <= Max(0, Max(limit, base + BOOST))
      && (power <= limit <==> limit >= TXGI_MAX || (limit >= 0 && base + BOOST + Min(0, offset) <= limit))
  {
    hide DirectBase, DirectLimit, ByRateOffset, Combine;
    AnsweredChannel(rate, ch);
    var band := BandIndex(ch).value;
    var base := if path < active then DirectBase(e, path, rate, ntx, bw, ch) else 0;
    var limit := DirectLimit(strings, regulation, band, rate, ntx, bw, ch);
    var offset := ByRateOffset(rows, active, enabled, band, path, rate);
    Clamped(base, offset, limit);
    OffsetNeverExceedsLimit(base, offset, limit);
    RespectsLimitIff(base, offset, limit);
  }

  lemma Clamped(base: int, byRate: int, limit: int)
    ensures var sum, cap := base + byRate + 2, if limit > base + 2 then limit else base + 2;
      var wanted := if sum < cap then sum else cap;
      Combine(base, byRate, limit) == if wanted < 0 then 0 else if wanted > 63 then 63 else wanted
  {
  }

  /** Nothing is transmitted on a path that does not exist or for a query that is not answered. */
  lemma NoPower(e: seq<byte>, rows: seq<dword>, strings: seq<string>, active: nat, regulation: nat,
                enabled: bool, path: nat, rate: byte, ntx: nat, bw: nat, ch: byte)
    requires |e| == MAP_LEN && (path >= 4 || ch == 0 || (ch > 14 && (rate < 12 || !Known5G(ch))))
    ensures DirectPower(e, rows, strings, active, regulation, enabled, path, rate, ntx, bw, ch) == 0
  {
    hide Known5G, Answers;
    AnswersIff(rate, ch);
  }

  /** A map programmed with 2.4 GHz base 47 for channels 6 to 8 of path 0, its first diffs and one other
      base byte, and one row limiting channel 6 to 36. */
  function LoudMap(): (e: seq<byte>)
    ensures |e| == MAP_LEN && Base24(e, 0, 2) == 47 && PgDiff(e, 0, Ofdm24, 0) == 0
  {
    seq(MAP_LEN, k => if k == 24 then 47 else if k == 27 then 0 else if k == 34 then 0x20 else 0xFF)
  }

  const TIGHT_LIMIT: seq<string> := ["FCC", "2.4G", "20M", "OFDM", "1T", "6", "36"]

  /** So base power alone can exceed the limit: there 6M on channel 6 transmits at 49. */
  lemma LimitCanBeExceeded()
    ensures DirectLimit(TIGHT_LIMIT, 0, 0, 0x0C, 0, 0, 6) == 36
    ensures DirectPower(LoudMap(), [], TIGHT_LIMIT, 1, 0, false, 0, 0x0C, 0, 0, 6) == 49
  {
    hide LoudMap, PgDiff, Base24;
    TightRow();
    assert Limits.LimitAt(TIGHT_LIMIT, 1, Limits.Cell(0, 0, 0, 1, 0, 5)) == 36;
    assert DiffSum(LoudMap(), 0, Ofdm24, 0) == 0;
    assert DiffSum(LoudMap(), 0, Ofdm24, 1) == 0;
    assert DirectBase(LoudMap(), 0, 0x0C, 0, 0, 6) == 47;
  }

  lemma TightRow()
    ensures |TIGHT_LIMIT| == 7
    ensures Limits.RowSays(TIGHT_LIMIT, 0) == Some(Limits.RowSaying(Limits.Cell(0, 0, 0, 1, 0, 5), 36))
  {
    assert TIGHT_LIMIT[0 * Limits.ROW_STRINGS..] == TIGHT_LIMIT;
    Decimal.ParseUndoesPrint(6, 0, []);
    assert Decimal.Zeros(0) + Decimal.Print(6) + [] == "6";
    Decimal.ParseUndoesPrint(36, 0, []);
    assert Decimal.Print(3) == "3";
    assert Decimal.Zeros(0) + Decimal.Print(36) + [] == "36";
    Limits.NamesRoundTrip("FCC", 0);
    Limits.NamesRoundTrip("2.4G", 0);
    Limits.NamesRoundTrip("20M", 0);
    Limits.NamesRoundTrip("OFDM", 1);
    Limits.NamesRoundTrip("1T", 0);
  }

  /** A blank map, as on the 8814 until its late start, reads as base 255 and diffs -1: every answered
      query on an active path then returns full power, whatever the other two tables say. */
  lemma BlankMapSaturates(e: seq<byte>, rows: seq<dword>, strings: seq<string>, active: nat, regulation: nat,
                          enabled: bool, path: nat, rate: byte, ntx: nat, bw: nat, ch: byte)
    requires |e| == MAP_LEN && (forall k | 0 <= k < MAP_LEN :: e[k] == 0xFF)
    requires path < active && path < MAX_RF_PATH && Answers(rate, ch)
    ensures DirectPower(e, rows, strings, active, regulation, enabled, path, rate, ntx, bw, ch) == TXGI_MAX
  {
    hide DirectLimit, ByRate.Offset, ClassifyChannel, PgDiff;
    AnsweredChannel(rate, ch);
    var fiveG := ClassifyChannel(ch).Band5G?;
    BlankDiffSum(e, path, KindFor(fiveG, rate, bw), Terms(fiveG, rate, ntx));
    assert DirectBase(e, path, rate, ntx, bw, ch) >= 255 - MAX_TX_COUNT;
  }

  lemma {:induction false} BlankDiffSum(e: seq<byte>, path: nat, d: DiffKind, n: nat)
    requires |e| == MAP_LEN && (forall k | 0 <= k < MAP_LEN :: e[k] == 0xFF)
    requires path < MAX_RF_PATH && n <= MAX_TX_COUNT
    ensures 0 <= DiffSum(e, path, d, n) + n && DiffSum(e, path, d, n) <= 0
  {
    if n > 0 {
      BlankDiffSum(e, path, d, n - 1);
      assert -1 <= PgDiff(e, path, d, n - 1) <= 0;
    }
  }
}
