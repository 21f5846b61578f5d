/** The TX-power tables of the driver, loaded in place and queried. */
module EepromManager {
  import opened Bytes
  import opened Rates
  import opened Channels
  import opened Dimensions
  import opened PgBlock
  import ByRate
  import Decimal
  import Limits
  import Query = PowerQuery
  import EfuseLog
  import opened EfuseDecoder

  /** Slots `lo .. hi` of one row of a diff table hold what the map says. */
  ghost predicate RowHolds(a: array2<int8>, e: seq<byte>, path: nat, d: DiffKind, lo: nat, hi: nat)
    requires |e| == MAP_LEN && path < MAX_RF_PATH && hi <= MAX_TX_COUNT
    requires DiffShape(a)
    reads a
  {
    forall t: nat | lo <= t < hi :: a[path, t] == PgDiff(e, path, d, t)
  }

  ghost predicate ZeroRow(a: array2<int8>, path: nat)
    requires path < a.Length0
    reads a
  {
    forall i | 0 <= i < a.Length1 :: a[path, i] == 0
  }

  predicate DiffShape(a: array2<int8>) {
    a.Length0 == MAX_RF_PATH && a.Length1 == MAX_TX_COUNT
  }

  /** All rows but one are as they were. */
  twostate predicate OtherRowsKept<T>(a: array2<T>, path: nat)
    reads a
  {
    forall p, i | 0 <= p < a.Length0 && 0 <= i < a.Length1 && p != path :: a[p, i] == old(a[p, i])
  }

  /** All cells but one are as they were. */
  twostate predicate OtherCellsKept<T>(a: array2<T>, path: nat, k: nat)
    reads a
  {
    forall p, i | 0 <= p < a.Length0 && 0 <= i < a.Length1 && (p != path || i != k) :: a[p, i] == old(a[p, i])
  }

  /** PG group of entry `i` of the 5 GHz channel table. */
  function Group5(i: nat): (group: nat)
    requires i < CENTER_CH_5G_ALL_NUM
    ensures group < GROUPS_5G
  {
    TableIs5G(i);
    ClassifyChannel(CENTER_CH_5G[i]).group
  }

  /** Which byte each diff sits in, as absolute map addresses. */
  lemma FirstDiffs(e: seq<byte>, path: nat)
    requires |e| == MAP_LEN && path < MAX_RF_PATH
    ensures var b := BlockAt(path);
      && PgDiff(e, path, Bw20At24, 0) == MsbDiff(e[b + 11]) && PgDiff(e, path, Ofdm24, 0) == LsbDiff(e[b + 11])
      && PgDiff(e, path, Bw20At5, 0) == MsbDiff(e[b + 32]) && PgDiff(e, path, Ofdm5, 0) == LsbDiff(e[b + 32])
      && PgDiff(e, path, Ofdm5, 1) == MsbDiff(e[b + 36]) && PgDiff(e, path, Ofdm5, 2) == LsbDiff(e[b + 36])
      && PgDiff(e, path, Ofdm5, 3) == LsbDiff(e[b + 37])
  {
  }

  lemma NextDiffs(e: seq<byte>, path: nat, t: nat)
    requires |e| == MAP_LEN && path < MAX_RF_PATH && 1 <= t < MAX_TX_COUNT
    ensures var b := BlockAt(path);
      && PgDiff(e, path, Bw40At24, t) == MsbDiff(e[b + 10 + 2 * t])
      && PgDiff(e, path, Bw20At24, t) == LsbDiff(e[b + 10 + 2 * t])
      && PgDiff(e, path, Ofdm24, t) == MsbDiff(e[b + 11 + 2 * t])
      && PgDiff(e, path, Cck24, t) == LsbDiff(e[b + 11 + 2 * t])
      && PgDiff(e, path, Bw40At5, t) == MsbDiff(e[b + 32 + t])
      && PgDiff(e, path, Bw20At5, t) == LsbDiff(e[b + 32 + t])
  {
  }

  lemma WideDiff(e: seq<byte>, path: nat, t: nat)
    requires |e| == MAP_LEN && path < MAX_RF_PATH && t < MAX_TX_COUNT
    ensures PgDiff(e, path, Bw80At5, t) == MsbDiff(e[BlockAt(path) + 38 + t])
  {
  }

  class Manager {
    const efuse: array<byte>       // the 512-byte shadow map
    const numTotalRfPath: nat
    var currentRegulation: nat

    const cckBase24: array2<byte>
    const bw40Base24: array2<byte>
    const bw40Base5: array2<byte>
    const cckDiff24: array2<int8>
    const ofdmDiff24: array2<int8>
    const bw20Diff24: array2<int8>
    const bw40Diff24: array2<int8>
    const ofdmDiff5: array2<int8>
    const bw20Diff5: array2<int8>
    const bw40Diff5: array2<int8>
    const bw80Diff5: array2<int8>
    var txPowerInfoLoaded: bool

    const byRateOffset: array3<int8>
    const byRateBase: array3<byte>
    var txPwrByRateLoaded: bool

    const limit2g: array5<int8>
    const limit5g: array5<int8>
    var txPwrLimitLoaded: bool

    /** Table sizes, and no two tables of one shape being the same array. */
    ghost predicate Shape() {
      && efuse.Length == MAP_LEN
      && 1 <= numTotalRfPath <= MAX_RF_PATH
      && cckBase24.Length0 == MAX_RF_PATH && cckBase24.Length1 == CENTER_CH_2G_NUM
      && bw40Base24.Length0 == MAX_RF_PATH && bw40Base24.Length1 == CENTER_CH_2G_NUM
      && bw40Base5.Length0 == MAX_RF_PATH && bw40Base5.Length1 == CENTER_CH_5G_ALL_NUM
      && cckBase24 !in {bw40Base24, bw40Base5} && bw40Base24 != bw40Base5
      && DiffShape(cckDiff24) && DiffShape(ofdmDiff24) && DiffShape(bw20Diff24) && DiffShape(bw40Diff24)
      && DiffShape(ofdmDiff5) && DiffShape(bw20Diff5) && DiffShape(bw40Diff5) && DiffShape(bw80Diff5)
      && Separate()
      && byRateOffset.Length0 == 2 && byRateOffset.Length1 == MAX_RF_PATH && byRateOffset.Length2 == NUM_RATE_IDX
      && byRateBase.Length0 == 2 && byRateBase.Length1 == MAX_RF_PATH && byRateBase.Length2 == NUM_RATE_SECTION
      && limit2g.Length0 == Limits.NUM_REGULATIONS && limit2g.Length1 == Limits.NUM_2G_BW
      && limit2g.Length2 == Limits.NUM_LIMIT_SECTION && limit2g.Length3 == MAX_TX_COUNT
      && limit2g.Length4 == CENTER_CH_2G_NUM
      && limit5g.Length0 == Limits.NUM_REGULATIONS && limit5g.Length1 == Limits.NUM_5G_BW
      && limit5g.Length2 == Limits.NUM_LIMIT_SECTION && limit5g.Length3 == MAX_TX_COUNT
      && limit5g.Length4 == CENTER_CH_5G_ALL_NUM
      && limit2g != limit5g
    }

    /** No two diff tables are the same array. */
    ghost predicate Separate() {
      && cckDiff24 !in {ofdmDiff24, bw20Diff24, bw40Diff24, ofdmDiff5, bw20Diff5, bw40Diff5, bw80Diff5}
      && ofdmDiff24 !in {bw20Diff24, bw40Diff24, ofdmDiff5, bw20Diff5, bw40Diff5, bw80Diff5}
      && bw20Diff24 !in {bw40Diff24, ofdmDiff5, bw20Diff5, bw40Diff5, bw80Diff5}
      && bw40Diff24 !in {ofdmDiff5, bw20Diff5, bw40Diff5, bw80Diff5}
      && ofdmDiff5 !in {bw20Diff5, bw40Diff5, bw80Diff5}
      && bw20Diff5 !in {bw40Diff5, bw80Diff5}
      && bw40Diff5 !in {bw80Diff5}
    }

    function Table(d: DiffKind): array2<int8> {
      match d
      case Cck24 => cckDiff24
      case Ofdm24 => ofdmDiff24
      case Bw20At24 => bw20Diff24
      case Bw40At24 => bw40Diff24
      case Ofdm5 => ofdmDiff5
      case Bw20At5 => bw20Diff5
      case Bw40At5 => bw40Diff5
      case Bw80At5 => bw80Diff5
    }

    // ----- Layer 1: the PG block -----

    /** Copies `n` consecutive map bytes into one row. */
    method CopyBytes(path: nat, start: nat, n: nat, base: array2<byte>) returns (off: nat)
      requires Shape() && base.Length0 == MAX_RF_PATH && path < MAX_RF_PATH
      requires n <= base.Length1 && start + n <= MAP_LEN
      modifies base
      ensures off == start + n
      ensures forall g | 0 <= g < n :: base[path, g] == efuse[start + g]
      ensures OtherRowsKept(base, path)
    {
      off := start;
      var g := 0;
      while g < n
        invariant g <= n && off == start + g
        invariant forall i | 0 <= i < g :: base[path, i] == efuse[start + i]
        invariant OtherRowsKept(base, path)
      {
        base[path, g] := efuse[off];
        off := off + 1;
        g := g + 1;
      }
    }

    /** The two bytes of chain `t` at 2.4 GHz: four nibbles, one per table. */
    method ParsePair2G(path: nat, t: nat, start: nat) returns (off: nat)
      requires Shape() && path < MAX_RF_PATH && 1 <= t < MAX_TX_COUNT && start == BlockAt(path) + 10 + 2 * t
      modifies cckDiff24, ofdmDiff24, bw20Diff24, bw40Diff24
      ensures off == start + 2
      ensures RowHolds(ofdmDiff24, efuse[..], path, Ofdm24, t, t + 1) && RowHolds(bw20Diff24, efuse[..], path, Bw20At24, t, t + 1)
      ensures RowHolds(cckDiff24, efuse[..], path, Cck24, t, t + 1) && RowHolds(bw40Diff24, efuse[..], path, Bw40At24, t, t + 1)
      ensures OtherCellsKept(cckDiff24, path, t) && OtherCellsKept(ofdmDiff24, path, t)
      ensures OtherCellsKept(bw20Diff24, path, t) && OtherCellsKept(bw40Diff24, path, t)
    {
      hide MsbDiff, LsbDiff, PgDiff;
      off := start;
      NextDiffs(efuse[..], path, t);
      var v := efuse[off];
      off := off + 1;
      bw40Diff24[path, t] := MsbDiff(v);
      bw20Diff24[path, t] := LsbDiff(v);
      v := efuse[off];
      off := off + 1;
      ofdmDiff24[path, t] := MsbDiff(v);
      cckDiff24[path, t] := LsbDiff(v);
    }

    /** The 2.4 GHz diffs of one path: one byte for the first chain, two for each further one. */
    method ParseDiffs2G(path: nat, start: nat) returns (off: nat)
      requires Shape() && path < MAX_RF_PATH && start == BlockAt(path) + 11
      modifies cckDiff24, ofdmDiff24, bw20Diff24, bw40Diff24
      ensures off == start + 7
      ensures RowHolds(ofdmDiff24, efuse[..], path, Ofdm24, 0, 4) && RowHolds(bw20Diff24, efuse[..], path, Bw20At24, 0, 4)
      ensures RowHolds(cckDiff24, efuse[..], path, Cck24, 1, 4) && RowHolds(bw40Diff24, efuse[..], path, Bw40At24, 1, 4)
      ensures cckDiff24[path, 0] == old(cckDiff24[path, 0]) && bw40Diff24[path, 0] == old(bw40Diff24[path, 0])
      ensures OtherRowsKept(cckDiff24, path) && OtherRowsKept(ofdmDiff24, path)
      ensures OtherRowsKept(bw20Diff24, path) && OtherRowsKept(bw40Diff24, path)
    {
      hide MsbDiff, LsbDiff, PgDiff;
      off := start;
      ghost var e := efuse[..];
      var v := efuse[off];
      off := off + 1;
      bw20Diff24[path, 0] := MsbDiff(v);
      ofdmDiff24[path, 0] := LsbDiff(v);
      FirstDiffs(e, path);
      var t := 1;
      while t < 4
        invariant 1 <= t <= 4 && off == BlockAt(path) + 10 + 2 * t
        invariant RowHolds(ofdmDiff24, e, path, Ofdm24, 0, t) && RowHolds(bw20Diff24, e, path, Bw20At24, 0, t)
        invariant RowHolds(cckDiff24, e, path, Cck24, 1, t) && RowHolds(bw40Diff24, e, path, Bw40At24, 1, t)
        invariant cckDiff24[path, 0] == old(cckDiff24[path, 0]) && bw40Diff24[path, 0] == old(bw40Diff24[path, 0])
        invariant OtherRowsKept(cckDiff24, path) && OtherRowsKept(ofdmDiff24, path)
        invariant OtherRowsKept(bw20Diff24, path) && OtherRowsKept(bw40Diff24, path)
      {
        off := ParsePair2G(path, t, off);
        t := t + 1;
      }
    }

    /** The 5 GHz diffs of one path: ten bytes. */
    method ParseDiffs5G(path: nat, start: nat) returns (off: nat)
      requires Shape() && path < MAX_RF_PATH && start == BlockAt(path) + 32
      modifies ofdmDiff5, bw20Diff5, bw40Diff5, bw80Diff5
      ensures off == start + 10
      ensures RowHolds(ofdmDiff5, efuse[..], path, Ofdm5, 0, 4) && RowHolds(bw20Diff5, efuse[..], path, Bw20At5, 0, 4)
      ensures RowHolds(bw40Diff5, efuse[..], path, Bw40At5, 1, 4) && RowHolds(bw80Diff5, efuse[..], path, Bw80At5, 0, 4)
      ensures bw40Diff5[path, 0] == old(bw40Diff5[path, 0])
      ensures OtherRowsKept(ofdmDiff5, path) && OtherRowsKept(bw20Diff5, path)
      ensures OtherRowsKept(bw40Diff5, path) && OtherRowsKept(bw80Diff5, path)
    {
      hide MsbDiff, LsbDiff, PgDiff;
      off := start;
      ghost var e := efuse[..];
      var v := efuse[off];
      off := off + 1;
      bw20Diff5[path, 0] := MsbDiff(v);
      ofdmDiff5[path, 0] := LsbDiff(v);
      FirstDiffs(e, path);
      off := ParsePairs5G(path, off);
      v := efuse[off];
      off := off + 1;
      ofdmDiff5[path, 1] := MsbDiff(v);
      ofdmDiff5[path, 2] := LsbDiff(v);
      v := efuse[off];
      off := off + 1;
      ofdmDiff5[path, 3] := LsbDiff(v);
      off := ParseWide(path, off);
    }

    /** The three bytes of 40 and 20 MHz diffs of the second to fourth chain. */
    method ParsePairs5G(path: nat, start: nat) returns (off: nat)
      requires Shape() && path < MAX_RF_PATH && start == BlockAt(path) + 33
      modifies bw20Diff5, bw40Diff5
      ensures off == start + 3
      ensures RowHolds(bw40Diff5, efuse[..], path, Bw40At5, 1, 4) && RowHolds(bw20Diff5, efuse[..], path, Bw20At5, 1, 4)
      ensures bw40Diff5[path, 0] == old(bw40Diff5[path, 0]) && bw20Diff5[path, 0] == old(bw20Diff5[path, 0])
      ensures OtherRowsKept(bw20Diff5, path) && OtherRowsKept(bw40Diff5, path)
    {
      hide MsbDiff, LsbDiff, PgDiff;
      off := start;
      var t := 1;
      while t < 4
        invariant 1 <= t <= 4 && off == BlockAt(path) + 32 + t
        invariant RowHolds(bw40Diff5, efuse[..], path, Bw40At5, 1, t)
        invariant RowHolds(bw20Diff5, efuse[..], path, Bw20At5, 1, t)
        invariant bw40Diff5[path, 0] == old(bw40Diff5[path, 0]) && bw20Diff5[path, 0] == old(bw20Diff5[path, 0])
        invariant OtherRowsKept(bw20Diff5, path) && OtherRowsKept(bw40Diff5, path)
      {
        NextDiffs(efuse[..], path, t);
        var v := efuse[off];
        off := off + 1;
        bw40Diff5[path, t] := MsbDiff(v);
        bw20Diff5[path, t] := LsbDiff(v);
        t := t + 1;
      }
    }

    /** The four bytes of 80 MHz diffs; their low nibbles are passed over. */
    method ParseWide(path: nat, start: nat) returns (off: nat)
      requires Shape() && path < MAX_RF_PATH && start == BlockAt(path) + 38
      modifies bw80Diff5
      ensures off == start + 4
      ensures RowHolds(bw80Diff5, efuse[..], path, Bw80At5, 0, 4) && OtherRowsKept(bw80Diff5, path)
    {
      hide MsbDiff, PgDiff;
      off := start;
      var t := 0;
      while t < 4
        invariant t <= 4 && off == start + t
        invariant RowHolds(bw80Diff5, efuse[..], path, Bw80At5, 0, t)
        invariant OtherRowsKept(bw80Diff5, path)
      {
        WideDiff(efuse[..], path, t);
        var v := efuse[off];
        off := off + 1;
        bw80Diff5[path, t] := MsbDiff(v);
        t := t + 1;
      }
    }

    /** All eight diff rows of a path hold what the map says. */
    ghost predicate DiffsHold(e: seq<byte>, path: nat)
      requires Shape() && |e| == MAP_LEN && path < MAX_RF_PATH
      reads cckDiff24, ofdmDiff24, bw20Diff24, bw40Diff24, ofdmDiff5, bw20Diff5, bw40Diff5, bw80Diff5
    {
      && RowHolds(cckDiff24, e, path, Cck24, 0, 4) && RowHolds(ofdmDiff24, e, path, Ofdm24, 0, 4)
      && RowHolds(bw20Diff24, e, path, Bw20At24, 0, 4) && RowHolds(bw40Diff24, e, path, Bw40At24, 0, 4)
      && RowHolds(ofdmDiff5, e, path, Ofdm5, 0, 4) && RowHolds(bw20Diff5, e, path, Bw20At5, 0, 4)
      && RowHolds(bw40Diff5, e, path, Bw40At5, 0, 4) && RowHolds(bw80Diff5, e, path, Bw80At5, 0, 4)
    }

    /** The three diff slots of a path that the block has no nibble for. */
    ghost predicate SpareSlotsZero(path: nat)
      requires Shape() && path < MAX_RF_PATH
      reads cckDiff24, bw40Diff24, bw40Diff5
    {
      cckDiff24[path, 0] == 0 && bw40Diff24[path, 0] == 0 && bw40Diff5[path, 0] == 0
    }

    /** A row with its slot 0 known and the rest loaded is wholly loaded. */
    lemma WholeRow(a: array2<int8>, e: seq<byte>, path: nat, d: DiffKind)
      requires DiffShape(a) && |e| == MAP_LEN && path < MAX_RF_PATH
      requires d in {Cck24, Bw40At24, Bw40At5} && a[path, 0] == 0 && RowHolds(a, e, path, d, 1, 4)
      ensures RowHolds(a, e, path, d, 0, 4)
    {
      assert PgDiff(e, path, d, 0) == 0;
    }

    /** Stage 1 for one path at 2.4 GHz: 18 bytes into the group bases and four diff tables. */
    method Parse2G(path: nat, start: nat, cckBase: array2<byte>, base24: array2<byte>) returns (off: nat)
      requires Shape() && path < MAX_RF_PATH && start == BlockAt(path) && SpareSlotsZero(path)
      requires cckBase.Length0 == base24.Length0 == MAX_RF_PATH && cckBase.Length1 == base24.Length1 == GROUPS_2G
      requires cckBase != base24
      modifies cckBase, base24, cckDiff24, ofdmDiff24, bw20Diff24, bw40Diff24
      ensures off == BlockAt(path) + 18
      ensures forall g | 0 <= g < 6 :: cckBase[path, g] == efuse[BlockAt(path) + g]
      ensures forall g | 0 <= g < 5 :: base24[path, g] == efuse[BlockAt(path) + 6 + g]
      ensures RowHolds(cckDiff24, efuse[..], path, Cck24, 0, 4) && RowHolds(ofdmDiff24, efuse[..], path, Ofdm24, 0, 4)
      ensures RowHolds(bw20Diff24, efuse[..], path, Bw20At24, 0, 4) && RowHolds(bw40Diff24, efuse[..], path, Bw40At24, 0, 4)
      ensures OtherRowsKept(cckBase, path) && OtherRowsKept(base24, path)
      ensures OtherRowsKept(cckDiff24, path) && OtherRowsKept(ofdmDiff24, path)
      ensures OtherRowsKept(bw20Diff24, path) && OtherRowsKept(bw40Diff24, path)
      ensures SpareSlotsZero(path)
    {
      hide PgDiff, RowHolds;
      off := CopyBytes(path, start, 6, cckBase);
      off := CopyBytes(path, off, 5, base24);
      off := ParseDiffs2G(path, off);
      WholeRow(cckDiff24, efuse[..], path, Cck24);
      WholeRow(bw40Diff24, efuse[..], path, Bw40At24);
    }

    /** Stage 1 for one path at 5 GHz: 24 bytes. */
    method Parse5G(path: nat, start: nat, base5: array2<byte>) returns (off: nat)
      requires Shape() && path < MAX_RF_PATH && start == BlockAt(path) + 18 && SpareSlotsZero(path)
      requires base5.Length0 == MAX_RF_PATH && base5.Length1 == GROUPS_5G
      modifies base5, ofdmDiff5, bw20Diff5, bw40Diff5, bw80Diff5
      ensures off == BlockAt(path + 1)
      ensures forall g | 0 <= g < 14 :: base5[path, g] == efuse[BlockAt(path) + 18 + g]
      ensures RowHolds(ofdmDiff5, efuse[..], path, Ofdm5, 0, 4) && RowHolds(bw20Diff5, efuse[..], path, Bw20At5, 0, 4)
      ensures RowHolds(bw40Diff5, efuse[..], path, Bw40At5, 0, 4) && RowHolds(bw80Diff5, efuse[..], path, Bw80At5, 0, 4)
      ensures OtherRowsKept(base5, path) && OtherRowsKept(ofdmDiff5, path) && OtherRowsKept(bw20Diff5, path)
      ensures OtherRowsKept(bw40Diff5, path) && OtherRowsKept(bw80Diff5, path)
      ensures SpareSlotsZero(path)
    {
      hide PgDiff, RowHolds;
      off := CopyBytes(path, start, 14, base5);
      off := ParseDiffs5G(path, off);
      WholeRow(bw40Diff5, efuse[..], path, Bw40At5);
    }

    /** Group bases of a path, as stage 1 leaves them in its scratch tables. */
    ghost predicate BasesHold(path: nat, cckBase: array2<byte>, base24: array2<byte>, base5: array2<byte>)
      requires Shape() && path < MAX_RF_PATH
      requires cckBase.Length0 == base24.Length0 == base5.Length0 == MAX_RF_PATH
      requires cckBase.Length1 == base24.Length1 == GROUPS_2G && base5.Length1 == GROUPS_5G
      reads efuse, cckBase, base24, base5
    {
      && (forall g | 0 <= g < 6 :: cckBase[path, g] == efuse[BlockAt(path) + g])
      && (forall g | 0 <= g < 5 :: base24[path, g] == efuse[BlockAt(path) + 6 + g])
      && (forall g | 0 <= g < 14 :: base5[path, g] == efuse[BlockAt(path) + 18 + g])
    }

    /** Stage 1 for one path. */
    method ParsePath(path: nat, start: nat, cckBase: array2<byte>, base24: array2<byte>, base5: array2<byte>)
      returns (off: nat)
      requires Shape() && path < MAX_RF_PATH && start == BlockAt(path) && SpareSlotsZero(path)
      requires cckBase.Length0 == base24.Length0 == base5.Length0 == MAX_RF_PATH
      requires cckBase.Length1 == base24.Length1 == GROUPS_2G && base5.Length1 == GROUPS_5G
      requires cckBase != base24 && base24 != base5 && cckBase != base5
      modifies cckBase, base24, base5
      modifies cckDiff24, ofdmDiff24, bw20Diff24, bw40Diff24, ofdmDiff5, bw20Diff5, bw40Diff5, bw80Diff5
      ensures off == BlockAt(path + 1)
      ensures BasesHold(path, cckBase, base24, base5)
      ensures DiffsHold(efuse[..], path) && SpareSlotsZero(path)
      // what held of the other paths still does
      ensures forall p | 0 <= p < MAX_RF_PATH && p != path ::
                && (old(DiffsHold(efuse[..], p)) ==> DiffsHold(efuse[..], p))
                && (old(DiffsZero(p)) ==> DiffsZero(p))
                && (old(SpareSlotsZero(p)) ==> SpareSlotsZero(p))
                && (old(BasesHold(p, cckBase, base24, base5)) ==> BasesHold(p, cckBase, base24, base5))
    {
      hide PgDiff;
      off := Parse2G(path, start, cckBase, base24);
      off := Parse5G(path, off, base5);
      assert efuse[..] == old(efuse[..]);
    }

    /** All eight diff rows of a path are zero. */
    ghost predicate DiffsZero(path: nat)
      requires Shape() && path < MAX_RF_PATH
      reads cckDiff24, ofdmDiff24, bw20Diff24, bw40Diff24, ofdmDiff5, bw20Diff5, bw40Diff5, bw80Diff5
    {
      && ZeroRow(cckDiff24, path) && ZeroRow(ofdmDiff24, path) && ZeroRow(bw20Diff24, path)
      && ZeroRow(bw40Diff24, path) && ZeroRow(ofdmDiff5, path) && ZeroRow(bw20Diff5, path)
      && ZeroRow(bw40Diff5, path) && ZeroRow(bw80Diff5, path)
    }

    /** Stage 1: the byte stream of all active paths, read with one running cursor. */
    method ParseAll(cckBase: array2<byte>, base24: array2<byte>, base5: array2<byte>)
      requires Shape()
      requires cckBase.Length0 == base24.Length0 == base5.Length0 == MAX_RF_PATH
      requires cckBase.Length1 == base24.Length1 == GROUPS_2G && base5.Length1 == GROUPS_5G
      requires cckBase != base24 && base24 != base5 && cckBase != base5
      requires forall p | 0 <= p < MAX_RF_PATH :: SpareSlotsZero(p)
      modifies cckBase, base24, base5
      modifies cckDiff24, ofdmDiff24, bw20Diff24, bw40Diff24, ofdmDiff5, bw20Diff5, bw40Diff5, bw80Diff5
      ensures forall p | 0 <= p < numTotalRfPath :: DiffsHold(efuse[..], p) && BasesHold(p, cckBase, base24, base5)
      ensures forall p | 0 <= p < MAX_RF_PATH :: SpareSlotsZero(p)
      ensures forall p | numTotalRfPath <= p < MAX_RF_PATH && old(DiffsZero(p)) :: DiffsZero(p)
    {
      hide DiffsHold, DiffsZero, PgDiff, RowHolds;
      var off := PG_SADDR;
      var path := 0;
      while path < numTotalRfPath && path < MAX_RF_PATH
        invariant path <= numTotalRfPath && off == BlockAt(path)
        invariant forall p | 0 <= p < path :: DiffsHold(efuse[..], p) && BasesHold(p, cckBase, base24, base5)
        invariant forall p | 0 <= p < MAX_RF_PATH :: SpareSlotsZero(p)
        invariant forall p | numTotalRfPath <= p < MAX_RF_PATH && old(DiffsZero(p)) :: DiffsZero(p)
      {
        off := ParsePath(path, off, cckBase, base24, base5);
        path := path + 1;
      }
    }

    /** The per-channel base tables of a path hold what the map says. */
    ghost predicate Channels24Hold(e: seq<byte>, path: nat, hi: nat)
      requires Shape() && |e| == MAP_LEN && path < MAX_RF_PATH && hi <= CENTER_CH_2G_NUM
      reads cckBase24, bw40Base24
    {
      forall i: nat | i < hi ::
        && cckBase24[path, i] == CckBase(e, path, ClassifyChannel(i + 1).cckGroup)
        && bw40Base24[path, i] == Base24(e, path, ClassifyChannel(i + 1).group)
    }

    ghost predicate Channels5Hold(e: seq<byte>, path: nat, hi: nat)
      requires Shape() && |e| == MAP_LEN && path < MAX_RF_PATH && hi <= CENTER_CH_5G_ALL_NUM
      reads bw40Base5
    {
      forall i: nat | i < hi :: bw40Base5[path, i] == Base5(e, path, Group5(i))
    }

    /** Stage 2 at 2.4 GHz: groups to the 14 channels. */
    method Scatter2G(path: nat, cckBase: array2<byte>, base24: array2<byte>)
      requires Shape() && path < MAX_RF_PATH
      requires cckBase.Length0 == base24.Length0 == MAX_RF_PATH && cckBase.Length1 == base24.Length1 == GROUPS_2G
      requires cckBase != cckBase24 && cckBase != bw40Base24 && base24 != cckBase24 && base24 != bw40Base24
      requires forall g | 0 <= g < 6 :: cckBase[path, g] == efuse[BlockAt(path) + g]
      requires forall g | 0 <= g < 5 :: base24[path, g] == efuse[BlockAt(path) + 6 + g]
      modifies cckBase24, bw40Base24
      ensures Channels24Hold(efuse[..], path, CENTER_CH_2G_NUM)
      ensures OtherRowsKept(cckBase24, path) && OtherRowsKept(bw40Base24, path)
    {
      ghost var e := efuse[..];
      var i := 0;
      while i < CENTER_CH_2G_NUM
        invariant i <= CENTER_CH_2G_NUM && Channels24Hold(e, path, i)
        invariant OtherRowsKept(cckBase24, path) && OtherRowsKept(bw40Base24, path)
      {
        match ClassifyChannel(i + 1) {
          case Band2G(group, cckGroup) =>
            cckBase24[path, i] := cckBase[path, cckGroup];
            bw40Base24[path, i] := base24[path, group];
            assert cckBase24[path, i] == CckBase(e, path, cckGroup);
            assert bw40Base24[path, i] == Base24(e, path, group);
          case _ =>
        }
        i := i + 1;
      }
    }

    /** Stage 2 at 5 GHz: groups to the 65 channels of the index table. */
    method Scatter5G(path: nat, base5: array2<byte>)
      requires Shape() && path < MAX_RF_PATH
      requires base5.Length0 == MAX_RF_PATH && base5.Length1 == GROUPS_5G && base5 != bw40Base5
      requires forall g | 0 <= g < 14 :: base5[path, g] == efuse[BlockAt(path) + 18 + g]
      modifies bw40Base5
      ensures Channels5Hold(efuse[..], path, CENTER_CH_5G_ALL_NUM)
      ensures OtherRowsKept(bw40Base5, path)
    {
      hide ClassifyChannel;
      ghost var e := efuse[..];
      var i := 0;
      while i < CENTER_CH_5G_ALL_NUM
        invariant i <= CENTER_CH_5G_ALL_NUM && Channels5Hold(e, path, i)
        invariant OtherRowsKept(bw40Base5, path)
      {
        TableIs5G(i);
        match ClassifyChannel(CENTER_CH_5G[i]) {
          case Band5G(group) =>
            bw40Base5[path, i] := base5[path, group];
            assert bw40Base5[path, i] == Base5(e, path, group);
          case _ =>
        }
        i := i + 1;
      }
    }

    /** The tables of every active path hold what the map `e` says. */
    ghost predicate InfoHolds(e: seq<byte>)
      requires Shape() && |e| == MAP_LEN
      reads cckDiff24, ofdmDiff24, bw20Diff24, bw40Diff24, ofdmDiff5, bw20Diff5, bw40Diff5, bw80Diff5
      reads cckBase24, bw40Base24, bw40Base5
    {
      forall p | 0 <= p < numTotalRfPath :: PathHolds(e, p)
    }

    ghost predicate PathHolds(e: seq<byte>, p: nat)
      requires Shape() && |e| == MAP_LEN && p < MAX_RF_PATH
      reads cckDiff24, ofdmDiff24, bw20Diff24, bw40Diff24, ofdmDiff5, bw20Diff5, bw40Diff5, bw80Diff5
      reads cckBase24, bw40Base24, bw40Base5
    {
      DiffsHold(e, p) && Channels24Hold(e, p, CENTER_CH_2G_NUM) && Channels5Hold(e, p, CENTER_CH_5G_ALL_NUM)
    }

    /** What no load ever writes is still zero: the spare diff slots, and the rows of idle paths. */
    ghost predicate IdleZero()
      requires Shape()
      reads cckDiff24, ofdmDiff24, bw20Diff24, bw40Diff24, ofdmDiff5, bw20Diff5, bw40Diff5, bw80Diff5
      reads cckBase24, bw40Base24, bw40Base5
    {
      && (forall p | 0 <= p < MAX_RF_PATH :: SpareSlotsZero(p))
      && (forall p | numTotalRfPath <= p < MAX_RF_PATH :: DiffsZero(p) && BasesZero(p))
    }

    ghost predicate BasesZero(p: nat)
      requires Shape() && p < MAX_RF_PATH
      reads cckBase24, bw40Base24, bw40Base5
    {
      && (forall i | 0 <= i < CENTER_CH_2G_NUM :: cckBase24[p, i] == 0 && bw40Base24[p, i] == 0)
      && (forall i | 0 <= i < CENTER_CH_5G_ALL_NUM :: bw40Base5[p, i] == 0)
    }

    /** Loads the TX-power tables from the shadow map. Everything the tables then hold depends on
        the map alone, so a reload leaves what a first load from that map would. */
    method LoadTxPowerInfo()
      requires Shape() && IdleZero()
      modifies this`txPowerInfoLoaded
      modifies cckDiff24, ofdmDiff24, bw20Diff24, bw40Diff24, ofdmDiff5, bw20Diff5, bw40Diff5, bw80Diff5
      modifies cckBase24, bw40Base24, bw40Base5
      ensures InfoHolds(efuse[..]) && IdleZero() && txPowerInfoLoaded
    {
      hide InfoHolds, IdleZero;
      var cckBase := new byte[MAX_RF_PATH, GROUPS_2G]((i, j) => 0);
      var base24 := new byte[MAX_RF_PATH, GROUPS_2G]((i, j) => 0);
      var base5 := new byte[MAX_RF_PATH, GROUPS_5G]((i, j) => 0);
      RunStages(cckBase, base24, base5);
      txPowerInfoLoaded := true;
    }

    /** Both stages, over scratch tables for the group bases. */
    method RunStages(cckBase: array2<byte>, base24: array2<byte>, base5: array2<byte>)
      requires Shape() && IdleZero()
      requires cckBase.Length0 == base24.Length0 == base5.Length0 == MAX_RF_PATH
      requires cckBase.Length1 == base24.Length1 == GROUPS_2G && base5.Length1 == GROUPS_5G
      requires {cckBase, base24, base5} !! {cckBase24, bw40Base24, bw40Base5}
      requires cckBase != base24 && base24 != base5 && cckBase != base5
      modifies cckBase, base24, base5
      modifies cckDiff24, ofdmDiff24, bw20Diff24, bw40Diff24, ofdmDiff5, bw20Diff5, bw40Diff5, bw80Diff5
      modifies cckBase24, bw40Base24, bw40Base5
      ensures InfoHolds(efuse[..]) && IdleZero()
    {
      hide DiffsHold, DiffsZero, SpareSlotsZero, BasesHold, BasesZero, Channels24Hold, Channels5Hold;
      ParseAll(cckBase, base24, base5);
      ScatterAll(cckBase, base24, base5);
    }

    /** Stage 2: groups to channels, for all active paths. */
    method ScatterAll(cckBase: array2<byte>, base24: array2<byte>, base5: array2<byte>)
      requires Shape()
      requires cckBase.Length0 == base24.Length0 == base5.Length0 == MAX_RF_PATH
      requires cckBase.Length1 == base24.Length1 == GROUPS_2G && base5.Length1 == GROUPS_5G
      requires {cckBase, base24, base5} !! {cckBase24, bw40Base24, bw40Base5}
      requires forall p | 0 <= p < numTotalRfPath :: BasesHold(p, cckBase, base24, base5)
      modifies cckBase24, bw40Base24, bw40Base5
      ensures forall p | 0 <= p < numTotalRfPath ::
                Channels24Hold(efuse[..], p, CENTER_CH_2G_NUM) && Channels5Hold(efuse[..], p, CENTER_CH_5G_ALL_NUM)
      ensures forall p | numTotalRfPath <= p < MAX_RF_PATH && old(BasesZero(p)) :: BasesZero(p)
    {
      hide BasesHold, BasesZero, Channels24Hold, Channels5Hold;
      var path := 0;
      while path < numTotalRfPath && path < MAX_RF_PATH
        invariant path <= numTotalRfPath
        invariant forall p | 0 <= p < path ::
                    Channels24Hold(efuse[..], p, CENTER_CH_2G_NUM) && Channels5Hold(efuse[..], p, CENTER_CH_5G_ALL_NUM)
        invariant forall p | numTotalRfPath <= p < MAX_RF_PATH && old(BasesZero(p)) :: BasesZero(p)
      {
        Scatter(path, cckBase, base24, base5);
        path := path + 1;
      }
    }

    /** Stage 2 for one path. */
    method Scatter(path: nat, cckBase: array2<byte>, base24: array2<byte>, base5: array2<byte>)
      requires Shape() && path < MAX_RF_PATH
      requires cckBase.Length0 == base24.Length0 == base5.Length0 == MAX_RF_PATH
      requires cckBase.Length1 == base24.Length1 == GROUPS_2G && base5.Length1 == GROUPS_5G
      requires {cckBase, base24, base5} !! {cckBase24, bw40Base24, bw40Base5}
      requires BasesHold(path, cckBase, base24, base5)
      modifies cckBase24, bw40Base24, bw40Base5
      ensures Channels24Hold(efuse[..], path, CENTER_CH_2G_NUM)
      ensures Channels5Hold(efuse[..], path, CENTER_CH_5G_ALL_NUM)
      ensures forall p | 0 <= p < MAX_RF_PATH && p != path ::
                && (old(Channels24Hold(efuse[..], p, CENTER_CH_2G_NUM)) ==> Channels24Hold(efuse[..], p, CENTER_CH_2G_NUM))
                && (old(Channels5Hold(efuse[..], p, CENTER_CH_5G_ALL_NUM)) ==> Channels5Hold(efuse[..], p, CENTER_CH_5G_ALL_NUM))
                && (old(BasesZero(p)) ==> BasesZero(p))
    {
      hide ClassifyChannel, Group5;
      Scatter2G(path, cckBase, base24);
      Scatter5G(path, base5);
      assert efuse[..] == old(efuse[..]);
    }

    // ----- Layer 2: the by-rate table -----

    /** The offset table holds the raw values of the first `n` rows. */
    ghost predicate RawHolds(rows: seq<dword>, n: nat)
      requires Shape() && n <= ByRate.NumRows(rows)
      reads byRateOffset
    {
      forall b, p, i | 0 <= b < 2 && 0 <= p < MAX_RF_PATH && 0 <= i < NUM_RATE_IDX ::
        byRateOffset[b, p, i] == ByRate.Raw(rows, n, b, p, i)
    }

    /** Cells of (band, path) below `hi` are normalised. */
    ghost predicate OffsetsHold(rows: seq<dword>, b: nat, p: nat, hi: nat)
      requires Shape() && b < 2 && p < MAX_RF_PATH && hi <= NUM_RATE_IDX
      reads byRateOffset
    {
      forall i | 0 <= i < hi :: byRateOffset[b, p, i] == ByRate.Offset(rows, numTotalRfPath, b, p, i)
    }

    ghost predicate SectionBasesHold(rows: seq<dword>, b: nat, p: nat, hi: nat)
      requires Shape() && b < 2 && p < MAX_RF_PATH && hi <= NUM_RATE_SECTION
      reads byRateBase
    {
      forall rs | 0 <= rs < hi :: byRateBase[b, p, rs] == ByRate.SectionBase(rows, numTotalRfPath, b, p, rs)
    }

    /** The by-rate tables are what `rows` say, normalised on every active path. */
    ghost predicate ByRateHolds(rows: seq<dword>)
      requires Shape()
      reads byRateOffset, byRateBase
    {
      forall b, p | 0 <= b < 2 && 0 <= p < MAX_RF_PATH ::
        OffsetsHold(rows, b, p, NUM_RATE_IDX) && SectionBasesHold(rows, b, p, NUM_RATE_SECTION)
    }

    /** First entry of the register map for `reg`, -1 when there is none. */
    static method FindRateRow(reg: nat) returns (at: int)
      ensures -1 <= at < |ByRate.RATE_MAP| == 24
      ensures at >= 0 ==> ByRate.RATE_MAP[at].reg == reg
      ensures at < 0 ==> ByRate.BankSlot(reg) == -1
    {
      ByRate.RateMapRow(0);
      at := 0;
      while at < |ByRate.RATE_MAP|
        invariant 0 <= at <= 24
        invariant forall j | 0 <= j < at :: ByRate.RATE_MAP[j].reg != reg
      {
        if ByRate.RATE_MAP[at].reg == reg {
          return;
        }
        at := at + 1;
      }
      var k := ByRate.BankSlot(reg);
      if k >= 0 {
        ByRate.RateMapRow(k);
        ByRate.RateMapRow(k + 12);
      }
      at := -1;
    }

    /** One row of the register table: its four bytes go to the cells of its band and path. */
    method ApplyRow(rows: seq<dword>, r: nat)
      requires Shape() && r < ByRate.NumRows(rows) && RawHolds(rows, r)
      modifies byRateOffset
      ensures RawHolds(rows, r + 1)
    {
      var band, rfPath := rows[r * ByRate.ROW_WORDS], rows[r * ByRate.ROW_WORDS + 1];
      var addr, data := rows[r * ByRate.ROW_WORDS + 3], rows[r * ByRate.ROW_WORDS + 5];
      if band >= 2 || rfPath >= MAX_RF_PATH {
        return;
      }
      var reg := addr % 0x1_0000;
      var at := FindRateRow(reg);
      if at < 0 {
        return;
      }
      ByRate.RateMapRow(at);
      ghost var first := ByRate.FirstIdx(ByRate.BankSlot(reg));
      var i := 0;
      while i < |ByRate.RATE_MAP[at].rates|
        invariant i <= 4
        invariant forall b, p, k | 0 <= b < 2 && 0 <= p < MAX_RF_PATH && 0 <= k < NUM_RATE_IDX ::
                    byRateOffset[b, p, k] ==
                    if b == band && p == rfPath && first <= k < first + i then ToInt8(ByRate.ByteOf(data, k - first))
                    else ByRate.Raw(rows, r, b, p, k)
      {
        var idx := RateToIdx(ByRate.RATE_MAP[at].rates[i]);
        if idx >= 0 {
          var val := ByRate.ByteOf(data, i);
          byRateOffset[band, rfPath, idx] := ToInt8(val);
        }
        i := i + 1;
      }
    }

    /** Stage 1: reset, then the raw values in row order. */
    method LoadRaw(rows: seq<dword>)
      requires Shape()
      modifies byRateOffset, byRateBase
      ensures RawHolds(rows, ByRate.NumRows(rows))
      ensures forall b, p, rs | 0 <= b < 2 && 0 <= p < MAX_RF_PATH && 0 <= rs < NUM_RATE_SECTION :: byRateBase[b, p, rs] == 0
    {
      forall b, p, i | 0 <= b < 2 && 0 <= p < MAX_RF_PATH && 0 <= i < NUM_RATE_IDX {
        byRateOffset[b, p, i] := 0;
      }
      forall b, p, i | 0 <= b < 2 && 0 <= p < MAX_RF_PATH && 0 <= i < NUM_RATE_SECTION {
        byRateBase[b, p, i] := 0;
      }
      var r := 0;
      while r < ByRate.NumRows(rows)
        invariant r <= ByRate.NumRows(rows) && RawHolds(rows, r)
        modifies byRateOffset
      {
        ApplyRow(rows, r);
        r := r + 1;
      }
    }

    /** Stage 2 for one band and path: the value at each section's base rate. */
    method CaptureBases(rows: seq<dword>, b: nat, p: nat)
      requires Shape() && b < 2 && p < numTotalRfPath && RawHolds(rows, ByRate.NumRows(rows))
      modifies byRateBase
      ensures SectionBasesHold(rows, b, p, NUM_RATE_SECTION)
      ensures forall c, q | 0 <= c < 2 && 0 <= q < MAX_RF_PATH && (c != b || q != p) ::
                old(SectionBasesHold(rows, c, q, NUM_RATE_SECTION)) ==> SectionBasesHold(rows, c, q, NUM_RATE_SECTION)
    {
      hide RateToIdx, SectionOfIdx;
      var rs := 0;
      while rs < NUM_RATE_SECTION
        invariant rs <= NUM_RATE_SECTION && SectionBasesHold(rows, b, p, rs)
        invariant forall c, q, k | 0 <= c < 2 && 0 <= q < MAX_RF_PATH && 0 <= k < NUM_RATE_SECTION && (c != b || q != p) ::
                    byRateBase[c, q, k] == old(byRateBase[c, q, k])
      {
        ghost var idx := BaseIdx(rs);
        var baseIdx := RateToIdx(SECTION_BASE_RATE[rs]);
        if baseIdx >= 0 {
          byRateBase[b, p, rs] := ToByte(byRateOffset[b, p, baseIdx]);
        }
        rs := rs + 1;
      }
    }

    /** Stage 3 for one band and path: each raw value less its section base, in place. */
    method Normalise(rows: seq<dword>, b: nat, p: nat)
      requires Shape() && b < 2 && p < numTotalRfPath && SectionBasesHold(rows, b, p, NUM_RATE_SECTION)
      requires forall i | 0 <= i < NUM_RATE_IDX :: byRateOffset[b, p, i] == ByRate.RawCell(rows, b, p, i)
      modifies byRateOffset
      ensures OffsetsHold(rows, b, p, NUM_RATE_IDX)
      ensures forall c, q, i | 0 <= c < 2 && 0 <= q < MAX_RF_PATH && 0 <= i < NUM_RATE_IDX && (c != b || q != p) ::
                byRateOffset[c, q, i] == old(byRateOffset[c, q, i])
      ensures forall c, q | 0 <= c < 2 && 0 <= q < MAX_RF_PATH && (c != b || q != p) ::
                old(OffsetsHold(rows, c, q, NUM_RATE_IDX)) ==> OffsetsHold(rows, c, q, NUM_RATE_IDX)
    {
      hide IdxToRate, RateToSection, SectionOfIdx, ToInt8;
      var idx := 0;
      while idx < NUM_RATE_IDX
        invariant idx <= NUM_RATE_IDX && OffsetsHold(rows, b, p, idx)
        invariant forall i | idx <= i < NUM_RATE_IDX :: byRateOffset[b, p, i] == ByRate.RawCell(rows, b, p, i)
        invariant forall c, q, i | 0 <= c < 2 && 0 <= q < MAX_RF_PATH && 0 <= i < NUM_RATE_IDX && (c != b || q != p) ::
                    byRateOffset[c, q, i] == old(byRateOffset[c, q, i])
      {
        SectionAgrees(idx);
        var section := RateToSection(IdxToRate(idx));
        if section >= 0 {
          var raw: int := byRateOffset[b, p, idx];
          var base: int := byRateBase[b, p, section];
          byRateOffset[b, p, idx] := ToInt8(raw - base);
        }
        idx := idx + 1;
      }
    }

    /** Loads and normalises the by-rate table. It resets first, so the outcome is the same from
        every prior state. */
    method LoadTxPowerByRate(rows: seq<dword>)
      requires Shape()
      modifies this`txPwrByRateLoaded, byRateOffset, byRateBase
      ensures ByRateHolds(rows) && txPwrByRateLoaded
    {
      LoadRaw(rows);
      CaptureAll(rows);
      NormaliseAll(rows);
      txPwrByRateLoaded := true;
    }

    method CaptureAll(rows: seq<dword>)
      requires Shape() && RawHolds(rows, ByRate.NumRows(rows))
      requires forall b, p, rs | 0 <= b < 2 && 0 <= p < MAX_RF_PATH && 0 <= rs < NUM_RATE_SECTION :: byRateBase[b, p, rs] == 0
      modifies byRateBase
      ensures forall b, p | 0 <= b < 2 && 0 <= p < MAX_RF_PATH :: SectionBasesHold(rows, b, p, NUM_RATE_SECTION)
    {
      hide RawHolds, BaseIdx;
      assert forall b, p | 0 <= b < 2 && numTotalRfPath <= p < MAX_RF_PATH :: SectionBasesHold(rows, b, p, NUM_RATE_SECTION);
      hide SectionBasesHold;
      var band := 0;
      while band < 2
        invariant band <= 2
        invariant forall b, p | 0 <= b < 2 && 0 <= p < MAX_RF_PATH && (b < band || p >= numTotalRfPath) ::
                    SectionBasesHold(rows, b, p, NUM_RATE_SECTION)
      {
        var path := 0;
        while path < numTotalRfPath && path < MAX_RF_PATH
          invariant path <= numTotalRfPath
          invariant forall b, p | 0 <= b < 2 && 0 <= p < MAX_RF_PATH && (b < band || (b == band && p < path) || p >= numTotalRfPath) ::
                      SectionBasesHold(rows, b, p, NUM_RATE_SECTION)
        {
          CaptureBases(rows, band, path);
          path := path + 1;
        }
        band := band + 1;
      }
    }

    method NormaliseAll(rows: seq<dword>)
      requires Shape() && RawHolds(rows, ByRate.NumRows(rows))
      requires forall b, p | 0 <= b < 2 && 0 <= p < MAX_RF_PATH :: SectionBasesHold(rows, b, p, NUM_RATE_SECTION)
      modifies byRateOffset
      ensures ByRateHolds(rows)
    {
      hide SectionBasesHold, SectionOfIdx;
      assert forall b, p | 0 <= b < 2 && numTotalRfPath <= p < MAX_RF_PATH :: OffsetsHold(rows, b, p, NUM_RATE_IDX);
      hide OffsetsHold;
      var band := 0;
      while band < 2
        invariant band <= 2
        invariant forall b, p | 0 <= b < 2 && 0 <= p < MAX_RF_PATH && (b < band || p >= numTotalRfPath) ::
                    OffsetsHold(rows, b, p, NUM_RATE_IDX)
        invariant forall b, p, i | band <= b < 2 && 0 <= p < MAX_RF_PATH && 0 <= i < NUM_RATE_IDX ::
                    byRateOffset[b, p, i] == ByRate.RawCell(rows, b, p, i)
      {
        var path := 0;
        while path < numTotalRfPath && path < MAX_RF_PATH
          invariant path <= numTotalRfPath
          invariant forall b, p | 0 <= b < 2 && 0 <= p < MAX_RF_PATH && (b < band || (b == band && p < path) || p >= numTotalRfPath) ::
                      OffsetsHold(rows, b, p, NUM_RATE_IDX)
          invariant forall b, p, i | band <= b < 2 && 0 <= p < MAX_RF_PATH && (b == band ==> p >= path) && 0 <= i < NUM_RATE_IDX ::
                      byRateOffset[b, p, i] == ByRate.RawCell(rows, b, p, i)
        {
          Normalise(rows, band, path);
          path := path + 1;
        }
        band := band + 1;
      }
    }

    // ----- Layer 3: the regulatory limits -----

    /** Every limit cell is what a plain scan of the first `n` rows gives. */
    ghost predicate Limits2Hold(strings: seq<string>, n: nat)
      requires Shape() && n <= Limits.NumRows(strings)
      reads limit2g
    {
      forall r, w, s, t, c | 0 <= r < 4 && 0 <= w < 2 && 0 <= s < 4 && 0 <= t < 4 && 0 <= c < CENTER_CH_2G_NUM ::
        limit2g[r, w, s, t, c] == Limits.LimitAt(strings, n, Limits.Cell(r, 0, w, s, t, c))
    }

    ghost predicate Limits5Hold(strings: seq<string>, n: nat)
      requires Shape() && n <= Limits.NumRows(strings)
      reads limit5g
    {
      forall r, w, s, t, c | 0 <= r < 4 && 0 <= w < 4 && 0 <= s < 4 && 0 <= t < 4 && 0 <= c < CENTER_CH_5G_ALL_NUM ::
        limit5g[r, w, s, t, c] == Limits.LimitAt(strings, n, Limits.Cell(r, 1, w, s, t, c))
    }

    ghost predicate LimitsHold(strings: seq<string>)
      requires Shape()
      reads limit2g, limit5g
    {
      Limits2Hold(strings, Limits.NumRows(strings)) && Limits5Hold(strings, Limits.NumRows(strings))
    }

    /** Linear search of the 5 GHz channel table. */
    static method FindChannel5G(ch: byte) returns (at: int)
      ensures at >= 0 ==> Limits.FirstIndex(CENTER_CH_5G, ch) == Some(at)
      ensures at < 0 ==> Limits.FirstIndex(CENTER_CH_5G, ch) == None
      ensures -1 <= at < CENTER_CH_5G_ALL_NUM == |CENTER_CH_5G|
    {
      Limits.TableLength();
      ghost var found := Limits.FirstIndex(CENTER_CH_5G, ch);
      at := 0;
      while at < CENTER_CH_5G_ALL_NUM
        invariant 0 <= at <= CENTER_CH_5G_ALL_NUM
        invariant forall j | 0 <= j < at :: CENTER_CH_5G[j] != ch
      {
        if CENTER_CH_5G[at] == ch {
          assert found.Some? && found.value <= at;
          return;
        }
        at := at + 1;
      }
      at := -1;
    }

    /** One row of the limit table. A row that does not read as a cell changes nothing. */
    method ApplyLimit(strings: seq<string>, r: nat)
      requires Shape() && r < Limits.NumRows(strings)
      requires Limits2Hold(strings, r) && Limits5Hold(strings, r)
      modifies limit2g, limit5g
      ensures Limits2Hold(strings, r + 1) && Limits5Hold(strings, r + 1)
    {
      hide Limits.LimitAt, Limits.RowSays;
      var write, cell, val := ReadLimitRow(strings, r);
      forall c: Limits.Cell {
        ScanStep(strings, r, c);
      }
      if !write {
        return;
      }
      if cell.band == 0 {
        limit2g[cell.regulation, cell.bw, cell.section, cell.ntx, cell.channel] := val;
      } else {
        limit5g[cell.regulation, cell.bw, cell.section, cell.ntx, cell.channel] := val;
      }
    }

    /** What one more row does to the scan of a cell. */
    static lemma ScanStep(strings: seq<string>, r: nat, c: Limits.Cell)
      requires r < Limits.NumRows(strings)
      ensures var said := Limits.RowSays(strings, r);
        Limits.LimitAt(strings, r + 1, c)
        == if said.Some? && said.value.cell == c then said.value.value else Limits.LimitAt(strings, r, c)
    {
      hide Limits.RowSays;
    }

    /** Reads the seven strings of a row, one after the other, giving up at the first that is unknown. */
    static method ReadLimitRow(strings: seq<string>, r: nat) returns (write: bool, cell: Limits.Cell, val: int8)
      requires r < Limits.NumRows(strings)
      ensures write <==> Limits.RowSays(strings, r).Some?
      ensures write ==> Limits.RowSays(strings, r).value == Limits.RowSaying(cell, val) && Limits.ValidCell(cell)
    {
      hide Limits.FirstIndex, CENTER_CH_5G;
      var i := r * Limits.ROW_STRINGS;
      write, cell, val := false, Limits.Cell(0, 0, 0, 0, 0, 0), 0;
      var reg := Limits.RegulationOf(strings[i]);
      if reg.None? {
        return;
      }
      var band := Limits.BandOf(strings[i + 1]);
      if band.None? {
        return;
      }
      var bw := Limits.BandwidthOf(strings[i + 2]);
      if bw.None? {
        return;
      }
      var rs := Limits.RateSectionOf(strings[i + 3]);
      if rs.None? {
        return;
      }
      var ntx := Limits.TxCountOf(strings[i + 4]);
      if ntx.None? {
        return;
      }
      var ch := Decimal.ParseDecimal(strings[i + 5]);
      var v := Decimal.ParseDecimal(strings[i + 6]);
      if bw.value >= Limits.NumBandwidths(band.value) {
        return;
      }
      var chIdx: int := -1;
      if band.value == 0 {
        chIdx := if 1 <= ch <= 14 then ch - 1 else -1;
      } else {
        chIdx := FindChannel5G(ch);
      }
      if chIdx < 0 {
        return;
      }
      Limits.RowsNameValidCells(strings, r);
      write := true;
      cell := Limits.Cell(reg.value, band.value, bw.value, rs.value, ntx.value, chIdx);
      val := ToInt8(v);
    }

    /** Resets every limit to "none", applies an optional override of the active regulation, and
        indexes the rows. */
    method LoadTxPowerLimit(strings: seq<string>, override: Option<string>)
      requires Shape()
      modifies this`txPwrLimitLoaded, this`currentRegulation, limit2g, limit5g
      ensures LimitsHold(strings) && txPwrLimitLoaded
      ensures currentRegulation == match override case None => old(currentRegulation) case Some(name) => Limits.OverrideOf(name)
    {
      forall r, w, s, t, c | 0 <= r < 4 && 0 <= w < 2 && 0 <= s < 4 && 0 <= t < 4 && 0 <= c < CENTER_CH_2G_NUM {
        limit2g[r, w, s, t, c] := 63;
      }
      forall r, w, s, t, c | 0 <= r < 4 && 0 <= w < 4 && 0 <= s < 4 && 0 <= t < 4 && 0 <= c < CENTER_CH_5G_ALL_NUM {
        limit5g[r, w, s, t, c] := 63;
      }
      if override.Some? {
        SetRegulation(override.value);
      }
      IndexRows(strings);
      txPwrLimitLoaded := true;
    }

    method SetRegulation(name: string)
      modifies this`currentRegulation
      ensures currentRegulation == Limits.OverrideOf(name)
    {
      var isEtsi := Limits.StrCaseEq(name, "ETSI");
      var isMkk := Limits.StrCaseEq(name, "MKK");
      var isWw := Limits.StrCaseEq(name, "WW");
      if isEtsi {
        currentRegulation := 1;
      } else if isMkk {
        currentRegulation := 2;
      } else if isWw {
        currentRegulation := 3;
      } else {
        currentRegulation := 0;
      }
    }

    method IndexRows(strings: seq<string>)
      requires Shape() && Limits2Hold(strings, 0) && Limits5Hold(strings, 0)
      modifies limit2g, limit5g
      ensures LimitsHold(strings)
    {
      hide Limits2Hold, Limits5Hold;
      var r := 0;
      while r * Limits.ROW_STRINGS + 6 < |strings|
        invariant r <= Limits.NumRows(strings) && Limits2Hold(strings, r) && Limits5Hold(strings, r)
        decreases Limits.NumRows(strings) - r
      {
        ApplyLimit(strings, r);
        r := r + 1;
      }
    }

    // ----- The query -----

    /** Sum of the first `n` diffs of a table row. */
    static ghost function TableSum(a: array2<int8>, path: nat, n: nat): int
      requires DiffShape(a) && path < MAX_RF_PATH && n <= MAX_TX_COUNT
      reads a
      decreases n, path
    {
      if n == 0 then 0 else TableSum(a, path, n - 1) + a[path, n - 1]
    }

    static lemma LoadedSum(a: array2<int8>, e: seq<byte>, path: nat, d: DiffKind, n: nat)
      requires DiffShape(a) && |e| == MAP_LEN && path < MAX_RF_PATH && n <= MAX_TX_COUNT
      requires RowHolds(a, e, path, d, 0, 4)
      ensures TableSum(a, path, n) == Query.DiffSum(e, path, d, n)
    {
      hide PgDiff;
      if n > 0 {
        LoadedSum(a, e, path, d, n - 1);
      }
    }

    /** Legacy rates: the first diff and one more per further transmit chain, at most four. */
    static method ChainDiffs(a: array2<int8>, path: nat, ntxIdx: nat) returns (sum: int)
      requires DiffShape(a) && path < MAX_RF_PATH
      ensures sum == TableSum(a, path, Min(ntxIdx, 3) + 1)
    {
      Unroll(a, path);
      sum := a[path, 0];
      if ntxIdx >= 1 {
        sum := sum + a[path, 1];
      }
      if ntxIdx >= 2 {
        sum := sum + a[path, 2];
      }
      if ntxIdx >= 3 {
        sum := sum + a[path, 3];
      }
    }

    static lemma Unroll(a: array2<int8>, path: nat)
      requires DiffShape(a) && path < MAX_RF_PATH
      ensures TableSum(a, path, 0) == 0 && TableSum(a, path, 1) == a[path, 0]
      ensures TableSum(a, path, 2) == a[path, 0] + a[path, 1]
      ensures TableSum(a, path, 3) == a[path, 0] + a[path, 1] + a[path, 2]
      ensures TableSum(a, path, 4) == a[path, 0] + a[path, 1] + a[path, 2] + a[path, 3]
    {
      var one := TableSum(a, path, 1);
      var two := TableSum(a, path, 2);
      var three := TableSum(a, path, 3);
    }

    /** HT and VHT rates: cumulative over the rate ranges, one diff per stream. */
    static method StreamDiffs(a: array2<int8>, path: nat, rate: byte) returns (sum: int)
      requires DiffShape(a) && path < MAX_RF_PATH
      ensures sum == TableSum(a, path, Streams(rate))
    {
      Unroll(a, path);
      var isMcs0To7, isMcs8To15 := 0x80 <= rate <= 0x87, 0x88 <= rate <= 0x8F;
      var isMcs16To23, isMcs24To31 := 0x90 <= rate <= 0x97, 0x98 <= rate <= 0x9F;
      var isVht1, isVht2 := 0xA0 <= rate <= 0xA9, 0xAA <= rate <= 0xB3;
      var isVht3, isVht4 := 0xB4 <= rate <= 0xBD, 0xBE <= rate <= 0xC7;
      var atLeast4 := isMcs24To31 || isVht4;
      var atLeast3 := isMcs16To23 || isVht3 || atLeast4;
      var atLeast2 := isMcs8To15 || isVht2 || atLeast3;
      var atLeast1 := isMcs0To7 || isVht1 || atLeast2;
      sum := 0;
      if atLeast1 {
        sum := sum + a[path, 0];
      }
      if atLeast2 {
        sum := sum + a[path, 1];
      }
      if atLeast3 {
        sum := sum + a[path, 2];
      }
      if atLeast4 {
        sum := sum + a[path, 3];
      }
    }

    /** Base power as the tables hold it. `band` and `idx` locate the channel. */
    ghost function TableBase(path: nat, rate: byte, ntxIdx: nat, bandwidth: nat, band: nat, idx: nat): int
      requires Shape() && path < MAX_RF_PATH
      requires idx < if band == 0 then CENTER_CH_2G_NUM else CENTER_CH_5G_ALL_NUM
      reads cckDiff24, ofdmDiff24, bw20Diff24, bw40Diff24, ofdmDiff5, bw20Diff5, bw40Diff5, bw80Diff5
      reads cckBase24, bw40Base24, bw40Base5
    {
      var fiveG := band != 0;
      var base: int := if fiveG then bw40Base5[path, idx]
                       else if IsCck(rate) then cckBase24[path, idx] else bw40Base24[path, idx];
      base + TableSum(Table(Query.KindFor(fiveG, rate, bandwidth)), path, Query.Terms(fiveG, rate, ntxIdx))
    }

    /** Layer 1 of a query, table by table. */
    method BasePower(path: nat, rate: byte, ntxIdx: nat, bandwidth: nat, band: nat, idx: nat) returns (txPower: int)
      requires Shape() && path < MAX_RF_PATH
      requires idx < if band == 0 then CENTER_CH_2G_NUM else CENTER_CH_5G_ALL_NUM
      ensures txPower == TableBase(path, rate, ntxIdx, bandwidth, band, idx)
    {
      hide TableSum, Streams;
      var add;
      if band == 0 {
        if IsCck(rate) {
          add := ChainDiffs(cckDiff24, path, ntxIdx);
          return cckBase24[path, idx] + add;
        }
        if IsOfdm(rate) {
          add := ChainDiffs(ofdmDiff24, path, ntxIdx);
        } else if bandwidth == 0 {
          add := StreamDiffs(bw20Diff24, path, rate);
        } else {
          add := StreamDiffs(bw40Diff24, path, rate);
        }
        return bw40Base24[path, idx] + add;
      }
      if IsOfdm(rate) {
        add := ChainDiffs(ofdmDiff5, path, ntxIdx);
      } else if bandwidth == 0 {
        add := StreamDiffs(bw20Diff5, path, rate);
      } else if bandwidth == 1 {
        add := StreamDiffs(bw40Diff5, path, rate);
      } else {
        add := StreamDiffs(bw80Diff5, path, rate);
      }
      txPower := bw40Base5[path, idx] + add;
    }

    ghost function TableOffset(enabled: bool, band: nat, path: nat, rate: byte): int
      requires Shape() && path < MAX_RF_PATH && band < 2
      reads this, byRateOffset
    {
      if enabled && txPwrByRateLoaded && Query.ByRateApplies(band, rate) then byRateOffset[band, path, RateToIdx(rate)]
      else 0
    }

    ghost function TableLimit(band: nat, rate: byte, ntxIdx: nat, bandwidth: nat, idx: nat): int
      requires Shape() && band < 2 && currentRegulation < Limits.NUM_REGULATIONS
      requires idx < if band == 0 then CENTER_CH_2G_NUM else CENTER_CH_5G_ALL_NUM
      reads this, limit2g, limit5g
    {
      var section := Query.LimitSection(rate);
      if txPwrLimitLoaded && section.Some? && bandwidth < Limits.NumBandwidths(band) && ntxIdx < MAX_TX_COUNT then
        Query.EffectiveLimit(
          if band == 0 then limit2g[currentRegulation, bandwidth, section.value, ntxIdx, idx]
          else limit5g[currentRegulation, bandwidth, section.value, ntxIdx, idx])
      else Query.TXGI_MAX
    }

    /** The answer of a query over whatever the tables hold. */
    ghost function TablePower(enabled: bool, path: nat, rate: byte, ntxIdx: nat, bandwidth: nat, ch: byte): byte
      requires Shape() && currentRegulation < Limits.NUM_REGULATIONS
      reads this, byRateOffset, limit2g, limit5g
      reads cckDiff24, ofdmDiff24, bw20Diff24, bw40Diff24, ofdmDiff5, bw20Diff5, bw40Diff5, bw80Diff5
      reads cckBase24, bw40Base24, bw40Base5
    {
      if !txPowerInfoLoaded || path >= MAX_RF_PATH || !Query.Answers(rate, ch) then 0
      else
        Query.AnsweredChannel(rate, ch);
        Limits.TableLength();
        var band := Query.BandIndex(ch).value;
        var idx := Limits.ChannelIndex(band, ch).value;
        Query.Combine(TableBase(path, rate, ntxIdx, bandwidth, band, idx),
                      TableOffset(enabled, band, path, rate),
                      TableLimit(band, rate, ntxIdx, bandwidth, idx))
    }

    /** The TX-power index of one rate on one path and channel. */
    method GetTxPowerIndexBase(enabled: bool, path: nat, rate: byte, ntxIdx: nat, bandwidth: nat, channel: byte)
      returns (r: byte)
      requires Shape() && currentRegulation < Limits.NUM_REGULATIONS
      ensures r == TablePower(enabled, path, rate, ntxIdx, bandwidth, channel)
      ensures r <= Query.TXGI_MAX
    {
      if !txPowerInfoLoaded || path >= MAX_RF_PATH {
        return 0;
      }
      var band, idx: int;
      match ClassifyChannel(channel) {
        case Invalid =>
          return 0;
        case Band2G(_, _) =>
          band, idx := 0, channel - 1;
        case Band5G(_) =>
          band := 1;
          idx := FindChannel5G(channel);
          if idx < 0 || rate < 0x0C {
            return 0;
          }
      }
      hide ClassifyChannel, Limits.FirstIndex;
      var txPower := BasePower(path, rate, ntxIdx, bandwidth, band, idx);
      var byRateDiff := OffsetFor(enabled, band, path, rate);
      var limit := LimitFor(band, rate, ntxIdx, bandwidth, idx);
      var headroom := limit - txPower - Query.BOOST;
      if headroom < 0 {
        headroom := 0;
      }
      if byRateDiff > headroom {
        byRateDiff := headroom;
      }
      txPower := txPower + byRateDiff + Query.BOOST;
      if txPower < 0 {
        txPower := 0;
      }
      if txPower > 63 {
        txPower := 63;
      }
      r := txPower;
    }

    method OffsetFor(enabled: bool, band: nat, path: nat, rate: byte) returns (diff: int)
      requires Shape() && path < MAX_RF_PATH && band < 2
      ensures diff == TableOffset(enabled, band, path, rate)
    {
      diff := 0;
      if enabled {
        var isVht24G := band == 0 && RateToSection(rate) >= RS_VHT_1SS;
        if txPwrByRateLoaded && !isVht24G {
          var rateIdx := RateToIdx(rate);
          if rateIdx >= 0 {
            diff := byRateOffset[band, path, rateIdx];
          }
        }
      }
    }

    method LimitFor(band: nat, rate: byte, ntxIdx: nat, bandwidth: nat, idx: nat) returns (limit: int)
      requires Shape() && band < 2 && currentRegulation < Limits.NUM_REGULATIONS
      requires idx < if band == 0 then CENTER_CH_2G_NUM else CENTER_CH_5G_ALL_NUM
      ensures limit == TableLimit(band, rate, ntxIdx, bandwidth, idx)
    {
      limit := 63;
      if txPwrLimitLoaded {
        var section := RateToSection(rate);
        var rs := if section == RS_CCK then 0
                  else if section == RS_OFDM then 1
                  else if RS_HT_1SS <= section <= RS_HT_4SS then 2
                  else if section >= RS_VHT_1SS then 3
                  else -1;
        if rs >= 0 {
          if band == 0 {
            if bandwidth < Limits.NUM_2G_BW && ntxIdx < MAX_TX_COUNT {
              var v := limit2g[currentRegulation, bandwidth, rs, ntxIdx, idx];
              if -63 < v < 63 {
                limit := v;
              }
            }
          } else if bandwidth < Limits.NUM_5G_BW && ntxIdx < MAX_TX_COUNT {
            var v := limit5g[currentRegulation, bandwidth, rs, ntxIdx, idx];
            if -63 < v < 63 {
              limit := v;
            }
          }
        }
      }
    }

    // ----- What the loaded base tables hold, address by address -----

    /** After a load, the 14 channels and the 65 table entries of every active path hold the base byte of
        their group: group `g` begins where the lists of starts say, and channel 14 has CCK byte 5. */
    lemma LoadedBases(e: seq<byte>, p: nat, g: nat, i: nat)
      requires Shape() && |e| == MAP_LEN && InfoHolds(e) && p < numTotalRfPath
      ensures g < 5 && GROUP_STARTS_2G[g] <= i + 1 < GROUP_STARTS_2G[g + 1] ==>
                i < 14 && bw40Base24[p, i] == e[16 + 42 * p + 6 + g]
                && cckBase24[p, i] == e[16 + 42 * p + if i == 13 then 5 else g]
      ensures g < 14 && GROUP_STARTS_5G[g] <= i < GROUP_STARTS_5G[g + 1] ==>
                i < 65 && bw40Base5[p, i] == e[16 + 42 * p + 18 + g]
    {
      hide ClassifyChannel, DiffsHold, CENTER_CH_5G;
      assert PathHolds(e, p);
      if g < 5 && GROUP_STARTS_2G[g] <= i + 1 < GROUP_STARTS_2G[g + 1] {
        ChannelGroup24(g, i + 1);
      }
      if g < 14 && GROUP_STARTS_5G[g] <= i < GROUP_STARTS_5G[g + 1] {
        TableIs5G(0);
        EntryGroup(g, i);
      }
    }

    // ----- The staged tables answer as the direct formula does -----

    lemma BaseIsDirect(e: seq<byte>, path: nat, rate: byte, ntxIdx: nat, bandwidth: nat, ch: byte)
      requires Shape() && |e| == MAP_LEN && path < MAX_RF_PATH && PathHolds(e, path)
      requires Query.Answers(rate, ch)
      ensures var band := Query.BandIndex(ch).value;
        && Limits.ChannelIndex(band, ch).Some?
        && Limits.ChannelIndex(band, ch).value < (if band == 0 then CENTER_CH_2G_NUM else CENTER_CH_5G_ALL_NUM)
        && TableBase(path, rate, ntxIdx, bandwidth, band, Limits.ChannelIndex(band, ch).value)
           == Query.DirectBase(e, path, rate, ntxIdx, bandwidth, ch)
    {
      hide PgDiff, RowHolds, TableSum, Query.DiffSum, CckBase, Base24, Base5;
      Limits.TableLength();
      var fiveG := ClassifyChannel(ch).Band5G?;
      var kind := Query.KindFor(fiveG, rate, bandwidth);
      assert RowHolds(Table(kind), e, path, kind, 0, 4);
      LoadedSum(Table(kind), e, path, kind, Query.Terms(fiveG, rate, ntxIdx));
      if !fiveG {
        assert ch - 1 + 1 == ch;
      }
    }

    static lemma ZeroSum(a: array2<int8>, path: nat, n: nat)
      requires DiffShape(a) && path < MAX_RF_PATH && n <= MAX_TX_COUNT && ZeroRow(a, path)
      ensures TableSum(a, path, n) == 0
    {
      if n > 0 {
        ZeroSum(a, path, n - 1);
      }
    }

    lemma IdleBase(path: nat, rate: byte, ntxIdx: nat, bandwidth: nat, band: nat, idx: nat)
      requires Shape() && path < MAX_RF_PATH && DiffsZero(path) && BasesZero(path)
      requires idx < if band == 0 then CENTER_CH_2G_NUM else CENTER_CH_5G_ALL_NUM
      ensures TableBase(path, rate, ntxIdx, bandwidth, band, idx) == 0
    {
      hide TableSum, ZeroRow;
      var kind := Query.KindFor(band != 0, rate, bandwidth);
      assert ZeroRow(Table(kind), path);
      ZeroSum(Table(kind), path, Query.Terms(band != 0, rate, ntxIdx));
    }

    lemma LimitIsDirect(strings: seq<string>, rate: byte, ntxIdx: nat, bandwidth: nat, band: nat, ch: byte)
      requires Shape() && band < 2 && currentRegulation < Limits.NUM_REGULATIONS
      requires (txPwrLimitLoaded ==> LimitsHold(strings)) && Limits.ChannelIndex(band, ch).Some?
      ensures Limits.ChannelIndex(band, ch).value < if band == 0 then CENTER_CH_2G_NUM else CENTER_CH_5G_ALL_NUM
      ensures TableLimit(band, rate, ntxIdx, bandwidth, Limits.ChannelIndex(band, ch).value)
           == Query.DirectLimit(if txPwrLimitLoaded then strings else [], currentRegulation, band, rate, ntxIdx, bandwidth, ch)
    {
      hide Limits.LimitAt, Limits.FirstIndex;
      Limits.TableLength();
      Query.NoRowsNoLimit(currentRegulation, band, rate, ntxIdx, bandwidth, ch);
    }

    /** Once the power tables are loaded from a map, the manager answers every query with the power
        the direct formula gives for that map and for those of the other two tables that are loaded;
        a table not loaded counts as one without rows. Before that every answer is 0. */
    lemma StagesAreDirect(e: seq<byte>, rows: seq<dword>, strings: seq<string>,
                          enabled: bool, path: nat, rate: byte, ntxIdx: nat, bandwidth: nat, ch: byte)
      requires Shape() && |e| == MAP_LEN && currentRegulation < Limits.NUM_REGULATIONS
      requires txPowerInfoLoaded ==> InfoHolds(e) && IdleZero()
      requires txPwrByRateLoaded ==> ByRateHolds(rows)
      requires txPwrLimitLoaded ==> LimitsHold(strings)
      ensures TablePower(enabled, path, rate, ntxIdx, bandwidth, ch)
           == if !txPowerInfoLoaded then 0
              else Query.DirectPower(e, if txPwrByRateLoaded then rows else [], if txPwrLimitLoaded then strings else [],
                                     numTotalRfPath, currentRegulation, enabled, path, rate, ntxIdx, bandwidth, ch)
    {
      hide Query.DirectBase, Query.DirectLimit, TableBase, TableLimit, TableOffset, Query.ByRateOffset, Query.Combine,
           PathHolds, LimitsHold, ByRateHolds, DiffsZero, BasesZero, SpareSlotsZero;
      if txPowerInfoLoaded && path < MAX_RF_PATH && Query.Answers(rate, ch) {
        Query.AnsweredChannel(rate, ch);
        Limits.TableLength();
        var band := Query.BandIndex(ch).value;
        var idx := Limits.ChannelIndex(band, ch).value;
        LimitIsDirect(strings, rate, ntxIdx, bandwidth, band, ch);
        if path < numTotalRfPath {
          BaseIsDirect(e, path, rate, ntxIdx, bandwidth, ch);
        } else {
          IdleBase(path, rate, ntxIdx, bandwidth, band, idx);
        }
        OffsetIsDirect(rows, enabled, band, path, rate);
      }
    }

    /** So a manager with all three loaded answers every query with the direct formula for them:
        staging, scattering, normalising in place and indexing change nothing. */
    lemma StagedIsDirect(e: seq<byte>, rows: seq<dword>, strings: seq<string>,
                         enabled: bool, path: nat, rate: byte, ntxIdx: nat, bandwidth: nat, ch: byte)
      requires Shape() && |e| == MAP_LEN && Loaded(e, rows, strings)
      ensures TablePower(enabled, path, rate, ntxIdx, bandwidth, ch)
           == Query.DirectPower(e, rows, strings, numTotalRfPath, currentRegulation,
                                enabled, path, rate, ntxIdx, bandwidth, ch)
    {
      hide Query.DirectPower, TablePower, InfoHolds, IdleZero, ByRateHolds, LimitsHold;
      StagesAreDirect(e, rows, strings, enabled, path, rate, ntxIdx, bandwidth, ch);
    }

    lemma OffsetIsDirect(rows: seq<dword>, enabled: bool, band: nat, path: nat, rate: byte)
      requires Shape() && path < MAX_RF_PATH && band < 2 && (txPwrByRateLoaded ==> ByRateHolds(rows))
      ensures TableOffset(enabled, band, path, rate)
           == Query.ByRateOffset(if txPwrByRateLoaded then rows else [], numTotalRfPath, enabled, band, path, rate)
    {
      if txPwrByRateLoaded {
        assert OffsetsHold(rows, band, path, NUM_RATE_IDX);
      }
    }

    ghost predicate Loaded(e: seq<byte>, rows: seq<dword>, strings: seq<string>)
      requires Shape() && |e| == MAP_LEN
      reads this, byRateOffset, byRateBase, limit2g, limit5g
      reads cckDiff24, ofdmDiff24, bw20Diff24, bw40Diff24, ofdmDiff5, bw20Diff5, bw40Diff5, bw80Diff5
      reads cckBase24, bw40Base24, bw40Base5
    {
      && currentRegulation < Limits.NUM_REGULATIONS
      && txPowerInfoLoaded && InfoHolds(e) && IdleZero()
      && txPwrByRateLoaded && ByRateHolds(rows)
      && txPwrLimitLoaded && LimitsHold(strings)
    }

    // ----- Start-up -----

    /** Every slot of the power tables is zero. */
    ghost predicate PowerZero()
      requires Shape()
      reads cckDiff24, ofdmDiff24, bw20Diff24, bw40Diff24, ofdmDiff5, bw20Diff5, bw40Diff5, bw80Diff5
      reads cckBase24, bw40Base24, bw40Base5
    {
      forall p | 0 <= p < MAX_RF_PATH :: DiffsZero(p) && BasesZero(p)
    }

    /** So is every slot of the per-rate tables and of the limit tables. */
    ghost predicate RatesZero()
      requires Shape()
      reads byRateOffset, byRateBase
    {
      && (forall b, p, i | 0 <= b < 2 && 0 <= p < MAX_RF_PATH && 0 <= i < NUM_RATE_IDX :: byRateOffset[b, p, i] == 0)
      && (forall b, p, i | 0 <= b < 2 && 0 <= p < MAX_RF_PATH && 0 <= i < NUM_RATE_SECTION :: byRateBase[b, p, i] == 0)
    }

    ghost predicate LimitsZero()
      requires Shape()
      reads limit2g, limit5g
    {
      && (forall r, w, s, t, c | 0 <= r < 4 && 0 <= w < 2 && 0 <= s < 4 && 0 <= t < 4 && 0 <= c < CENTER_CH_2G_NUM ::
            limit2g[r, w, s, t, c] == 0)
      && (forall r, w, s, t, c | 0 <= r < 4 && 0 <= w < 4 && 0 <= s < 4 && 0 <= t < 4 && 0 <= c < CENTER_CH_5G_ALL_NUM ::
            limit5g[r, w, s, t, c] == 0)
    }

    /** Every table slot is zero; the last conjunct is what the loads rely on. */
    ghost predicate AllZero()
      requires Shape()
      reads byRateOffset, byRateBase, limit2g, limit5g
      reads cckDiff24, ofdmDiff24, bw20Diff24, bw40Diff24, ofdmDiff5, bw20Diff5, bw40Diff5, bw80Diff5
      reads cckBase24, bw40Base24, bw40Base5
    {
      PowerZero() && RatesZero() && LimitsZero() && IdleZero()
    }

    /** A manager before any load: all tables zero, the shadow map whatever memory held. */
    constructor (paths: nat, memory: seq<byte>)
      requires 1 <= paths <= MAX_RF_PATH && |memory| == MAP_LEN
      ensures Shape() && AllZero() && efuse[..] == memory && numTotalRfPath == paths && currentRegulation == 0
      ensures !txPowerInfoLoaded && !txPwrByRateLoaded && !txPwrLimitLoaded
      ensures fresh({efuse, byRateOffset, byRateBase, limit2g, limit5g})
      ensures fresh({cckDiff24, ofdmDiff24, bw20Diff24, bw40Diff24, ofdmDiff5, bw20Diff5, bw40Diff5, bw80Diff5})
      ensures fresh({cckBase24, bw40Base24, bw40Base5})
    {
      numTotalRfPath, currentRegulation := paths, 0;
      efuse := new byte[MAP_LEN];
      cckBase24 := new byte[MAX_RF_PATH, CENTER_CH_2G_NUM];
      bw40Base24 := new byte[MAX_RF_PATH, CENTER_CH_2G_NUM];
      bw40Base5 := new byte[MAX_RF_PATH, CENTER_CH_5G_ALL_NUM];
      cckDiff24 := new int8[MAX_RF_PATH, MAX_TX_COUNT];
      ofdmDiff24 := new int8[MAX_RF_PATH, MAX_TX_COUNT];
      bw20Diff24 := new int8[MAX_RF_PATH, MAX_TX_COUNT];
      bw40Diff24 := new int8[MAX_RF_PATH, MAX_TX_COUNT];
      ofdmDiff5 := new int8[MAX_RF_PATH, MAX_TX_COUNT];
      bw20Diff5 := new int8[MAX_RF_PATH, MAX_TX_COUNT];
      bw40Diff5 := new int8[MAX_RF_PATH, MAX_TX_COUNT];
      bw80Diff5 := new int8[MAX_RF_PATH, MAX_TX_COUNT];
      byRateOffset := new int8[2, MAX_RF_PATH, NUM_RATE_IDX];
      byRateBase := new byte[2, MAX_RF_PATH, NUM_RATE_SECTION];
      limit2g := new int8[4, 2, 4, 4, CENTER_CH_2G_NUM];
      limit5g := new int8[4, 4, 4, 4, CENTER_CH_5G_ALL_NUM];
      txPowerInfoLoaded, txPwrByRateLoaded, txPwrLimitLoaded := false, false, false;
      new;
      hide AllZero;
      assert Separate();
      assert Shape();
      InitialState(memory);
    }

    /** The zero initialisers of all tables; the shadow map has none. */
    method InitialState(memory: seq<byte>)
      requires Shape() && |memory| == MAP_LEN
      modifies efuse, byRateOffset, byRateBase, limit2g, limit5g
      modifies cckDiff24, ofdmDiff24, bw20Diff24, bw40Diff24, ofdmDiff5, bw20Diff5, bw40Diff5, bw80Diff5
      modifies cckBase24, bw40Base24, bw40Base5
      ensures AllZero() && efuse[..] == memory
    {
      hide IdleZero, PowerZero, RatesZero, LimitsZero;
      ClearTables();
      ClearRates();
      ClearLimits();
      forall k | 0 <= k < MAP_LEN {
        efuse[k] := memory[k];
      }
    }

    /** The zero initialisers of the per-rate tables and of the limit tables. */
    method ClearRates()
      requires Shape()
      modifies byRateOffset, byRateBase
      ensures RatesZero()
    {
      forall b, p, i | 0 <= b < 2 && 0 <= p < MAX_RF_PATH && 0 <= i < NUM_RATE_IDX {
        byRateOffset[b, p, i] := 0;
      }
      forall b, p, i | 0 <= b < 2 && 0 <= p < MAX_RF_PATH && 0 <= i < NUM_RATE_SECTION {
        byRateBase[b, p, i] := 0;
      }
    }

    method ClearLimits()
      requires Shape()
      modifies limit2g, limit5g
      ensures LimitsZero()
    {
      forall r, w, s, t, c | 0 <= r < 4 && 0 <= w < 2 && 0 <= s < 4 && 0 <= t < 4 && 0 <= c < CENTER_CH_2G_NUM {
        limit2g[r, w, s, t, c] := 0;
      }
      forall r, w, s, t, c | 0 <= r < 4 && 0 <= w < 4 && 0 <= s < 4 && 0 <= t < 4 && 0 <= c < CENTER_CH_5G_ALL_NUM {
        limit5g[r, w, s, t, c] := 0;
      }
    }

    /** The zero initialisers of the power tables. */
    method ClearTables()
      requires Shape()
      modifies cckDiff24, ofdmDiff24, bw20Diff24, bw40Diff24, ofdmDiff5, bw20Diff5, bw40Diff5, bw80Diff5
      modifies cckBase24, bw40Base24, bw40Base5
      ensures PowerZero() && IdleZero()
    {
      hide BasesZero, DiffsZero, SpareSlotsZero;
      ClearBases();
      ClearDiffs();
    }

    /** The zero initialisers of the base tables. */
    method ClearBases()
      requires Shape()
      modifies cckBase24, bw40Base24, bw40Base5
      ensures forall p | 0 <= p < MAX_RF_PATH :: BasesZero(p)
    {
      forall p, i | 0 <= p < MAX_RF_PATH && 0 <= i < CENTER_CH_2G_NUM {
        cckBase24[p, i] := 0;
      }
      forall p, i | 0 <= p < MAX_RF_PATH && 0 <= i < CENTER_CH_2G_NUM {
        bw40Base24[p, i] := 0;
      }
      forall p, i | 0 <= p < MAX_RF_PATH && 0 <= i < CENTER_CH_5G_ALL_NUM {
        bw40Base5[p, i] := 0;
      }
    }

    /** The zero initialisers of the diff tables. */
    method ClearDiffs()
      requires Shape()
      modifies cckDiff24, ofdmDiff24, bw20Diff24, bw40Diff24, ofdmDiff5, bw20Diff5, bw40Diff5, bw80Diff5
      ensures forall p | 0 <= p < MAX_RF_PATH :: DiffsZero(p) && SpareSlotsZero(p)
    {
      ClearTable(cckDiff24);
      ClearTable(ofdmDiff24);
      ClearTable(bw20Diff24);
      ClearTable(bw40Diff24);
      ClearTable(ofdmDiff5);
      ClearTable(bw20Diff5);
      ClearTable(bw40Diff5);
      ClearTable(bw80Diff5);
      forall p | 0 <= p < MAX_RF_PATH
        ensures DiffsZero(p) && SpareSlotsZero(p)
      {
        assert ZeroRow(cckDiff24, p) && ZeroRow(bw40Diff24, p) && ZeroRow(bw40Diff5, p);
      }
    }

    static method ClearTable(a: array2<int8>)
      requires DiffShape(a)
      modifies a
      ensures forall p | 0 <= p < MAX_RF_PATH :: ZeroRow(a, p)
    {
      forall p, i | 0 <= p < MAX_RF_PATH && 0 <= i < MAX_TX_COUNT {
        a[p, i] := 0;
      }
    }

    /** The shadow map after an update: all 0xFF when autoload failed, else the decoded EFUSE, and
        unchanged when the EFUSE is empty. */
    static ghost function ShadowOf(c: EfuseLog.Contents, autoloadFail: bool, prior: seq<byte>): (e: seq<byte>)
      requires |prior| == MAP_LEN
      ensures |e| == MAP_LEN
    {
      if autoloadFail then seq(MAP_LEN, k => 0xFF)
      else if c(0) == 0xFF then prior
      else EfuseLog.MapOf(c)
    }

    method ShadowMapUpdate(dev: EfuseDevice, autoloadFail: bool)
      requires Shape()
      modifies dev, efuse
      ensures efuse[..] == ShadowOf(dev.contents, autoloadFail, old(efuse[..]))
    {
      if autoloadFail {
        var i := 0;
        while i < efuse.Length
          invariant i <= efuse.Length && forall k | 0 <= k < i :: efuse[k] == 0xFF
          modifies efuse
        {
          efuse[i] := 0xFF;
          i := i + 1;
        }
      } else {
        ReadEFuse(dev, 0, MAP_LEN, efuse);
      }
    }

    /** Some byte of the first base bytes is programmed. */
    static predicate TxPowerInfoValid(e: seq<byte>)
      requires |e| == MAP_LEN
    {
      exists k | 0x22 <= k < 0x22 + 11 :: e[k] != 0xFF
    }

    method IsEfuseTxPowerInfoValid() returns (found: bool)
      requires Shape()
      ensures found <==> TxPowerInfoValid(efuse[..])
    {
      found := false;
      var index := 0;
      while index < 11
        invariant index <= 11
        invariant found <==> exists k | 0x22 <= k < 0x22 + index :: efuse[k] != 0xFF
      {
        if efuse[0x22 + index] != 0xFF {
          found := true;
        }
        index := index + 1;
      }
      assert forall k | 0x22 <= k < 0x22 + 11 :: efuse[..][k] == efuse[k];
    }

    /** Late start of the 8814: the EFUSE is read for real and the power tables are loaded again.
        Every later answer is the direct formula over the freshly decoded map, whatever map was
        loaded before; the other two tables keep what they held. Without programmed power bytes
        the driver gives up before it touches the tables. */
    method LateInitFor8814A(dev: EfuseDevice, fromEeprom: bool, ghost before: seq<byte>, ghost rows: seq<dword>, ghost strings: seq<string>)
      returns (ok: bool)
      requires Shape() && |before| == MAP_LEN && Loaded(before, rows, strings)
      modifies dev, efuse, this`txPowerInfoLoaded
      modifies cckDiff24, ofdmDiff24, bw20Diff24, bw40Diff24, ofdmDiff5, bw20Diff5, bw40Diff5, bw80Diff5
      modifies cckBase24, bw40Base24, bw40Base5
      ensures efuse[..] == if fromEeprom then old(efuse[..]) else ShadowOf(dev.contents, false, old(efuse[..]))
      ensures ok <==> TxPowerInfoValid(efuse[..])
      ensures Loaded(if ok then efuse[..] else before, rows, strings)
    {
      if !fromEeprom {
        ShadowMapUpdate(dev, false);
      }
      ok := IsEfuseTxPowerInfoValid();
      if ok {
        LoadTxPowerInfo();
      }
    }

    /** Start-up: fill the shadow map, then load the three tables in order. On the 8814 the EFUSE
        is left alone and the map reads as blank. */
    method Init(dev: EfuseDevice, is8814: bool, autoloadFail: bool, fromEeprom: bool,
                rows: seq<dword>, strings: seq<string>, override: Option<string>)
      returns (ok: bool)
      requires Shape() && IdleZero() && currentRegulation < Limits.NUM_REGULATIONS
      modifies dev, efuse, this, byRateOffset, byRateBase, limit2g, limit5g
      modifies cckDiff24, ofdmDiff24, bw20Diff24, bw40Diff24, ofdmDiff5, bw20Diff5, bw40Diff5, bw80Diff5
      modifies cckBase24, bw40Base24, bw40Base5
      ensures efuse[..] == if !is8814 && fromEeprom then old(efuse[..])
                           else ShadowOf(dev.contents, is8814 || autoloadFail, old(efuse[..]))
      ensures ok <==> is8814 || TxPowerInfoValid(efuse[..])
      ensures ok ==> Loaded(efuse[..], rows, strings)
      ensures !ok ==> IdleZero() && unchanged(this, byRateOffset, byRateBase, limit2g, limit5g)
      ensures !ok ==> unchanged(cckDiff24, ofdmDiff24, bw20Diff24, bw40Diff24, ofdmDiff5, bw20Diff5, bw40Diff5, bw80Diff5)
      ensures !ok ==> unchanged(cckBase24, bw40Base24, bw40Base5)
      ensures ok ==> currentRegulation == match override case None => old(currentRegulation) case Some(name) => Limits.OverrideOf(name)
    {
      hide Loaded, IdleZero, TxPowerInfoValid;
      if is8814 {
        ShadowMapUpdate(dev, true);
      } else {
        if !fromEeprom {
          ShadowMapUpdate(dev, autoloadFail);
        }
        ok := IsEfuseTxPowerInfoValid();
        if !ok {
          return;
        }
      }
      LoadTables(rows, strings, override);
      ok := true;
    }

    /** The three loads in order. */
    method LoadTables(rows: seq<dword>, strings: seq<string>, override: Option<string>)
      requires Shape() && IdleZero() && currentRegulation < Limits.NUM_REGULATIONS
      modifies this, byRateOffset, byRateBase, limit2g, limit5g
      modifies cckDiff24, ofdmDiff24, bw20Diff24, bw40Diff24, ofdmDiff5, bw20Diff5, bw40Diff5, bw80Diff5
      modifies cckBase24, bw40Base24, bw40Base5
      ensures Loaded(efuse[..], rows, strings)
      ensures currentRegulation == match override case None => old(currentRegulation) case Some(name) => Limits.OverrideOf(name)
    {
      hide InfoHolds, IdleZero, ByRateHolds, LimitsHold;
      LoadTxPowerInfo();
      LoadTxPowerByRate(rows);
      LoadTxPowerLimit(strings, override);
    }
  }
}
