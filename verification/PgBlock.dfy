/** The TX-power block of the EFUSE map: 42 bytes per RF path from offset 0x10 on. */
module PgBlock {
  import opened Bytes
  import opened Channels
  import opened Dimensions

  const PG_SADDR := 0x10
  const PATH_BYTES := 42

  /** The eight tables of per-stream diffs. */
  datatype DiffKind = Cck24 | Ofdm24 | Bw20At24 | Bw40At24 | Ofdm5 | Bw20At5 | Bw40At5 | Bw80At5

  /** High and low nibble of a byte as signed four-bit numbers. */
  function MsbDiff(v: byte): (d: int8)
    ensures -8 <= d <= 7 && (d - v / 16) % 16 == 0
  {
    var n := v / 16;
    if n >= 8 then n - 16 else n
  }

  function LsbDiff(v: byte): (d: int8)
    ensures -8 <= d <= 7 && (d - v) % 16 == 0
  {
    var n := v % 16;
    if n >= 8 then n - 16 else n
  }

  function BlockAt(path: nat): nat {
    PG_SADDR + PATH_BYTES * path
  }

  /** Byte `k` of the block of a path. */
  function BlockByte(e: seq<byte>, path: nat, k: nat): byte
    requires |e| == MAP_LEN && path < MAX_RF_PATH && k < PATH_BYTES
  {
    e[BlockAt(path) + k]
  }

  /** The signed nibble that diff `t` of a table comes from; three slots have none and stay 0. */
  function PgDiff(e: seq<byte>, path: nat, d: DiffKind, t: nat): int8
    requires |e| == MAP_LEN && path < MAX_RF_PATH && t < MAX_TX_COUNT
  {
    match d
    case Cck24 => if t == 0 then 0 else LsbDiff(BlockByte(e, path, 11 + 2 * t))
    case Ofdm24 => if t == 0 then LsbDiff(BlockByte(e, path, 11)) else MsbDiff(BlockByte(e, path, 11 + 2 * t))
    case Bw20At24 => if t == 0 then MsbDiff(BlockByte(e, path, 11)) else LsbDiff(BlockByte(e, path, 10 + 2 * t))
    case Bw40At24 => if t == 0 then 0 else MsbDiff(BlockByte(e, path, 10 + 2 * t))
    case Ofdm5 =>
      if t == 0 then LsbDiff(BlockByte(e, path, 32))
      else if t == 1 then MsbDiff(BlockByte(e, path, 36))
      else if t == 2 then LsbDiff(BlockByte(e, path, 36))
      else LsbDiff(BlockByte(e, path, 37))
    case Bw20At5 => if t == 0 then MsbDiff(BlockByte(e, path, 32)) else LsbDiff(BlockByte(e, path, 32 + t))
    case Bw40At5 => if t == 0 then 0 else MsbDiff(BlockByte(e, path, 32 + t))
    case Bw80At5 => MsbDiff(BlockByte(e, path, 38 + t))
  }

  /** Base bytes: CCK per CCK group, and the common 2.4 GHz and 5 GHz bases per group. */
  function CckBase(e: seq<byte>, path: nat, group: nat): byte
    requires |e| == MAP_LEN && path < MAX_RF_PATH && group < GROUPS_2G
  {
    BlockByte(e, path, group)
  }

  function Base24(e: seq<byte>, path: nat, group: nat): byte
    requires |e| == MAP_LEN && path < MAX_RF_PATH && group < GROUPS_2G - 1
  {
    BlockByte(e, path, 6 + group)
  }

  function Base5(e: seq<byte>, path: nat, group: nat): byte
    requires |e| == MAP_LEN && path < MAX_RF_PATH && group < GROUPS_5G
  {
    BlockByte(e, path, 18 + group)
  }

  /** Blocks of different paths do not overlap, and all of them lie inside the map. */
  lemma BlocksDisjoint(p: nat, q: nat)
    requires p < q < MAX_RF_PATH
    ensures PG_SADDR <= BlockAt(p) && BlockAt(p) + PATH_BYTES <= BlockAt(q)
    ensures BlockAt(q) + PATH_BYTES <= BlockAt(MAX_RF_PATH) == PG_SADDR + 4 * PATH_BYTES <= MAP_LEN
  {
  }

  /** The diffs in the order the nibbles of a block carry them, high nibble first: from byte 11 for
      2.4 GHz and from byte 32 for 5 GHz. `None` is a nibble that is passed over. */
  const NIBBLES_24: seq<Option<(DiffKind, nat)>> := [
    Some((Bw20At24, 0)), Some((Ofdm24, 0)),
    Some((Bw40At24, 1)), Some((Bw20At24, 1)), Some((Ofdm24, 1)), Some((Cck24, 1)),
    Some((Bw40At24, 2)), Some((Bw20At24, 2)), Some((Ofdm24, 2)), Some((Cck24, 2)),
    Some((Bw40At24, 3)), Some((Bw20At24, 3)), Some((Ofdm24, 3)), Some((Cck24, 3))]

  const NIBBLES_5: seq<Option<(DiffKind, nat)>> := [
    Some((Bw20At5, 0)), Some((Ofdm5, 0)),
    Some((Bw40At5, 1)), Some((Bw20At5, 1)), Some((Bw40At5, 2)), Some((Bw20At5, 2)), Some((Bw40At5, 3)), Some((Bw20At5, 3)),
    Some((Ofdm5, 1)), Some((Ofdm5, 2)), None, Some((Ofdm5, 3)),
    Some((Bw80At5, 0)), None, Some((Bw80At5, 1)), None, Some((Bw80At5, 2)), None, Some((Bw80At5, 3)), None]

  /** A diff is the signed four-bit number in nibble `n` from byte `at` on. */
  predicate InNibble(e: seq<byte>, path: nat, d: DiffKind, t: nat, at: nat, n: nat)
    requires |e| == MAP_LEN && path < MAX_RF_PATH && t < MAX_TX_COUNT && at + n / 2 < MAP_LEN
  {
    var v := PgDiff(e, path, d, t);
    -8 <= v < 8 && v % 16 == if n % 2 == 0 then e[at + n / 2] / 16 else e[at + n / 2] % 16
  }

  /** Every nibble lands in the slot it is for, and the three slots without a nibble are zero. */
  lemma NibbleStream(e: seq<byte>, path: nat, n: nat)
    requires |e| == MAP_LEN && path < MAX_RF_PATH
    ensures n < 14 ==> Lands24(e, path, n)
    ensures n < 20 ==> Lands5(e, path, n)
    ensures PgDiff(e, path, Cck24, 0) == 0 && PgDiff(e, path, Bw40At24, 0) == 0 && PgDiff(e, path, Bw40At5, 0) == 0
  {
    if n < 14 {
      AllLand24(e, path, n);
    }
    if n < 20 {
      AllLand5(e, path, n);
    }
  }

  predicate Lands24(e: seq<byte>, path: nat, n: nat)
    requires |e| == MAP_LEN && path < MAX_RF_PATH && n < 14
  {
    NIBBLES_24[n].Some? ==>
      var (d, t) := NIBBLES_24[n].value;
      t < MAX_TX_COUNT && InNibble(e, path, d, t, 16 + 42 * path + 11, n)
  }

  predicate Lands5(e: seq<byte>, path: nat, n: nat)
    requires |e| == MAP_LEN && path < MAX_RF_PATH && n < 20
  {
    NIBBLES_5[n].Some? ==>
      var (d, t) := NIBBLES_5[n].value;
      t < MAX_TX_COUNT && InNibble(e, path, d, t, 16 + 42 * path + 32, n)
  }

  lemma AllLand24(e: seq<byte>, path: nat, n: nat)
    requires |e| == MAP_LEN && path < MAX_RF_PATH && n < 14
    ensures Lands24(e, path, n)
  {
    hide MsbDiff, LsbDiff;
    SignedNibbles(e[16 + 42 * path + 11 + n / 2]);
    assert n == 0 || n == 1 || n == 2 || n == 3 || n == 4 || n == 5 || n == 6
      || n == 7 || n == 8 || n == 9 || n == 10 || n == 11 || n == 12 || n == 13;
  }

  lemma AllLand5(e: seq<byte>, path: nat, n: nat)
    requires |e| == MAP_LEN && path < MAX_RF_PATH && n < 20
    ensures Lands5(e, path, n)
  {
    hide MsbDiff, LsbDiff;
    SignedNibbles(e[16 + 42 * path + 32 + n / 2]);
    assert n == 0 || n == 1 || n == 2 || n == 3 || n == 4 || n == 5 || n == 6 || n == 7 || n == 8 || n == 9
      || n == 10 || n == 11 || n == 12 || n == 13 || n == 14 || n == 15 || n == 16 || n == 17 || n == 18 || n == 19;
  }

  lemma SignedNibbles(v: byte)
    ensures -8 <= MsbDiff(v) < 8 && MsbDiff(v) % 16 == v / 16
    ensures -8 <= LsbDiff(v) < 8 && LsbDiff(v) % 16 == v % 16
  {
  }

  // ----- The block as a value -----

  /** What one block says: the base bytes per group, and diff `t` of each table. */
  datatype PathPower =
    PathPower(cck: seq<byte>, base24: seq<byte>, base5: seq<byte>, diff: (DiffKind, nat) -> int8)

  /** Diffs are four-bit numbers; the three slots without a nibble are 0. */
  ghost predicate ValidPower(p: PathPower) {
    && |p.cck| == 6 && |p.base24| == 5 && |p.base5| == 14
    && (forall d, t: nat | t < MAX_TX_COUNT :: -8 <= p.diff(d, t) <= 7)
    && p.diff(Cck24, 0) == 0 && p.diff(Bw40At24, 0) == 0 && p.diff(Bw40At5, 0) == 0
  }

  function Pack(high: int, low: int): (v: byte)
    requires -8 <= high <= 7 && -8 <= low <= 7
    ensures MsbDiff(v) == high && LsbDiff(v) == low
  {
    high % 16 * 16 + low % 16
  }

  /** Byte `k` of the block that says `p`. */
  ghost function EncodeByte(p: PathPower, k: nat): byte
    requires ValidPower(p) && k < PATH_BYTES
  {
    if k < 6 then p.cck[k]
    else if k < 11 then p.base24[k - 6]
    else if k == 11 then Pack(p.diff(Bw20At24, 0), p.diff(Ofdm24, 0))
    else if k < 18 then
      var t := (k - 10) / 2;
      if k % 2 == 0 then Pack(p.diff(Bw40At24, t), p.diff(Bw20At24, t))
      else Pack(p.diff(Ofdm24, t), p.diff(Cck24, t))
    else if k < 32 then p.base5[k - 18]
    else if k == 32 then Pack(p.diff(Bw20At5, 0), p.diff(Ofdm5, 0))
    else if k < 36 then Pack(p.diff(Bw40At5, k - 32), p.diff(Bw20At5, k - 32))
    else if k == 36 then Pack(p.diff(Ofdm5, 1), p.diff(Ofdm5, 2))
    else if k == 37 then Pack(0, p.diff(Ofdm5, 3))
    else Pack(p.diff(Bw80At5, k - 38), 0)
  }

  /** The map carries the block that says `p` for `path`. */
  ghost predicate Carries(e: seq<byte>, path: nat, p: PathPower)
    requires |e| == MAP_LEN && path < MAX_RF_PATH && ValidPower(p)
  {
    forall k: nat | k < PATH_BYTES :: BlockByte(e, path, k) == EncodeByte(p, k)
  }

  /** Parsing recovers every base byte and every diff that was encoded. */
  lemma BlockRoundTrip(e: seq<byte>, path: nat, p: PathPower)
    requires |e| == MAP_LEN && path < MAX_RF_PATH
    requires ValidPower(p) && Carries(e, path, p)
    ensures forall d, t: nat | t < MAX_TX_COUNT :: PgDiff(e, path, d, t) == p.diff(d, t)
    ensures forall g: nat | g < 6 :: CckBase(e, path, g) == p.cck[g]
    ensures forall g: nat | g < 5 :: Base24(e, path, g) == p.base24[g]
    ensures forall g: nat | g < 14 :: Base5(e, path, g) == p.base5[g]
  {
    forall d, t: nat | t < MAX_TX_COUNT
      ensures PgDiff(e, path, d, t) == p.diff(d, t)
    {
      DiffRoundTrip(e, path, p, d, t);
    }
  }

  lemma DiffRoundTrip(e: seq<byte>, path: nat, p: PathPower, d: DiffKind, t: nat)
    requires |e| == MAP_LEN && path < MAX_RF_PATH && t < MAX_TX_COUNT
    requires ValidPower(p) && Carries(e, path, p)
    ensures PgDiff(e, path, d, t) == p.diff(d, t)
  {
    hide BlockByte, Pack, MsbDiff, LsbDiff;
    assert t == 0 || t == 1 || t == 2 || t == 3;
  }

  /** What the parser makes of a block. */
  ghost function DecodeBlock(e: seq<byte>, path: nat): (p: PathPower)
    requires |e| == MAP_LEN && path < MAX_RF_PATH
    ensures ValidPower(p)
  {
    PathPower(
      seq(6, g requires 0 <= g < 6 => CckBase(e, path, g)),
      seq(5, g requires 0 <= g < 5 => Base24(e, path, g)),
      seq(14, g requires 0 <= g < 14 => Base5(e, path, g)),
      (d, t: nat) => if t < MAX_TX_COUNT then PgDiff(e, path, d, t) else 0)
  }

  /** The nibbles the parser passes over are zero. */
  predicate SpareNibblesClear(e: seq<byte>, path: nat)
    requires |e| == MAP_LEN && path < MAX_RF_PATH
  {
    && BlockByte(e, path, 37) / 16 == 0
    && forall k | 38 <= k < PATH_BYTES :: BlockByte(e, path, k) % 16 == 0
  }

  /** The parser loses nothing but the spare nibbles: encoding what it read gives the block back
      if and only if those are zero. */
  lemma ReencodeIsExact(e: seq<byte>, path: nat)
    requires |e| == MAP_LEN && path < MAX_RF_PATH
    ensures Carries(e, path, DecodeBlock(e, path)) <==> SpareNibblesClear(e, path)
  {
    hide BlockByte, DecodeBlock, EncodeByte;
    forall k: nat | k < PATH_BYTES {
      ReencodeByte(e, path, k);
    }
    assert Carries(e, path, DecodeBlock(e, path)) ==>
           BlockByte(e, path, 37) == EncodeByte(DecodeBlock(e, path), 37);
  }

  lemma ReencodeByte(e: seq<byte>, path: nat, k: nat)
    requires |e| == MAP_LEN && path < MAX_RF_PATH && k < PATH_BYTES
    ensures var v := BlockByte(e, path, k);
      EncodeByte(DecodeBlock(e, path), k) == if k < 37 then v else if k == 37 then v % 16 else v / 16 * 16
  {
    hide BlockByte, Pack, MsbDiff, LsbDiff;
    RepackNibbles(BlockByte(e, path, k));
    if 12 <= k < 18 {
      assert k == 12 || k == 13 || k == 14 || k == 15 || k == 16 || k == 17;
    }
  }

  lemma RepackNibbles(v: byte)
    ensures Pack(MsbDiff(v), LsbDiff(v)) == v
    ensures Pack(0, LsbDiff(v)) == v % 16 && Pack(MsbDiff(v), 0) == v / 16 * 16
  {
  }
}
