/** Channels: band and PG group classification, and the 5 GHz channel index table. */
module Channels {
  import opened Bytes

  const CENTER_CH_2G_NUM := 14
  const CENTER_CH_5G_ALL_NUM := 65
  const GROUPS_2G := 6
  const GROUPS_5G := 14

  /** Band of a channel with the index into the per-band base bytes of the PG block. */
  datatype ChannelClass = Invalid | Band2G(group: nat, cckGroup: nat) | Band5G(group: nat)

  function ClassifyChannel(ch: byte): (k: ChannelClass)
    ensures k.Band2G? <==> 1 <= ch <= CENTER_CH_2G_NUM
    ensures k.Band2G? ==> k.group < 5 && k.cckGroup < GROUPS_2G
    ensures k.Band5G? ==> k.group < GROUPS_5G
  {
    if ch <= 14 then
      if ch == 0 then Invalid
      else
        var gp := if ch <= 2 then 0 else if ch <= 5 then 1 else if ch <= 8 then 2 else if ch <= 11 then 3 else 4;
        Band2G(gp, if ch == 14 then 5 else gp)
    else if 15 <= ch <= 42 then Band5G(0)
    else if 44 <= ch <= 48 then Band5G(1)
    else if 50 <= ch <= 58 then Band5G(2)
    else if 60 <= ch <= 80 then Band5G(3)
    else if 82 <= ch <= 106 then Band5G(4)
    else if 108 <= ch <= 114 then Band5G(5)
    else if 116 <= ch <= 122 then Band5G(6)
    else if 124 <= ch <= 130 then Band5G(7)
    else if 132 <= ch <= 138 then Band5G(8)
    else if 140 <= ch <= 144 then Band5G(9)
    else if 149 <= ch <= 155 then Band5G(10)
    else if 157 <= ch <= 161 then Band5G(11)
    else if 165 <= ch <= 171 then Band5G(12)
    else if 173 <= ch <= 177 then Band5G(13)
    else Invalid
  }

  // The 5 GHz channels with an index of their own, in index order.
  const CENTER_CH_5G_A: seq<byte> := [15, 16, 17, 18, 20, 24, 28, 32, 36, 38, 40, 42, 44, 46, 48]
  const CENTER_CH_5G_B: seq<byte> := [52, 54, 56, 58, 60, 62, 64, 68, 72, 76, 80, 84, 88, 92, 96]
  const CENTER_CH_5G_C: seq<byte> := [100, 102, 104, 106, 108, 110, 112, 116, 118, 120, 122, 124, 126, 128]
  const CENTER_CH_5G_D: seq<byte> := [132, 134, 136, 138, 140, 142, 144, 149, 151, 153, 155, 157, 159, 161]
  const CENTER_CH_5G_E: seq<byte> := [165, 167, 169, 171, 173, 175, 177]
  const CENTER_CH_5G: seq<byte> :=
    CENTER_CH_5G_A + CENTER_CH_5G_B + CENTER_CH_5G_C + CENTER_CH_5G_D + CENTER_CH_5G_E

  /** Where each group begins: among the 14 channels, among the entries of the 5 GHz table, and by
      channel number there. The last number of each list is past the end. */
  const GROUP_STARTS_2G: seq<nat> := [1, 3, 6, 9, 12, 15]
  const GROUP_STARTS_5G: seq<nat> := [0, 12, 15, 19, 26, 34, 37, 41, 44, 48, 51, 55, 58, 62, 65]
  const GROUP_CHANNELS_5G: seq<nat> := [15, 44, 52, 60, 84, 108, 116, 124, 132, 140, 149, 157, 165, 173, 178]

  /** Channels of a 2.4 GHz group; channel 14 alone has a CCK group of its own. */
  lemma ChannelGroup24(g: nat, ch: byte)
    requires g < 5 && GROUP_STARTS_2G[g] <= ch < GROUP_STARTS_2G[g + 1]
    ensures ClassifyChannel(ch) == Band2G(g, if ch == 14 then 5 else g)
  {
  }

  /** The channels the 5 GHz table holds. */
  predicate Known5G(ch: int) {
    || 15 <= ch <= 18 || (20 <= ch <= 36 && ch % 4 == 0) || (36 <= ch <= 48 && ch % 2 == 0)
    || (52 <= ch <= 64 && ch % 2 == 0) || (68 <= ch <= 100 && ch % 4 == 0) || (100 <= ch <= 112 && ch % 2 == 0)
    || (116 <= ch <= 128 && ch % 2 == 0) || (132 <= ch <= 144 && ch % 2 == 0)
    || (149 <= ch <= 161 && ch % 2 == 1) || (165 <= ch <= 177 && ch % 2 == 1)
  }

  lemma TableIsKnown5G(ch: byte)
    ensures ch in CENTER_CH_5G <==> Known5G(ch)
  {
    hide CENTER_CH_5G_A, CENTER_CH_5G_B, CENTER_CH_5G_C, CENTER_CH_5G_D, CENTER_CH_5G_E;
    RowA(ch);
    RowB(ch);
    RowC(ch);
    RowD(ch);
    RowE(ch);
  }

  lemma RowA(ch: byte)
    ensures ch in CENTER_CH_5G_A <==> 15 <= ch <= 18 || (20 <= ch <= 36 && ch % 4 == 0) || (36 <= ch <= 48 && ch % 2 == 0)
  {
  }

  lemma RowB(ch: byte)
    ensures ch in CENTER_CH_5G_B <==> (52 <= ch <= 64 && ch % 2 == 0) || (68 <= ch <= 96 && ch % 4 == 0)
  {
  }

  lemma RowC(ch: byte)
    ensures ch in CENTER_CH_5G_C <==> (100 <= ch <= 112 && ch % 2 == 0) || (116 <= ch <= 128 && ch % 2 == 0)
  {
  }

  lemma RowD(ch: byte)
    ensures ch in CENTER_CH_5G_D <==> (132 <= ch <= 144 && ch % 2 == 0) || (149 <= ch <= 161 && ch % 2 == 1)
  {
  }

  lemma RowE(ch: byte)
    ensures ch in CENTER_CH_5G_E <==> 165 <= ch <= 177 && ch % 2 == 1
  {
  }

  /** Known channels of a 5 GHz group, by number. */
  lemma ChannelGroup5(g: nat, ch: byte)
    requires g < 14 && Known5G(ch) && GROUP_CHANNELS_5G[g] <= ch < GROUP_CHANNELS_5G[g + 1]
    ensures ClassifyChannel(ch) == Band5G(g)
  {
    assert g == 0 || g == 1 || g == 2 || g == 3 || g == 4 || g == 5 || g == 6
      || g == 7 || g == 8 || g == 9 || g == 10 || g == 11 || g == 12 || g == 13;
  }

  /** No channel is listed twice: the table ascends. */
  lemma TableAscends(i: nat, j: nat)
    requires i < j < CENTER_CH_5G_ALL_NUM
    ensures |CENTER_CH_5G| == CENTER_CH_5G_ALL_NUM && CENTER_CH_5G[i] < CENTER_CH_5G[j]
  {
    hide ClassifyChannel, CENTER_CH_5G_A, CENTER_CH_5G_B, CENTER_CH_5G_C, CENTER_CH_5G_D, CENTER_CH_5G_E;
    TableIs5G(0);
    RowLengths();
    if i < 15 {
      RowAscends(CENTER_CH_5G_A);
    } else if i < 30 {
      RowAscends(CENTER_CH_5G_B);
    } else if i < 44 {
      RowAscends(CENTER_CH_5G_C);
    } else if i < 58 {
      RowAscends(CENTER_CH_5G_D);
    } else {
      RowAscends(CENTER_CH_5G_E);
    }
    EntryRange(i);
    EntryRange(j);
  }

  lemma RowLengths()
    ensures |CENTER_CH_5G_A| == |CENTER_CH_5G_B| == 15 && |CENTER_CH_5G_C| == |CENTER_CH_5G_D| == 14 && |CENTER_CH_5G_E| == 7
  {
  }

  /** Each row of the table keeps to its own range. */
  lemma EntryRange(i: nat)
    requires i < CENTER_CH_5G_ALL_NUM
    ensures |CENTER_CH_5G| == CENTER_CH_5G_ALL_NUM
    ensures i < 15 ==> CENTER_CH_5G[i] <= 48
    ensures 15 <= i < 30 ==> 52 <= CENTER_CH_5G[i] <= 96
    ensures 30 <= i < 44 ==> 100 <= CENTER_CH_5G[i] <= 128
    ensures 44 <= i < 58 ==> 132 <= CENTER_CH_5G[i] <= 161
    ensures 58 <= i ==> 165 <= CENTER_CH_5G[i]
  {
    hide ClassifyChannel, CENTER_CH_5G_A, CENTER_CH_5G_B, CENTER_CH_5G_C, CENTER_CH_5G_D, CENTER_CH_5G_E;
    TableIs5G(0);
    RowLengths();
    var ch := CENTER_CH_5G[i];
    if i < 15 {
      assert ch in CENTER_CH_5G_A;
      RowA(ch);
    } else if i < 30 {
      assert ch in CENTER_CH_5G_B;
      RowB(ch);
    } else if i < 44 {
      assert ch in CENTER_CH_5G_C;
      RowC(ch);
    } else if i < 58 {
      assert ch in CENTER_CH_5G_D;
      RowD(ch);
    } else {
      assert ch in CENTER_CH_5G_E;
      RowE(ch);
    }
  }

  /** Table entries of a 5 GHz group, by position. */
  lemma EntryGroup(g: nat, i: nat)
    requires g < 14 && GROUP_STARTS_5G[g] <= i < GROUP_STARTS_5G[g + 1]
    ensures i < |CENTER_CH_5G| && ClassifyChannel(CENTER_CH_5G[i]) == Band5G(g)
  {
    hide ClassifyChannel, Known5G;
    TableIs5G(0);
    GroupBounds(g);
    EntryBounds(g, i);
    TableIsKnown5G(CENTER_CH_5G[i]);
    ChannelGroup5(g, CENTER_CH_5G[i]);
  }

  lemma GroupBounds(g: nat)
    requires g < 14
    ensures GROUP_STARTS_5G[g + 1] <= 65
  {
  }

  lemma EntryBounds(g: nat, i: nat)
    requires g < 14 && |CENTER_CH_5G| == 65 && GROUP_STARTS_5G[g] <= i < GROUP_STARTS_5G[g + 1] <= 65
    ensures GROUP_CHANNELS_5G[g] <= CENTER_CH_5G[i] < GROUP_CHANNELS_5G[g + 1]
  {
    if i < 15 {
      BoundsInRow(CENTER_CH_5G_A, 0, g, i);
    } else if i < 30 {
      BoundsInRow(CENTER_CH_5G_B, 15, g, i);
    } else if i < 44 {
      BoundsInRow(CENTER_CH_5G_C, 30, g, i);
    } else if i < 58 {
      BoundsInRow(CENTER_CH_5G_D, 44, g, i);
    } else {
      BoundsInRow(CENTER_CH_5G_E, 58, g, i);
    }
  }

  lemma BoundsInRow(row: seq<byte>, from: nat, g: nat, i: nat)
    requires (row, from) in
               [(CENTER_CH_5G_A, 0), (CENTER_CH_5G_B, 15), (CENTER_CH_5G_C, 30), (CENTER_CH_5G_D, 44), (CENTER_CH_5G_E, 58)]
    requires g < 14 && from <= i < from + |row| && GROUP_STARTS_5G[g] <= i < GROUP_STARTS_5G[g + 1]
    ensures GROUP_CHANNELS_5G[g] <= row[i - from] < GROUP_CHANNELS_5G[g + 1]
  {
    RowAscends(row);
    assert g == 0 || g == 1 || g == 2 || g == 3 || g == 4 || g == 5 || g == 6
      || g == 7 || g == 8 || g == 9 || g == 10 || g == 11 || g == 12 || g == 13;
  }

  lemma RowAscends(row: seq<byte>)
    requires row in [CENTER_CH_5G_A, CENTER_CH_5G_B, CENTER_CH_5G_C, CENTER_CH_5G_D, CENTER_CH_5G_E]
    ensures forall i, j | 0 <= i < j < |row| :: row[i] < row[j]
  {
  }

  /** Every entry of the table is a 5 GHz channel, so each gets a group. */
  lemma TableIs5G(i: nat)
    requires i < CENTER_CH_5G_ALL_NUM
    ensures |CENTER_CH_5G| == CENTER_CH_5G_ALL_NUM && ClassifyChannel(CENTER_CH_5G[i]).Band5G?
  {
    if i < 15 {
      RowIs5G(CENTER_CH_5G_A, i);
    } else if i < 30 {
      RowIs5G(CENTER_CH_5G_B, i - 15);
    } else if i < 44 {
      RowIs5G(CENTER_CH_5G_C, i - 30);
    } else if i < 58 {
      RowIs5G(CENTER_CH_5G_D, i - 44);
    } else {
      RowIs5G(CENTER_CH_5G_E, i - 58);
    }
  }

  lemma RowIs5G(row: seq<byte>, i: nat)
    requires row in [CENTER_CH_5G_A, CENTER_CH_5G_B, CENTER_CH_5G_C, CENTER_CH_5G_D, CENTER_CH_5G_E]
    requires i < |row|
    ensures ClassifyChannel(row[i]).Band5G?
  {
    var ch := row[i];
    assert i == 0 || i == 1 || i == 2 || i == 3 || i == 4 || i == 5 || i == 6 || i == 7
      || i == 8 || i == 9 || i == 10 || i == 11 || i == 12 || i == 13 || i == 14;
  }
}
