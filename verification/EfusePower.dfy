/** From the EFUSE log to the answered power: what programming more packets can and cannot change. */
module EfusePower {
  import opened Bytes
  import opened Dimensions
  import opened PgBlock
  import Query = PowerQuery
  import EfuseLog
  import EfuseLaws
  import EepromManager

  /** Two maps hold the same 42 bytes for a path. */
  ghost predicate SameBlock(e: seq<byte>, f: seq<byte>, path: nat)
    requires |e| == MAP_LEN && |f| == MAP_LEN && path < MAX_RF_PATH
  {
    forall k: nat | k < PATH_BYTES :: BlockByte(e, path, k) == BlockByte(f, path, k)
  }

  lemma SameBlockSameSettings(e: seq<byte>, f: seq<byte>, path: nat)
    requires |e| == MAP_LEN && |f| == MAP_LEN && path < MAX_RF_PATH && SameBlock(e, f, path)
    ensures Query.SameSettings(e, f, path)
  {
    hide BlockByte, MsbDiff, LsbDiff;
  }

  /** So they answer every power query of the path alike. */
  lemma SameBlockSamePower(e: seq<byte>, f: seq<byte>, rows: seq<dword>, strings: seq<string>, active: nat,
                           regulation: nat, enabled: bool, path: nat, rate: byte, ntx: nat, bw: nat, ch: byte)
    requires |e| == MAP_LEN && |f| == MAP_LEN
    requires path < MAX_RF_PATH ==> SameBlock(e, f, path)
    ensures Query.DirectPower(e, rows, strings, active, regulation, enabled, path, rate, ntx, bw, ch)
         == Query.DirectPower(f, rows, strings, active, regulation, enabled, path, rate, ntx, bw, ch)
  {
    hide Query.DirectBase, Query.DirectLimit, Query.ByRateOffset, Query.Combine, Query.SameSettings, SameBlock;
    if path < MAX_RF_PATH && Query.Answers(rate, ch) {
      SameBlockSameSettings(e, f, path);
      Query.SameSettingsSameBase(e, f, path, rate, ntx, bw, ch);
    }
  }

  /** `d` is `c` with packet `p` programmed where the log of `c` ends. */
  ghost predicate Appended(c: EfuseLog.Contents, d: EfuseLog.Contents, p: EfuseLog.Packet) {
    && EfuseLog.ValidPacket(p)
    && EfuseLaws.AgreeBelow(c, d, EfuseLog.LogEnd(c, 0))
    && EfuseLog.Holds(d, EfuseLog.LogEnd(c, 0), EfuseLog.EncodePacket(p))
    && EfuseLog.LogEnd(c, 0) + |EfuseLog.EncodePacket(p)| <= EfuseLog.REAL_CONTENT_LEN
    && EfuseLog.AtEnd(d, EfuseLog.LogEnd(c, 0) + |EfuseLog.EncodePacket(p)|)
  }

  /** The packet programs the word that holds byte `k` of the path's block. */
  predicate TouchesByte(p: EfuseLog.Packet, path: nat, k: nat)
    requires path < MAX_RF_PATH
  {
    EfuseLaws.WritesSlot(p, (BlockAt(path) + k) / 8, (BlockAt(path) + k) % 8 / 2)
  }

  /** The packet programs no word that holds one of the path's 42 bytes. */
  predicate MissesBlock(p: EfuseLog.Packet, path: nat)
    requires path < MAX_RF_PATH
  {
    forall k: nat | k < PATH_BYTES :: !TouchesByte(p, path, k)
  }

  predicate BlockBlank(e: seq<byte>, path: nat)
    requires |e| == MAP_LEN && path < MAX_RF_PATH
  {
    forall k: nat | k < PATH_BYTES :: BlockByte(e, path, k) == 0xFF
  }

  lemma AppendedByte(c: EfuseLog.Contents, d: EfuseLog.Contents, p: EfuseLog.Packet, path: nat, k: nat)
    requires Appended(c, d, p) && path < MAX_RF_PATH && k < PATH_BYTES
    requires !TouchesByte(p, path, k)
    ensures BlockByte(EfuseLog.MapOf(d), path, k) == BlockByte(EfuseLog.MapOf(c), path, k)
  {
    hide EfuseLog.EncodePacket, EfuseLog.Holds, EfuseLog.AtEnd, EfuseLog.LastWrite, EfuseLaws.AgreeBelow,
         EfuseLaws.WritesSlot;
    var at := BlockAt(path) + k;
    EfuseLaws.AppendPacket(c, d, p, at / 8, at % 8 / 2);
  }

  /** After programming, the EFUSE is not empty; it was empty before only if it read 0xFF first. */
  lemma FirstByteKept(c: EfuseLog.Contents, d: EfuseLog.Contents, p: EfuseLog.Packet)
    requires Appended(c, d, p)
    ensures d(0) != 0xFF
    ensures c(0) == 0xFF ==> EfuseLog.Log(c, 0) == []
  {
    hide EfuseLog.RecordAt;
    if c(0) == 0xFF {
      assert EfuseLog.LogEnd(c, 0) == 0;
      EfuseLog.PacketRoundTrip(d, 0, p);
    } else {
      EfuseLog.RecordAdvances(c, 1, c(0));
      EfuseLaws.EndAdvances(c, EfuseLog.RecordAt(c, 1, c(0)).next);
      assert EfuseLog.LogEnd(c, 0) > 0;
    }
  }

  /** What an EFUSE update makes of the shadow map. */
  ghost function Shadow(c: EfuseLog.Contents, prior: seq<byte>): (e: seq<byte>)
    requires |prior| == MAP_LEN
    ensures |e| == MAP_LEN
  {
    EepromManager.Manager.ShadowOf(c, false, prior)
  }

  /** Programming a packet that misses a path's block, on any device, leaves that block of the
      shadow map as it was if and only if the EFUSE was not empty, or was but the memory the map
      would then keep is blank there. */
  lemma BlockKeptIff(c: EfuseLog.Contents, d: EfuseLog.Contents, p: EfuseLog.Packet, prior: seq<byte>, path: nat)
    requires Appended(c, d, p) && |prior| == MAP_LEN && path < MAX_RF_PATH && MissesBlock(p, path)
    ensures SameBlock(Shadow(d, prior), Shadow(c, prior), path) <==> c(0) != 0xFF || BlockBlank(prior, path)
  {
    hide Appended, EfuseLog.MapOf, TouchesByte, BlockByte;
    FirstByteKept(c, d, p);
    forall k: nat | k < PATH_BYTES
      ensures BlockByte(EfuseLog.MapOf(d), path, k) == BlockByte(EfuseLog.MapOf(c), path, k)
    {
      AppendedByte(c, d, p, path, k);
    }
    if c(0) == 0xFF {
      forall k: nat | k < PATH_BYTES ensures BlockByte(EfuseLog.MapOf(d), path, k) == 0xFF {
        EmptyLogByte(c, path, k);
      }
    }
  }

  lemma EmptyLogByte(c: EfuseLog.Contents, path: nat, k: nat)
    requires EfuseLog.Log(c, 0) == [] && path < MAX_RF_PATH && k < PATH_BYTES
    ensures BlockByte(EfuseLog.MapOf(c), path, k) == 0xFF
  {
    hide EfuseLog.Log;
  }

  /** The decoded map of an EFUSE with nothing programmed. */
  ghost function BlankMap(): (e: seq<byte>)
    ensures |e| == MAP_LEN && forall k | 0 <= k < MAP_LEN :: e[k] == 0xFF
  {
    seq(MAP_LEN, k => 0xFF)
  }

  /** Whatever memory the empty EFUSE left in the map, after its first packet a block that packet
      misses is blank. */
  lemma MissedBlockBlank(c: EfuseLog.Contents, d: EfuseLog.Contents, p: EfuseLog.Packet, prior: seq<byte>, path: nat)
    requires Appended(c, d, p) && |prior| == MAP_LEN && path < MAX_RF_PATH && MissesBlock(p, path) && c(0) == 0xFF
    ensures SameBlock(Shadow(d, prior), BlankMap(), path)
  {
    hide Appended, MissesBlock, EfuseLog.MapOf;
    FirstByteKept(c, d, p);
    BlockKeptIff(c, d, p, BlankMap(), path);
    assert Shadow(d, prior) == Shadow(d, BlankMap());
  }

  /** The base-power answers of a path the packet misses stay the same if and only if the EFUSE
      was not empty, or the memory found in its place says for that path what a blank map says. */
  lemma AnswersKeptIff(c: EfuseLog.Contents, d: EfuseLog.Contents, p: EfuseLog.Packet, prior: seq<byte>, path: nat)
    requires Appended(c, d, p) && |prior| == MAP_LEN && path < MAX_RF_PATH && MissesBlock(p, path)
    ensures Query.SameAnswers(Shadow(d, prior), Shadow(c, prior), path)
       <==> c(0) != 0xFF || Query.SameSettings(BlankMap(), prior, path)
  {
    hide Appended, MissesBlock, SameBlock, BlockBlank, BlankMap, Query.SameAnswers, Query.SameSettings;
    Query.SettingsDetermineAnswers(Shadow(d, prior), Shadow(c, prior), path);
    if c(0) == 0xFF {
      MissedBlockBlank(c, d, p, prior, path);
      SameBlockSameSettings(Shadow(d, prior), BlankMap(), path);
      SettingsThrough(Shadow(d, prior), BlankMap(), prior, path);
    } else {
      BlockKeptIff(c, d, p, prior, path);
      SameBlockSameSettings(Shadow(d, prior), Shadow(c, prior), path);
    }
  }

  lemma SettingsThrough(e: seq<byte>, f: seq<byte>, g: seq<byte>, path: nat)
    requires |e| == MAP_LEN && |f| == MAP_LEN && |g| == MAP_LEN && path < MAX_RF_PATH
    requires Query.SameSettings(e, f, path)
    ensures Query.SameSettings(e, g, path) <==> Query.SameSettings(f, g, path)
  {
    hide PgDiff, CckBase, Base24, Base5;
  }

  /** The whole effect on the power answers of a path the packet misses, even when it programs
      other words of a section the block shares: none, but for an active path of an empty EFUSE.
      There every answered query then returns full power, whatever it returned before. */
  lemma MissingPacketEffect(c: EfuseLog.Contents, d: EfuseLog.Contents, p: EfuseLog.Packet, prior: seq<byte>,
                            rows: seq<dword>, strings: seq<string>, active: nat, regulation: nat,
                            enabled: bool, path: nat, rate: byte, ntx: nat, bw: nat, ch: byte)
    requires Appended(c, d, p) && |prior| == MAP_LEN && path < MAX_RF_PATH && MissesBlock(p, path)
    ensures Query.DirectPower(Shadow(d, prior), rows, strings, active, regulation, enabled, path, rate, ntx, bw, ch)
         == if c(0) == 0xFF && path < active && Query.Answers(rate, ch) then Query.TXGI_MAX
            else Query.DirectPower(Shadow(c, prior), rows, strings, active, regulation, enabled, path, rate, ntx, bw, ch)
  {
    hide Appended, MissesBlock, BlockBlank, BlankMap, Shadow, Query.Answers, Query.DirectPower, SameBlock;
    var before, after := Shadow(c, prior), Shadow(d, prior);
    if c(0) != 0xFF {
      BlockKeptIff(c, d, p, prior, path);
      SameBlockSamePower(after, before, rows, strings, active, regulation, enabled, path, rate, ntx, bw, ch);
    } else if path < active && Query.Answers(rate, ch) {
      MissedBlockBlank(c, d, p, prior, path);
      SameBlockSamePower(after, BlankMap(), rows, strings, active, regulation, enabled, path, rate, ntx, bw, ch);
      Query.BlankMapSaturates(BlankMap(), rows, strings, active, regulation, enabled, path, rate, ntx, bw, ch);
    } else {
      IdlePower(after, before, rows, strings, active, regulation, enabled, path, rate, ntx, bw, ch);
    }
  }

  /** The map does not matter to a path that is not active, nor to a query that is not answered. */
  lemma IdlePower(e: seq<byte>, f: seq<byte>, rows: seq<dword>, strings: seq<string>, active: nat,
                  regulation: nat, enabled: bool, path: nat, rate: byte, ntx: nat, bw: nat, ch: byte)
    requires |e| == MAP_LEN && |f| == MAP_LEN && (path < active ==> !Query.Answers(rate, ch))
    ensures Query.DirectPower(e, rows, strings, active, regulation, enabled, path, rate, ntx, bw, ch)
         == Query.DirectPower(f, rows, strings, active, regulation, enabled, path, rate, ntx, bw, ch)
  {
    hide Query.DirectBase, Query.DirectLimit, Query.ByRateOffset, Query.Combine;
  }

  /** The sections the power blocks of all four paths lie in: bytes 0x10 to 0xB7 of the map. */
  predicate InPowerBlocks(section: nat) {
    2 <= section < 23
  }

  lemma OtherSectionMisses(p: EfuseLog.Packet, path: nat)
    requires path < MAX_RF_PATH && !InPowerBlocks(p.section)
    ensures MissesBlock(p, path)
  {
    BlockInSections(path);
  }

  lemma BlockInSections(path: nat)
    requires path < MAX_RF_PATH
    ensures 8 * 2 <= BlockAt(path) && BlockAt(path) + PATH_BYTES <= 8 * 23
  {
    if path < 3 {
      BlocksDisjoint(path, 3);
    }
  }

  /** In particular, on a device that is not empty a packet for any other section changes no power
      answer on any path. */
  lemma OtherPacketsKeepPower(c: EfuseLog.Contents, d: EfuseLog.Contents, p: EfuseLog.Packet, prior: seq<byte>,
                              rows: seq<dword>, strings: seq<string>, active: nat, regulation: nat,
                              enabled: bool, path: nat, rate: byte, ntx: nat, bw: nat, ch: byte)
    requires Appended(c, d, p) && |prior| == MAP_LEN && c(0) != 0xFF && !InPowerBlocks(p.section)
    ensures Query.DirectPower(Shadow(d, prior), rows, strings, active, regulation, enabled, path, rate, ntx, bw, ch)
         == Query.DirectPower(Shadow(c, prior), rows, strings, active, regulation, enabled, path, rate, ntx, bw, ch)
  {
    hide Appended, MissesBlock, Shadow, Query.DirectPower, SameBlock;
    if path < MAX_RF_PATH {
      OtherSectionMisses(p, path);
      MissingPacketEffect(c, d, p, prior, rows, strings, active, regulation, enabled, path, rate, ntx, bw, ch);
    } else {
      SameBlockSamePower(Shadow(d, prior), Shadow(c, prior), rows, strings, active, regulation, enabled, path, rate, ntx, bw, ch);
    }
  }

  /** A packet for the first two base bytes of path 0. */
  const FIRST_PACKET := EfuseLog.Packet(4, 13, [0, 0x2020, 0, 0], false)

  /** On an empty EFUSE over zeroed memory, with two active paths, programming it moves the answer of
      path 1 from 2 to 63. The driver starts with either map. */
  lemma FirstPacketCanChangePower(c: EfuseLog.Contents, d: EfuseLog.Contents, prior: seq<byte>)
    requires Appended(c, d, FIRST_PACKET) && c(0) == 0xFF && prior == seq(MAP_LEN, k => 0)
    ensures EepromManager.Manager.TxPowerInfoValid(Shadow(c, prior))
    ensures EepromManager.Manager.TxPowerInfoValid(Shadow(d, prior))
    ensures Query.DirectPower(Shadow(c, prior), [], [], 2, 0, false, 1, 0x0C, 0, 0, 6) == 2
    ensures Query.DirectPower(Shadow(d, prior), [], [], 2, 0, false, 1, 0x0C, 0, 0, 6) == 63
  {
    hide Appended, EfuseLog.MapOf, EfuseLog.ValidPacket, Query.DirectPower, MissesBlock;
    FirstByteKept(c, d, FIRST_PACKET);
    FirstPacketMisses();
    assert Query.Answers(0x0C, 6);
    MissingPacketEffect(c, d, FIRST_PACKET, prior, [], [], 2, 0, false, 1, 0x0C, 0, 0, 6);
    ZeroMapPower(prior);
    FirstPacketByte(c, d);
    assert Shadow(c, prior)[0x22] == 0 && Shadow(d, prior)[0x22] == 0x20;
  }

  lemma FirstPacketMisses()
    ensures MissesBlock(FIRST_PACKET, 1)
  {
    assert BlockAt(1) == 58;
  }

  lemma FirstPacketByte(c: EfuseLog.Contents, d: EfuseLog.Contents)
    requires Appended(c, d, FIRST_PACKET)
    ensures EfuseLog.MapOf(d)[0x22] == 0x20
  {
    hide EfuseLog.EncodePacket, EfuseLog.Holds, EfuseLog.AtEnd, EfuseLaws.AgreeBelow, EfuseLog.MapOf;
    assert EfuseLaws.WritesSlot(FIRST_PACKET, 4, 1);
    EfuseLaws.AppendPacket(c, d, FIRST_PACKET, 4, 1);
    EfuseLaws.SlotBytes(d, 4, 1);
  }

  lemma ZeroMapPower(e: seq<byte>)
    requires |e| == MAP_LEN && forall k | 0 <= k < MAP_LEN :: e[k] == 0
    ensures Query.DirectPower(e, [], [], 2, 0, false, 1, 0x0C, 0, 0, 6) == 2
  {
    assert Query.DiffSum(e, 1, Ofdm24, 0) == 0;
    assert Query.DiffSum(e, 1, Ofdm24, 1) == 0;
    assert Query.DirectBase(e, 1, 0x0C, 0, 0, 6) == 0;
  }

  /** Start-up looks at exactly eleven bytes: a map blank but for byte `k` is accepted if and only if
      `k` is one of 34 to 44. */
  lemma AcceptedByOneByte(e: seq<byte>, k: nat)
    requires |e| == MAP_LEN && k < MAP_LEN && e[k] != 0xFF && forall j | 0 <= j < MAP_LEN && j != k :: e[j] == 0xFF
    ensures EepromManager.Manager.TxPowerInfoValid(e) <==> 34 <= k <= 44
  {
  }

  /** A start without autoload, as on the 8814, answers full power to every query of an active path. */
  lemma BlankStart(c: EfuseLog.Contents, prior: seq<byte>, rows: seq<dword>, strings: seq<string>, active: nat,
                   regulation: nat, enabled: bool, path: nat, rate: byte, ntx: nat, bw: nat, ch: byte)
    requires |prior| == MAP_LEN && path < active && path < MAX_RF_PATH && Query.Answers(rate, ch)
    ensures Query.DirectPower(EepromManager.Manager.ShadowOf(c, true, prior), rows, strings, active, regulation, enabled,
                              path, rate, ntx, bw, ch) == 63
  {
    hide Query.DirectPower, Query.Answers;
    Query.BlankMapSaturates(EepromManager.Manager.ShadowOf(c, true, prior), rows, strings, active, regulation, enabled,
                            path, rate, ntx, bw, ch);
  }

  // ----- A device whose power exceeds its limit -----

  /** Two packets: a 2.4 GHz base and a first diff of path 0, and one further base byte. */
  const LOUD_LOG: seq<EfuseLog.Packet> :=
    [EfuseLog.Packet(3, 12, [0xFF2F, 0x00FF, 0, 0], false), EfuseLog.Packet(4, 13, [0, 0xFF20, 0, 0], false)]

  /** A device programmed with just these decodes to the map of `Query.LimitCanBeExceeded`, and
      the driver starts with it. */
  lemma LoudMapDecodes(c: EfuseLog.Contents)
    requires EfuseLog.AllValid(LOUD_LOG) && EfuseLog.Holds(c, 0, EfuseLog.EncodeLog(LOUD_LOG))
    requires EfuseLog.AtEnd(c, |EfuseLog.EncodeLog(LOUD_LOG)|)
    ensures EfuseLog.MapOf(c) == Query.LoudMap()
    ensures EepromManager.Manager.TxPowerInfoValid(EfuseLog.MapOf(c))
  {
    hide EfuseLog.Holds, EfuseLog.AtEnd, EfuseLog.EncodeLog, EfuseLog.MapOf;
    LoudLogLength();
    forall k | 0 <= k < MAP_LEN ensures EfuseLog.MapOf(c)[k] == Query.LoudMap()[k] {
      LoudByte(c, k);
    }
    assert Query.LoudMap()[0x22] == 0x20;
  }

  lemma LoudLogLength()
    ensures EfuseLog.AllValid(LOUD_LOG) && |EfuseLog.EncodeLog(LOUD_LOG)| == 8
  {
    hide EfuseLog.EncodeWords;
    assert LOUD_LOG[1..][1..] == [];
    assert |EfuseLog.EncodeLog(LOUD_LOG[1..])| == |EfuseLog.EncodePacket(LOUD_LOG[1])|;
    LoudWords();
  }

  lemma LoudWords()
    ensures |EfuseLog.EncodeWords(12, [0xFF2F, 0x00FF, 0, 0], 0)| == 4
    ensures |EfuseLog.EncodeWords(13, [0, 0xFF20, 0, 0], 0)| == 2
  {
  }

  lemma LoudByte(c: EfuseLog.Contents, k: nat)
    requires k < MAP_LEN && EfuseLog.AllValid(LOUD_LOG) && EfuseLog.Holds(c, 0, EfuseLog.EncodeLog(LOUD_LOG))
    requires |EfuseLog.EncodeLog(LOUD_LOG)| == 8 && EfuseLog.AtEnd(c, 8)
    ensures EfuseLog.MapOf(c)[k] == Query.LoudMap()[k]
  {
    hide EfuseLog.Holds, EfuseLog.AtEnd, EfuseLog.EncodeLog, EfuseLog.MapOf, EfuseLog.AllValid;
    var s, u := k / 8, k % 8 / 2;
    EfuseLaws.MapRoundTrip(c, LOUD_LOG, s, u);
    assert EfuseLaws.LastWriter(LOUD_LOG, 0, 3, 0) && EfuseLaws.LastWriter(LOUD_LOG, 0, 3, 1);
    assert EfuseLaws.LastWriter(LOUD_LOG, 1, 4, 1);
    assert (s, u) !in {(3, 0), (3, 1), (4, 1)} ==> EfuseLaws.Unwritten(LOUD_LOG, s, u);
  }
}
