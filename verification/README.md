# WiFiDriver: EFUSE, TX power and 802.11 frames

A Dafny model of three parts of the driver, with proofs about them.

* **EFUSE decoder** (`EfuseLog`, `EfuseLaws`, `EfuseDecoder`). The one-time-programmable memory is a
  total function from address to byte. `EfuseDecoder.ReadEFuse` is the driver's read loop over that
  device, with the words in a 64 x 4 array and every device read recorded. It is proved, for any
  contents at all, against `EfuseLog.Log`, the list of word writes the contents stand for. The laws are
  about that list: decoding undoes encoding, and a packet programmed at the end changes its own words only.
* **TX-power engine** (`Channels`, `Rates`, `PgBlock`, `ByRate`, `Decimal`, `Limits`, `PowerQuery`,
  `EepromManager`, `EfusePower`). `EepromManager.Manager` holds the driver's tables as arrays, loads
  them in place in the driver's stages and answers queries from them. `PowerQuery.DirectPower` states the
  same answer as one formula over the EFUSE map, the register table and the limit table.
  `StagedIsDirect` says that a loaded manager answers every query by that formula.
* **Frame builder and scanner** (`Elements`, `Dot11Frames`, `FrameLaws`, `ScanProbe`). The builders grow
  a byte vector; the scanner walks elements. The laws say which element lists the frames carry, that the
  scanner understands what the builders make, and exactly when the negotiated association request is right.

Integers are unbounded in Dafny, so widths are written out: `byte`, `int8`, `word` and `dword` are ranges,
casts are `ToByte` and `ToInt8`, and the decimal reader's 32-bit accumulator wraps explicitly. Masks and
shifts by constants are division and remainder. `getenv` switches are boolean or optional parameters; the
two embedded vendor tables are parameters, so results hold for every table.

## What turned out not to hold

Where the code and its comments differ, the model follows the code and gives the exact condition.

* A record for a section beyond 63 is meant to be skipped whole. The mask is not shifted there, so the skip
  is exact only when all four words or none are present (or the record ends the readable area): `SkipIsExact`,
  with a log that loses a packet in `SkipLosesARecord`.
* The limit cap bounds only the by-rate offset. The final power can exceed the regulatory limit; `PowerCap`
  says exactly when it does not, and `LimitCanBeExceeded` gives a map and a limit row for which it does.
* At 5 GHz "no CCK" is decided by a rate below 0x0C, so 11M (0x16) passes and gets the bare group base: `CckAt5G`.
* The SSID length byte keeps eight bits of the length. Every list law holds if and only if the SSID has at
  most 255 bytes.
* The negotiated rewrite looks for a byte 0x30 from the end. It finds the RSN tag if and only if neither
  capability byte is 0x30, and it drops every element after RSN, not just RSN.
* By-rate offsets are signed bytes; undoing normalisation is exact if and only if raw less base is at least
  -128, else it is exact modulo 256 only. `NormalisationCanWrap` is a row for which it is not exact.
* `ScanProbe.h` speaks of a non-empty SSID; the scanner also accepts an empty one, and an empty target matches
  a frame that names no SSID at all. `NonEmptySsidIff` says exactly when a reported SSID is not empty.
* An empty EFUSE leaves the shadow map as the memory it finds, so its first packet also resets paths it does
  not program: every answered query on an active one then returns 63 (`MissingPacketEffect`). Base answers stay
  the same exactly when the memory said what a blank map says (`AnswersKeptIff`); a case from 2 to 63 is
  `FirstPacketCanChangePower`.
* The layout comment counts three bytes of 80 MHz diffs; the code reads four, and so does the model.

## Model
| member | source | states |
|---|---|---|
| EfuseDecoder.ReadEFuse | src/EepromManager.cpp:1266-1424 | for any contents: a window inside the map gets that slice of the decoded map, a larger window or an empty EFUSE changes nothing, the loop ends, and device reads are at strictly increasing addresses of at most 513 |
| EfuseDecoder.ReadRecord | src/EepromManager.cpp:1314-1397 | one turn of the loop consumes exactly one record and fetches the byte after it |
| EfuseDecoder.ReadWords | src/EepromManager.cpp:1346-1373 | the enabled words of a section, low byte first, cut off at the end of the readable area |
| EfuseDecoder.SkipWords | src/EepromManager.cpp:1374-1388 | the skip of a record outside the map, with its unshifted mask |
| EfuseDecoder.Collect | src/EepromManager.cpp:1403-1409 | words become the 512-byte map, little endian |
| EfuseLog.LogRoundTrip | src/EepromManager.cpp:1310-1398 | decoding any encoded packet list yields its word writes in order and stops where it ends, up to a completely full EFUSE |
| EfuseLaws.HeaderByBits | src/EepromManager.cpp:1310-1398 | for any bytes: where the log stops, how both header forms split into section and mask, and where the next header is, also after a header that enables nothing |
| EfuseLaws.WordsByMask | src/EepromManager.cpp:1346-1373 | for any bytes and mask: which words a record programs, from which two bytes, what the end of the readable area cuts off, and where the record ends |
| EfuseLaws.SlotRoundTrip | src/EepromManager.cpp:1289-1409 | after decoding, every word holds the value of the last packet that programmed it, and 0xFFFF where none did |
| EfuseLaws.MapRoundTrip | src/EepromManager.cpp:1310-1409 | each two bytes of the decoded map are the low and high byte of the last writer's word, or 0xFF where nothing was written |
| EfuseLaws.LogIsLocal | src/EepromManager.cpp:1310-1398 | for any contents the decoder depends only on the bytes before the end it finds, and goes on from there |
| EfuseLaws.AppendPacket | src/EepromManager.cpp:1310-1398 | programming one more packet at the end of any log replaces exactly that packet's words |
| EfuseLaws.HeaderFormIrrelevant | src/EepromManager.cpp:1314-1344 | one-byte and extended headers of the same packet decode to the same writes |
| EfuseLaws.SkipIsExact | src/EepromManager.cpp:1374-1388 | when exactly the skip of an out-of-map record ends where its data ends, for all sixteen masks |
| EfuseLaws.SkipLosesARecord | src/EepromManager.cpp:1374-1388 | a concrete log on which the skip swallows the following packet |
| EfusePower.BlockKeptIff | src/EepromManager.cpp:1289-1416 | programming a packet that writes no word of a path's 42 bytes leaves that block of the shadow map as it was, if and only if the EFUSE was not empty or the memory kept for an empty one is blank there |
| EfusePower.AnswersKeptIff | src/EepromManager.cpp:1289-1416 | the base-power answers of a path the packet misses stay the same if and only if the EFUSE was not empty, or the memory found in its place says for that path what a blank map says |
| EfusePower.MissingPacketEffect | src/EepromManager.cpp:1289-1416 | programming a packet that misses a path's block changes no power answer on it, except that every answered query on an active path returns 63 once the EFUSE was empty; the packet may share a section with the block |
| EfusePower.OtherPacketsKeepPower | src/EepromManager.cpp:1310-1416 | on any EFUSE that is not empty, a packet outside sections 2..22 leaves every power answer unchanged |
| EfusePower.FirstPacketCanChangePower | src/EepromManager.cpp:1302-1305 | the first packet of an empty EFUSE over zeroed memory, programming path 0, moves an answer of path 1 from 2 to 63, and start-up accepts the map before and after |
| Channels.TableIs5G | src/EepromManager.cpp:405-411 | each of the 65 table channels classifies to a 5 GHz group |
| Channels.TableIsKnown5G | src/EepromManager.cpp:405-411 | which channel numbers the table holds, by ranges |
| Channels.TableAscends | src/EepromManager.cpp:405-411 | the table ascends, so no channel has two entries |
| EepromManager.Manager.LoadedBases | src/EepromManager.cpp:368-538 | after a load the 14 channels and the 65 entries of an active path hold the base byte of their group at its map address, groups given by where they begin |
| Rates.IdxRateInverse | src/EepromManager.cpp:239-264 | rate to index and index to rate are inverse both ways |
| Rates.IndexFamilies | src/EepromManager.cpp:239-264 | which codes have an index, by bit rate, and that indices ascend with the code in each family |
| Rates.SectionAgrees | src/EepromManager.cpp:321-333 | every index has a section, the one its rate classifies to |
| PgBlock.BlockRoundTrip | src/EepromManager.cpp:420-510 | parsing a 42-byte block recovers every base and every diff it was encoded from |
| PgBlock.ReencodeIsExact | src/EepromManager.cpp:484-509 | re-encoding what was parsed gives the block back if and only if the passed-over nibbles are zero |
| PgBlock.NibbleStream | src/EepromManager.cpp:463-509 | every nibble of a block, in stream order, lands in the diff it is for at its map address; slots without a nibble are zero |
| EepromManager.Manager.ParsePath | src/EepromManager.cpp:453-510 | one path's 42 bytes reach exactly the slots they are for; the cursor advances by 18 and 24; other paths keep theirs |
| EepromManager.Manager.Scatter2G | src/EepromManager.cpp:514-522 | group bases reach all 14 channels |
| EepromManager.Manager.Scatter5G | src/EepromManager.cpp:523-529 | group bases reach all 65 channels |
| EepromManager.Manager.LoadTxPowerInfo | src/EepromManager.cpp:413-538 | after a load every slot of every active path is a function of the map alone, and what no load writes is still zero |
| ByRate.RateMapRow | src/EepromManager.cpp:277-304 | the register map is two banks of twelve registers, each carrying four consecutive rate indices |
| ByRate.RowKeepsRegister | src/EepromManager.cpp:549-570 | a row with band and path in range and a known register gives its whole 32-bit value to four cells; any other row addresses no cell |
| ByRate.RowSaysBySearch | src/EepromManager.cpp:544-569 | a row says something about a cell if and only if the search through the register table finds it, and then that byte of the value |
| ByRate.RawIsLastRow | src/EepromManager.cpp:549-570 | the raw value of a cell is that of the last row addressing it, else 0 |
| ByRate.NormalisationInvertible | src/EepromManager.cpp:584-613 | offset plus section base is the raw value modulo 256, and equals it if and only if the difference fits a signed byte |
| ByRate.NormalisationCanWrap | src/EepromManager.cpp:584-613 | one register row after which a cell's offset plus its section base is not its raw value |
| ByRate.SmallBytesExact | src/EepromManager.cpp:584-613 | tables of bytes up to 127 normalise exactly |
| ByRate.BaseRateIsZero | src/EepromManager.cpp:572-613 | the base rate of every section ends at offset 0 on active paths |
| ByRate.OffsetByLayout | src/EepromManager.cpp:308-319 | every offset is the raw value less that of 11M, 54M, or the eighth rate of its HT or VHT group, modulo 256; 0 at those rates |
| EepromManager.Manager.ApplyRow | src/EepromManager.cpp:549-570 | one row extends the raw table by exactly the cells it addresses |
| EepromManager.Manager.CaptureBases | src/EepromManager.cpp:572-582 | every section base of an active path is the raw value at the section's base rate, and other paths' bases stay |
| EepromManager.Manager.Normalise | src/EepromManager.cpp:584-613 | in-place subtraction yields every offset of the path and touches no other |
| EepromManager.Manager.LoadTxPowerByRate | src/EepromManager.cpp:540-619 | from any prior state the two tables are those the rows define |
| Decimal.ParseDecimal | src/EepromManager.cpp:346-350 | the value of the leading digits modulo 256, through a wrapping 32-bit accumulator |
| Decimal.ParseUndoesPrint | src/EepromManager.cpp:346-350 | reading a printed number back, with any leading zeros and any non-digit tail, gives it modulo 256 |
| Limits.LimitIsLastRow | src/EepromManager.cpp:637-697 | a cell's limit is that of the last row naming it, else 63; malformed rows never matter |
| Limits.RowSaysByNames | src/EepromManager.cpp:637-697 | a row says something about a cell if and only if its seven strings name that cell and value |
| PowerQuery.LimitInWords | src/EepromManager.cpp:637-903 | the limit of a query is the value of the last row written for it in words, as a signed byte strictly between -63 and 63, else none |
| Limits.OverrideByName | src/EepromManager.cpp:628-634 | an override equal up to case to a known name selects that regulation, any other selects FCC |
| EepromManager.Manager.ReadLimitRow | src/EepromManager.cpp:638-696 | reading a row string by string finds the cell and value the row says, or nothing |
| EepromManager.Manager.LoadTxPowerLimit | src/EepromManager.cpp:621-704 | from any prior state every array cell agrees with the plain scan of the rows, and the override picks the regulation |
| Limits.StrCaseEq | src/EepromManager.cpp:16-25 | the compare holds if and only if the strings are equal up to ASCII case |
| Limits.EqualUpToCase | src/EepromManager.cpp:16-25 | equality up to case, character by character in codes |
| EepromManager.Manager.StreamDiffs | src/EepromManager.cpp:786-806 | HT and VHT rates add the first as many diffs as they have streams |
| EepromManager.Manager.ChainDiffs | src/EepromManager.cpp:774-779 | legacy rates add one diff per transmit chain, at most four |
| EepromManager.Manager.GetTxPowerIndexBase | src/EepromManager.cpp:706-934 | the answer over whatever the tables hold, always at most 63 |
| EepromManager.Manager.StagesAreDirect | src/EepromManager.cpp:706-934 | with any of the tables loaded, every answer is the direct formula, a table not loaded counting as empty; before the first load every answer is 0 |
| PowerQuery.AnswersIff | src/EepromManager.cpp:737-810 | exactly which rates and channels are answered |
| EepromManager.Manager.StagedIsDirect | src/EepromManager.cpp:413-934 | a loaded manager answers every query with the direct formula over map and tables |
| PowerQuery.BaseAt24 | src/EepromManager.cpp:765-806 | base power at 2.4 GHz for every rate by map address and number of diffs |
| PowerQuery.BaseAt5 | src/EepromManager.cpp:807-848 | base power at 5 GHz for every rate by map address and number of diffs |
| PowerQuery.OffsetApplies | src/EepromManager.cpp:867-880 | to which rates and bands the by-rate offset applies |
| PowerQuery.NextStreamAddsOneDiff | src/EepromManager.cpp:781-847 | one more spatial stream adds exactly one more diff |
| PowerQuery.NextChainAddsOneDiff | src/EepromManager.cpp:765-818 | one more transmit chain adds exactly one more diff, up to four |
| PowerQuery.SettingsDetermineAnswers | src/EepromManager.cpp:438-848 | two maps answer all base-power queries of a path alike if and only if they agree on every base byte and every diff the parser reads |
| PowerQuery.PowerCap | src/EepromManager.cpp:878-933 | the power of every answered query, idle paths included: base, offset and boost together, cut to the larger of limit and boosted base, clamped to 0..63; and exactly when it respects the limit |
| PowerQuery.LimitCanBeExceeded | src/EepromManager.cpp:905-918 | a map with base 47 and a limit row of 36 for channel 6: the query answers 49 |
| EfusePower.LoudMapDecodes | src/EepromManager.cpp:1310-1416 | an EFUSE log of two packets decodes to that map, and start-up accepts it |
| PowerQuery.CckAt5G | src/EepromManager.cpp:807-848 | of the CCK rates only 11M is answered at 5 GHz, with no diff |
| PowerQuery.BlankMapSaturates | src/EepromManager.cpp:40-55 | over a blank map every answered query on an active path returns 63 |
| EfusePower.BlankStart | src/EepromManager.cpp:40-55 | a start without autoload answers 63 to every query of an active path |
| EfusePower.AcceptedByOneByte | src/EepromManager.cpp:1428-1438 | start-up looks at exactly the eleven bytes 34 to 44 |
| EepromManager.Manager.constructor | src/EepromManager.h:110-156 | every slot of every table starts at zero, the tables are separate from each other, the shadow map holds what memory held |
| EepromManager.Manager.Init | src/EepromManager.cpp:27-55 | start-up leaves every table loaded from the shadow map it produced, or gives up and leaves every table and loaded flag as it was |
| EepromManager.Manager.LateInitFor8814A | src/EepromManager.cpp:81-98 | the late re-read leaves the manager loaded from the freshly decoded map, whatever was loaded before, and keeps the other two tables |
| EepromManager.Manager.ShadowMapUpdate | src/EepromManager.cpp:1183-1199 | the shadow map is all 0xFF, the decoded EFUSE, or unchanged for an empty one |
| Elements.ParseUndoesEncode | src/ScanProbe.cpp:28-46 | the element walk recovers an encoded list and consumes it exactly |
| Elements.EncodeUndoesParse | src/ScanProbe.cpp:28-46 | encoding what was walked gives back the bytes consumed |
| Elements.RawSsidParses | src/Dot11Frames.cpp:81-82 | a list led by a built SSID parses as intended if and only if the SSID fits its length byte |
| Dot11Frames.BuildBeacon | src/Dot11Frames.cpp:74-89 | header, fixed fields and element list of a beacon |
| Dot11Frames.BuildProbeResp | src/Dot11Frames.cpp:109-123 | the same body under a probe-response header |
| Dot11Frames.BuildAssocResp | src/Dot11Frames.cpp:98-108 | association response with its fixed fields and rates |
| Dot11Frames.BuildAssocRequest | src/Dot11Frames.cpp:126-198 | association request with the capabilities patched into its RSN element |
| Dot11Frames.BuildNegotiatedAssocRequest | src/Dot11Frames.cpp:228-250 | the base frame, or the base frame cut by the backward search plus a new RSN element |
| Dot11Frames.BuildEapolKey | src/Dot11Frames.cpp:204-213 | EAPOL frame to the access point, its first 24 bytes spelled out |
| Dot11Frames.BuildEapolKeyFromAp | src/Dot11Frames.cpp:216-224 | EAPOL frame from the access point, its first 24 bytes spelled out |
| FrameLaws.HeaderFields | src/Dot11Frames.cpp:39-48 | a header reads back its frame control, addresses and the sequence number modulo 4096 |
| FrameLaws.BeaconBytes | src/Dot11Frames.cpp:66-89 | a whole beacon, byte by byte |
| FrameLaws.ProbeRespBytes | src/Dot11Frames.cpp:109-123 | a whole probe response: its addresses and the body of the beacon |
| FrameLaws.AssocRespBytes | src/Dot11Frames.cpp:98-108 | a whole association response, byte by byte |
| FrameLaws.AssocRequestBytes | src/Dot11Frames.cpp:126-198 | a whole association request, byte by byte: to the BSSID, from the station |
| FrameLaws.NegotiatedBytes | src/Dot11Frames.cpp:228-250 | a whole negotiated request, byte by byte, when no capability byte is 0x30 |
| FrameLaws.BeaconAndProbeAgree | src/Dot11Frames.cpp:74-123 | beacon and probe response agree from byte 24 on |
| FrameLaws.EapolCarriesBody | src/Dot11Frames.cpp:204-224 | stripping 32 bytes gives the key body back |
| FrameLaws.BeaconElements | src/Dot11Frames.cpp:74-89 | the bytes after the fixed fields are exactly the intended elements, if and only if the SSID fits |
| FrameLaws.ProbeRespElements | src/Dot11Frames.cpp:109-123 | the same for probe responses |
| FrameLaws.AssocRespElements | src/Dot11Frames.cpp:98-108 | the bytes after the fixed fields are exactly the rates element |
| FrameLaws.AssocRequestElements | src/Dot11Frames.cpp:126-198 | the bytes after the fixed fields are exactly the intended elements in order, if and only if the SSID fits |
| FrameLaws.CutPlace | src/Dot11Frames.cpp:238-241 | where the backward search stops, for every SSID and all capabilities |
| FrameLaws.NegotiatedIsRewrite | src/Dot11Frames.cpp:228-250 | the rewrite is prefix plus negotiated RSN element if and only if no capability byte is 0x30 |
| FrameLaws.NegotiatedElements | src/Dot11Frames.cpp:228-250 | the rewritten frame parses as SSID, rates and the negotiated RSN if and only if the SSID fits and no capability byte is 0x30 |
| ScanProbe.ParseAnyBeacon | src/ScanProbe.cpp:14-51 | the walk yields the fold of all elements, or nothing for other frames |
| ScanProbe.ParseBeacon | src/ScanProbe.cpp:53-59 | a targeted scan succeeds if and only if the frame is a beacon or probe response and the body of its last SSID element, or the empty name when it has none, is the target |
| ScanProbe.FoldFindsLast | src/ScanProbe.cpp:26-50 | SSID, channel and group cipher of a scan are those of the last element that carries them, in any frame |
| ScanProbe.FoldAccumulates | src/ScanProbe.cpp:26-50 | pairwise ciphers and AKM suites are those of all RSN elements in order, in any frame |
| ScanProbe.NonEmptySsidIff | src/ScanProbe.cpp:14-51 | a scan reports a non-empty SSID if and only if the last SSID element is there and not empty |
| ScanProbe.RsnListsRoundTrip | src/ScanProbe.cpp:36-44 | the scanner reads back group, ciphers and AKM suites of any two suite lists, in order |
| ScanProbe.RsnByPosition | src/ScanProbe.cpp:36-44 | of any RSN body: how many suites are read and from which four bytes each |
| ScanProbe.ScannedFrames | src/ScanProbe.cpp:14-25 | exactly which frames are scanned, and where the sender is read |
| ScanProbe.BeaconIsScanned | src/ScanProbe.cpp:14-51 | scanning a built beacon finds sender, channel and security, and the SSID if and only if it fits |
| ScanProbe.ProbeRespIsScanned | src/ScanProbe.cpp:14-51 | scanning a probe response finds what the beacon announces |

## Left out

- USB and register access, logging, EFUSE power switching and chip probing: device plumbing. The EFUSE byte-read command is a method of the device that returns the byte at an address.
- The autoload probe of four EFUSE bytes before the shadow map is filled: its outcome is a parameter of `Init`.
- The exception thrown when no TX-power byte is programmed is modelled as `ok == false`.
- The shipped rows of the two vendor tables: both are parameters, so nothing depends on them.
- MAC address, thermal, crystal, amplifier and RFE readers: single bytes with one branch each.
- Authentication frames: a header and three constants.
- `ScanProbe::chooseCipher` and the RSSI field of the scan result: a first-match search and a constant.
- Memory layout: each table is an array object of its own with ranged integers as elements.
- Firmware download, station mode, WPA2 handshake, power tracking and the PHY table loader.
