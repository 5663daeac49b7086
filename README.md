# GameserverQuery in Dafny

GameserverQuery is a Go library and command-line tool that asks game
servers for their status: name, map, version, player counts, the player
list and the round-trip time. It speaks several wire protocols:

- A2S, Valve's Source query protocol, shared by `a2s`, `source` and `valheim`;
- the Minecraft Server List Ping;
- a Terraria packet probe;
- a Factorio status probe.

A registry maps protocol names and game aliases to protocols. On top of
the registry there are two query front ends:

- the `query` package's functions: `Query`, `AutoDetect` and `DiscoverServers`;
- the `QueryEngine`, which uses strategies.

Both offer three kinds of query:

- query one game at its port, then at the adjacent ports;
- auto-detect the protocol, trying the most likely protocols first;
- discover every server on a host, trying every known query port, or
  ports found by a dynamic scan.

This project models that core in Dafny and proves properties of it.

**What the model covers:**

- the byte layouts of every request and response;
- the decoders, with their error cases;
- game detection;
- the registry's maps;
- the port and protocol orders the front ends try;
- the "first online wins" rule that ends a query.

**How the outside world is modelled.** Each network exchange is a
function parameter:
- `Server` and `server` in the protocol modules map a request to a reply;
- `Probe` in `Query` stands for one protocol's `Query` against one port.

This lets the model state exactly what each front end asks for and what
it returns.

**Modules:**

- `Wrappers`: `Option` and `Result`.
- `Bytes`: little-endian fields and string/byte conversion.
- `Text`: `strconv`, `strings` and `fmt`.
- `NetAddr`: `net.SplitHostPort` and `net.JoinHostPort`.
- `Types`: the library's records.
- `A2SWire`: the A2S codec, which the three A2S files copy verbatim.
- `GameDetector`, `A2S`, `Source`, `Valheim`, `Minecraft`, `Terraria`,
  `Factorio`, `Registry`, `Query` and `Engine`: one module per Go file of
  the same name.

Where the code does something step by step, the model is a method with
loop invariants, proved equal to a specification function. Examples are
the `Registry` class, the parse loops and the port scans. Properties of
the specification functions are then proved as lemmas.

Notes on what the code does, which the model follows:

- Minecraft's `cleanMotd` strips `§` codes in a single pass, so it is not
  idempotent. `"§§cc"` cleans to `"§c"` (`Minecraft.StripFormattingSinglePass`).
- The dynamic port scan adds a seed port only when a server answers there.
  It does not always add it.
- A2S player scores are read as an unsigned 32-bit value, not a signed one.
- The AppID table in `protocol/a2s.go` differs from the one in
  `protocol/gamedetector.go`:
  - 240 is "counter-strike" in the former and "counter-source" in the latter;
  - 300 is "day-of-defeat" in the former and "day-of-defeat-source" in the latter.

  Each file's table is modelled as written (`A2S.AppIDTableAgainstDetector`).
- `query/query.go` and `query/engine.go` both declare `getDiscoveryPorts`,
  `getProtocolsForPort` and `debugLogf` in the same package, so the package
  does not build as it stands. Each module follows its own file's version:
  `Query` sorts the discovery ports, `Engine` leaves them unsorted, in map order.
- Every A2S read lands in a 1400-byte buffer. A longer datagram is cut
  there, so its tail is lost before parsing (`A2SWire.FirstRead`).
- Minecraft dials before it splits the address. An address without a port
  therefore fails in the dial, as "connection failed: dial tcp: address
  <addr>: missing port in address" (`Minecraft.QueryWithoutPort`).

## Model

| member | source | states |
|---|---|---|
| Bytes.EncodeLE16OfLE16 | protocol/a2s.go:391 | reading a 2-byte little-endian field and writing it back gives the same bytes |
| Bytes.EncodeLE32OfLE32 | protocol/a2s.go:138 | reading a 4-byte little-endian challenge and writing it back (`PutUint32`) gives the same bytes |
| Bytes.ToBytesLatin1 | protocol/a2s.go:504-513 | a byte string turned into a string and back is unchanged |
| Bytes.Utf8OfAscii | protocol/minecraft.go:236-240 | for ASCII text, the UTF-8 bytes written are the characters' codes, one byte each |
| Text.NatToStringValue | query/engine.go:439 | the digits `strconv.Itoa` writes for a natural number have that number as their decimal value |
| Text.NatToStringInjective | query/engine.go:439 | different ports render as different strings |
| Text.AtoiOfIntToString | query/query.go:611-614 | `strconv.Atoi` reads back any 64-bit integer that `strconv.Itoa` wrote |
| Text.ScanIntOfNatToString | protocol/gamedetector.go:77 | `fmt.Sscanf("%d")` reads a rendered 64-bit number back when no digit follows it |
| Text.ScanIntOfNonNumber | protocol/gamedetector.go:77-79 | `Sscanf` fails on text that starts with neither a sign, a space nor a digit |
| Text.Hex2Injective | protocol/terraria.go:167 | the two-digit hex of different bytes differs |
| Text.IndexOfAt | query/query.go:594 | the first index of a character is the given position when none comes before it |
| Text.LastIndexOfAt | query/query.go:594 | the last index of a character is the given position when none comes after it |
| Text.JoinSplit | protocol/terraria.go:249-256 | joining the parts of `strings.Split` gives the text back |
| Text.SplitJoin | protocol/terraria.go:249-256 | splitting a join of parts that do not hold the separator gives the parts back |
| Text.ToLowerIdempotent | protocol/gamedetector.go:131 | lowering is idempotent |
| Text.TrimSpaceSlice | protocol/minecraft.go:314 | `strings.TrimSpace` is a slice of its input, with no space at either end |
| Text.TrimSpaceOfTrimmed | protocol/terraria.go:256 | text without space at either end is left as it is |
| Text.TrimSpaceIdempotent | protocol/minecraft.go:314 | trimming twice is trimming once |
| Text.FormatBool | protocol/factorio.go:147 | the text is "true" exactly when the value is true |
| NetAddr.JoinHostPort | query/engine.go:439 | "host:port", with the host in brackets when it holds a colon |
| NetAddr.SplitJoin | query/query.go:594 | splitting a joined address gives back the host and the port |
| NetAddr.SplitIsJoin | query/query.go:594 | every address `SplitHostPort` accepts is the join of its parts, bracketed or bare |
| NetAddr.IntToStringPlain | query/query.go:403 | a rendered port holds no colon or bracket, so it survives the join |
| NetAddr.MissingPort | protocol/valheim.go:29-32 | a host without a colon fails as "address <host>: missing port in address", or with the bare reason when empty |
| NetAddr.SplitErrorNamesAddress | protocol/minecraft.go:54-59 | every failure on a non-empty address begins "address <addr>: " |
| Text.AtoiOutOfRangeFails | protocol/valheim.go:34-37 | a range error is reported only for text that `Atoi` refuses |
| Text.AtoiErrorOfNonNumber | protocol/valheim.go:34-37 | text not starting with a digit or sign, such as a service name, is refused as `strconv.Atoi: parsing "<text>": invalid syntax` |
| Text.QuotePlain | protocol/valheim.go:34-37 | printable ASCII without quotes or backslashes is quoted by surrounding it with double quotes |
| Registry.Timeout | protocol/registry.go:202-207 | discovery mode uses the 300 ms discovery timeout; otherwise the configured timeout |
| Registry.AddGameAliasesSpec | protocol/registry.go:92-101 | registering adds exactly the protocol's non-empty game names other than its own, each pointing at the protocol; every other alias is kept |
| Registry.Lookup | protocol/registry.go:109-121 | the found flag holds iff the name is a protocol or an alias; a protocol name wins; an alias yields its target, nil when that is not registered |
| Registry.FindGame | protocol/registry.go:131-136 | a found game is one of the protocol's games and carries the name |
| Registry.FindGameFirst | protocol/registry.go:131-136 | the search finds the first game of that name, and finds nothing only when none has it |
| Registry.Registry.constructor | protocol/registry.go:81-89 | the registry starts with no protocols and no aliases |
| Registry.Registry.Register | protocol/registry.go:92-101 | stores the protocol under its name and adds its game aliases; the protocol is then found under its name; the protocol map stays keyed by name |
| Registry.Registry.RegisterAlias | protocol/registry.go:104-106 | sets that one alias and leaves the protocols alone; the alias then resolves to its target |
| Registry.Registry.GetGameConfig | protocol/registry.go:124-145 | unknown name: none; alias of a missing protocol: error; a listed game: its entry; otherwise the protocol's default configuration |
| Registry.Registry.All | protocol/registry.go:148-154 | the copy equals the protocol map |
| Registry.Registry.AllNames | protocol/registry.go:157-171 | every protocol name once, then every alias once |
| Registry.KeyList | protocol/registry.go:157-171 | ranging over a map's keys lists each key exactly once |
| Registry.RegisteredAliasResolves | protocol/registry.go:92-121 | after registering, each other game name of the protocol is an alias that resolves to the protocol |
| Registry.ConfigForFound | protocol/registry.go:124-145 | a game the protocol lists is returned as listed; an unlisted name gets the protocol's defaults |
| GameDetector.AppIDGameListed | protocol/gamedetector.go:74-123 | an AppID is mapped to a game iff it is in the table |
| GameDetector.DetectByAppID | protocol/gamedetector.go:74-123 | a game is found only when the text scans as a number in the table |
| GameDetector.DetectByAppIDOfNumber | protocol/gamedetector.go:74-123 | the rendered number of an AppID detects that AppID's game |
| GameDetector.DetectByAppIDExamples | protocol/gamedetector.go:84-89 | 730 is counter-strike and 4000 is garrys-mod |
| GameDetector.DetectByAppIDUnknown | protocol/gamedetector.go:77-80 | an unknown number or a non-number gives no game |
| GameDetector.RulesGames | protocol/gamedetector.go:126-176 | every description rule names a Source game other than the fallback "source" |
| GameDetector.FirstMatch | protocol/gamedetector.go:126-176 | the rule search always yields a Source game name |
| GameDetector.AnalyzeGameDescription | protocol/gamedetector.go:126-176 | a description always maps to a Source game name |
| GameDetector.FirstMatchSource | protocol/gamedetector.go:126-176 | the fallback "source" is returned iff no rule matches |
| GameDetector.FirstMatchIsFirst | protocol/gamedetector.go:126-176 | any other result is the game of the first matching rule |
| GameDetector.FirstMatchNoLater | protocol/gamedetector.go:126-176 | when rule i matches, the result comes from rule i or an earlier one |
| GameDetector.AnalyzeCaseInsensitive | protocol/gamedetector.go:131 | a description and its lower-cased form detect the same game |
| GameDetector.CounterStrike2First | protocol/gamedetector.go:133-135 | a description mentioning "counter-strike 2" is detected as counter-strike-2 |
| GameDetector.LeftForDead2NotLeftForDead | protocol/gamedetector.go:144-147 | a "left 4 dead 2" description is never detected as left-4-dead |
| GameDetector.ExtraValue | protocol/gamedetector.go:44-56 | a missing extra key reads as the empty string |
| GameDetector.DetectSourceGame | protocol/gamedetector.go:44-71 | the Source detector always yields a Source game name |
| GameDetector.DetectGame | protocol/gamedetector.go:12-28 | no info or an offline server keeps the protocol name; otherwise the result is the protocol name or a Source game |
| GameDetector.DetectGameKeepsName | protocol/gamedetector.go:12-28 | a protocol without its own detector keeps its name |
| GameDetector.AppIDPrecedence | protocol/gamedetector.go:57-62 | a known AppID decides the game, whatever the name and description say |
| GameDetector.NameFallback | protocol/gamedetector.go:64-70 | without an AppID or game description, the server name is analysed |
| A2SWire.InfoRequest | protocol/a2s.go:88-89 | the info request is 25 bytes: the 0xFFFFFFFF header, 0x54, the payload and a terminating zero |
| A2SWire.InfoRequestPayload | protocol/a2s.go:89 | the payload holds no zero byte, so the terminator is the only one |
| A2SWire.ChallengedInfoRequest | protocol/a2s.go:220-226 | the retry is the info request followed by the challenge, little-endian |
| A2SWire.PlayerRequest | protocol/a2s.go:287-292 | the player request is the header, 0x55 and the challenge |
| A2SWire.FirstPlayerRequest | protocol/a2s.go:291 | the first player request carries challenge 0xFFFFFFFF |
| A2SWire.DispatchInfo | protocol/a2s.go:123-151 | accepted iff at least 5 bytes arrive and the type is 0x49, or it is 0x41 with 9 bytes; 0x41 yields the challenge, 0x49 the payload |
| A2SWire.DispatchChallengeFrame | protocol/a2s.go:130-143 | a challenge frame yields exactly the encoded challenge |
| A2SWire.CStringSplit | protocol/a2s.go:504-513 | reading a string succeeds iff a zero byte follows; the string is what precedes the first zero and the rest what follows it |
| A2SWire.CStringOf | protocol/a2s.go:504-513 | a zero-terminated string reads back, with the bytes after it left over |
| A2SWire.ReadNullTerminatedString | protocol/a2s.go:504-513 | the offset-based reader agrees with the string specification, including its error |
| A2SWire.Wrap | protocol/a2s.go:340-451 | wrapping an error keeps success and failure as they were |
| A2SWire.ParseInfoResponse | protocol/a2s.go:340-451 | the parser equals the info decoder |
| A2SWire.ParseInfoTail | protocol/a2s.go:387-451 | the fixed fields and the version read from an offset equal the tail decoder |
| A2SWire.EncodeInfo | protocol/a2s_test.go:125-189 | the encoded info is as long as its fields |
| A2SWire.DecodeEncodeInfo | protocol/a2s.go:340-451 | decoding an encoded info record gives it back, whatever bytes follow |
| A2SWire.DecodeInfoResponse | protocol/a2s_test.go:125-189 | a full 0x49 response passes dispatch and decodes to the record |
| A2SWire.DecodedInfoFits | protocol/a2s.go:340-451 | a decoded record re-encodes within the bytes it came from |
| A2SWire.DecodeInfoOfPrefix | protocol/a2s.go:340-451 | bytes after a complete record do not change the decoding |
| A2SWire.TruncatedInfoRejected | protocol/a2s.go:340-451 | every proper prefix of an encoded record is rejected |
| A2SWire.PlayerRecord | protocol/a2s.go:463-498 | a player record consumes at least its 10 fixed bytes |
| A2SWire.PlayerEntries | protocol/a2s.go:462-499 | at most the announced number of players is returned |
| A2SWire.DecodePlayers | protocol/a2s.go:453-502 | an empty payload is an error; otherwise at most the count byte's players |
| A2SWire.ParsePlayersResponse | protocol/a2s.go:453-502 | the loop equals the player decoder; a truncated record ends the list |
| A2SWire.PlayerEntriesStep | protocol/a2s.go:462-499 | one loop step: stop on a truncated record, otherwise one player and the rest |
| A2SWire.ReadPlayer | protocol/a2s.go:463-498 | one record read from an offset agrees with the record specification |
| A2SWire.PlayerEntriesOfPrefix | protocol/a2s.go:462-499 | more bytes only extend the list of players read |
| A2SWire.DecodeEncodePlayers | protocol/a2s.go:453-502 | decoding encoded player records gives back every player, with score and duration as decoded |
| A2SWire.FirstRead | protocol/a2s.go:107-108 | one read keeps at most 1400 bytes, a prefix of the datagram, and all of a datagram that fits |
| A2SWire.QueryInfoOfLongName | protocol/a2s.go:107-164 | a name that runs past the 1400-byte read loses its terminator, so the reply fails with "parse failed: read name failed: unterminated string" whatever follows |
| A2SWire.PlayerList | protocol/a2s.go:196-212 | no list unless players were requested; a failed player query gives an empty list |
| A2SWire.QueryInfoFits | protocol/a2s.go:158-164 | a decoded reply always re-encodes |
| A2SWire.QueryInfoOfMock | protocol/a2s_test.go:125-189 | a server answering the first request with an info frame that fits the 1400-byte read is decoded to its record |
| A2SWire.QueryInfoOfChallengingMock | protocol/a2s_test.go:125-189 | a server that first sends a challenge, then an info frame within 1400 bytes for the challenged request, is decoded to its record |
| A2SWire.SteamExtra | protocol/a2s.go:166-181 | the extra data holds exactly "game" and "app_id" |
| A2SWire.SteamExtraAppID | protocol/a2s.go:179 | "app_id" reads back, via `Atoi` and `Sscanf`, as the record's AppID |
| A2SWire.QueryPlayersOfMock | protocol/a2s_test.go:191-226 | a server answering the challenge dance with a player frame within 1400 bytes returns every player it encoded |
| A2S.AppIDTableAgainstDetector | protocol/a2s.go:536-584 | the same AppIDs as the shared table; the same games except at 240 and 300 |
| A2S.DetectByAppID | protocol/a2s.go:536-584 | a game is found only for a scanned number in the table |
| A2S.DetectGame | protocol/a2s.go:58-74 | no info or an offline server gives "a2s"; otherwise an AppID game or "a2s" |
| A2S.DetectGameIgnoresDescription | protocol/a2s.go:58-74 | the name and the game description do not affect detection |
| A2S.Query | protocol/a2s.go:76-218 | succeeds iff the info exchange does, with that exchange's error message |
| A2S.QueryReports | protocol/a2s.go:166-212 | a result carries the record's fields, the player counts, extra game and app_id, and the AppID's game; a list only when requested |
| A2S.QueryOfMock | protocol/a2s_test.go:228-263 | against the mock server the query reports the encoded record, when its frame fits the 1400-byte read |
| Source.AliasesAreSourceGames | protocol/source.go:15-32 | every alias registered for `source` is a Source game name |
| Source.Query | protocol/source.go:46-188 | succeeds iff the info exchange does, with that exchange's error message |
| Source.QueryReports | protocol/source.go:140-182 | a result carries the record's fields and the game detected from the reply |
| Source.SameResultAsA2S | protocol/source.go:140-157 | apart from the game name, the result is the one A2S builds |
| Valheim.NextPort | protocol/valheim.go:39-41 | the query port is the game port plus one, wrapping at the 64-bit limit |
| Valheim.QueryResult | protocol/valheim.go:96-106 | an online result with no game name and no extra data |
| Valheim.Query | protocol/valheim.go:27-118 | an address that does not parse fails with that error before any exchange |
| Valheim.QueryAddressNextPort | protocol/valheim.go:29-41 | "host:port" is queried at "host:port+1" |
| Valheim.QueryAddressWithoutPort | protocol/valheim.go:29-32 | a host without a port fails with "invalid address: address <host>: missing port in address" |
| Valheim.QueryAddressNonNumericPort | protocol/valheim.go:34-37 | a non-numeric port fails with "invalid port: " and the `strconv.Atoi` syntax error naming the quoted port |
| Valheim.QueryReports | protocol/valheim.go:96-116 | a result carries the record's fields and player counts; a list only when requested |
| Valheim.DecodeEncodePlayersSeconds | protocol/valheim.go:381-382 | player durations come back as the raw 32-bit field |
| Minecraft.VarInt | protocol/minecraft.go:225-234 | an encoding is never empty |
| Minecraft.WriteVarInt | protocol/minecraft.go:225-234 | appends the VarInt encoding of the value |
| Minecraft.ContinuationByte | protocol/minecraft.go:226-233 | a value of 0x80 or more starts with its low 7 bits plus 0x80, followed by the rest shifted down |
| Minecraft.ReadVarInt | protocol/minecraft.go:250-271 | the reader from an offset agrees with the VarInt decoder, errors included |
| Minecraft.DecodeVarInt | protocol/minecraft.go:250-271 | a decoded VarInt uses 1 to 5 bytes |
| Minecraft.VarIntLength | protocol/minecraft.go:225-234 | an encoding is one byte iff the value is below 0x80 |
| Minecraft.VarIntContinuation | protocol/minecraft.go:225-234 | every byte but the last has the continuation bit set |
| Minecraft.DecodeVarIntOfVarInt | protocol/minecraft.go:250-271 | decoding an encoded 32-bit value gives it back, with its length, whatever follows |
| Minecraft.VarIntWide | protocol/minecraft.go:227 | 2^32 encodes as a single zero byte, so it decodes to 0 |
| Minecraft.HandshakeVarInts | protocol/minecraft.go:194-217 | protocol version 765 encodes as FD 05; next state 1 encodes as 01 |
| Minecraft.ReadFull | protocol/minecraft.go:131-134 | succeeds iff enough bytes arrive, giving exactly those bytes |
| Minecraft.ReadPrefixed | protocol/minecraft.go:273-285 | the data read is the bytes right after the length prefix |
| Minecraft.WritePrefixed | protocol/minecraft.go:242-248 | appends the length as a VarInt, then the data |
| Minecraft.ReadVarIntPrefixedData | protocol/minecraft.go:273-285 | the reader from an offset agrees with the frame decoder, errors included |
| Minecraft.ReadPrefixedOfPrefixed | protocol/minecraft.go:242-285 | reading a written frame gives the data back, whatever follows |
| Minecraft.TruncatedFrameRejected | protocol/minecraft.go:273-285 | a frame cut short is rejected |
| Minecraft.ShortVarIntRejected | protocol/minecraft.go:250-271 | a VarInt whose continuation bytes run out is rejected |
| Minecraft.HandshakePacket | protocol/minecraft.go:194-217 | the handshake is the prefixed host plus six bytes |
| Minecraft.SendHandshake | protocol/minecraft.go:194-217 | sends exactly one frame holding the handshake |
| Minecraft.SendStatusRequest | protocol/minecraft.go:219-223 | sends the status request frame |
| Minecraft.StatusRequestBytes | protocol/minecraft.go:219-223 | the status request frame is the bytes 01 00 |
| Minecraft.RequestFrames | protocol/minecraft.go:194-222 | the handshake holds the packet id, version, host, big-endian port and next state, followed by the status frame |
| Minecraft.HandshakeFields | protocol/minecraft.go:197-213 | each handshake field sits at its offset |
| Minecraft.JsonPayload | protocol/minecraft.go:119-134 | an empty response is "response too short"; otherwise the JSON string after the packet id |
| Minecraft.ReadResponse | protocol/minecraft.go:101-112 | a frame that does not read fails with "read response failed" |
| Minecraft.JsonPayloadIgnoresID | protocol/minecraft.go:119-129 | the packet id byte does not affect the JSON read |
| Minecraft.ReadResponseOfStatus | protocol/minecraft_test.go:103-136 | a status response built like the mock server's yields its JSON |
| Minecraft.StripFormatting | protocol/minecraft.go:287-315 | stripping never lengthens the text |
| Minecraft.CleanMotd | protocol/minecraft.go:287-315 | the loop over the description's extra fragments equals the cleaned MOTD specification |
| Minecraft.AppendExtra | protocol/minecraft.go:297-307 | appends each fragment's text, in order |
| Minecraft.StripFormattingPlain | protocol/minecraft.go:311-312 | text without `§` is unchanged |
| Minecraft.StripFormattingPrefix | protocol/minecraft.go:311-312 | a prefix without `§` passes through unchanged |
| Minecraft.StripFormattingCode | protocol/minecraft.go:311-312 | a `§` followed by a format code (0-9, a-f, k-o, r) is removed |
| Minecraft.StripFormattingSinglePass | protocol/minecraft.go:311-312 | one pass: "§§cc" becomes "§c", which a second pass clears |
| Minecraft.DescribedText | protocol/minecraft.go:293-307 | a text-and-extras description reads as the text followed by the extras |
| Minecraft.ComplexDescriptionText | protocol/minecraft_test.go:167-200 | the complex MOTD from the tests cleans to its plain text |
| Minecraft.CleanMotdOfString | protocol/minecraft.go:287-314 | a string MOTD is trimmed; other JSON shapes give "" |
| Minecraft.SamplePlayers | protocol/minecraft.go:171-186 | one player per sample entry, with its name and zero score and duration |
| Minecraft.PlayerListCases | protocol/minecraft.go:171-186 | no list unless requested; no sample gives an empty list; otherwise the sample's names |
| Minecraft.QueryOutcome | protocol/minecraft.go:47-67 | the dial comes first: a non-empty address that does not split fails with "connection failed: dial tcp: " and the address error, a failed dial with "connection failed: "; only the empty address reaches "invalid address"; a non-numeric port gives "invalid port: " and the `strconv.Atoi` error |
| Minecraft.Query | protocol/minecraft.go:42-192 | the steps from address to result equal the query specification |
| Minecraft.Report | protocol/minecraft.go:156-186 | the result built from a status record |
| Minecraft.SendRequest | protocol/minecraft.go:78-94 | sends the handshake frame, then the status request frame |
| Minecraft.ReadStatus | protocol/minecraft.go:101-112 | the reader equals the response specification |
| Minecraft.ReadJson | protocol/minecraft.go:119-134 | the reader equals the JSON payload specification |
| Minecraft.QueryReports | protocol/minecraft.go:149-186 | a result carries the cleaned MOTD, version, player counts and list, game "minecraft" |
| Minecraft.QueryOfMock | protocol/minecraft_test.go:138-165 | against the mock server the query reports the mock's status |
| Minecraft.QueryWithoutPort | protocol/registry.go:220-227 | a host without a port fails in the dial, as "connection failed: dial tcp: address <host>: missing port in address", whatever the server |
| Terraria.DetectGameAgrees | protocol/terraria.go:41-43 | Terraria's detector agrees with the shared one |
| Terraria.SpaceRun | protocol/terraria.go:216-242 | the run of spaces ends before a non-space |
| Terraria.CountLineNeedsO | protocol/terraria.go:216-226 | without an 'O' the "Online players" pattern cannot match |
| Terraria.OnlineLineNeedsP | protocol/terraria.go:228-234 | without a 'P' the "Players online" pattern cannot match |
| Terraria.Names | protocol/terraria.go:253-261 | at most one name per comma-separated part |
| Terraria.NamesClean | protocol/terraria.go:253-261 | every name kept is non-empty and trimmed |
| Terraria.NamesOfTrimmed | protocol/terraria.go:253-261 | non-empty trimmed parts are all kept, in order |
| Terraria.ChatReports | protocol/terraria.go:181-267 | a chat reply is online, named "Terraria Server"; the count is the listed names' count when there are names, else the pattern's count |
| Terraria.ListedPlayers | protocol/terraria.go:247-267 | "prefix:a,b,c" lists exactly those players, and the current count is their number |
| Terraria.NamesOfJoin | protocol/terraria.go:249-261 | splitting a comma join of clean names gives the names back |
| Terraria.CountLineBecomesPlayer | protocol/terraria.go:216-267 | "Online players:c/m" sets the maximum, and its "c/m" is also taken as a player's name |
| Terraria.CountsOfSlashed | protocol/terraria.go:216-226 | "Online players:c/m" reads c as the current and m as the maximum count |
| Terraria.CurrentlyOnlineCount | protocol/terraria.go:236-242 | "c players currently online" counts c, with the default maximum |
| Terraria.OnlyCurrently | protocol/terraria.go:236-242 | when only that pattern matches, its count is reported with an empty list |
| Terraria.ParseResponse | protocol/terraria.go:129-270 | the parser equals the response specification |
| Terraria.ReadChat | protocol/terraria.go:181-267 | the chat branch equals the chat specification |
| Terraria.ReadCounts | protocol/terraria.go:216-242 | the pattern loop equals the count specification |
| Terraria.CollectPlayers | protocol/terraria.go:253-261 | one player per clean name, in order |
| Terraria.ResponseErrors | protocol/terraria.go:129-198 | fails only for fewer than 5 bytes ("response too short") or a chat packet too short for its text |
| Terraria.LengthFieldIgnored | protocol/terraria.go:129-139 | the 4-byte length field does not affect the parse |
| Terraria.OtherTypes | protocol/terraria.go:164-178 | an unknown packet type gives an online server named after its hex type |
| Terraria.PlayerInfoPacket | protocol/terraria.go:201-212 | a player-info packet gives the fixed "Player Info" result |
| Terraria.ChatFrame | protocol/terraria.go:181-198 | a chat frame yields the chat result of its text |
| Terraria.ProbeFrame | protocol/terraria.go:77-80 | the probe is length 5 with type 0x01, and, read back as a reply, it classifies as type 0x01 |
| Terraria.FirstRead | protocol/terraria.go:97-100 | one read returns at most 1024 bytes, a prefix of the reply |
| Terraria.Query | protocol/terraria.go:45-127 | a result carries the measured ping |
| Terraria.QueryNative | protocol/terraria.go:77-127 | without the REST answer, the native reply's parse is the result, with "parse failed" on error |
| Factorio.JsonStart | protocol/factorio.go:79-85 | a found start is an opening brace at or after the position |
| Factorio.JsonStartFirst | protocol/factorio.go:79-85 | the start is the first opening brace, and none is found only when there is none |
| Factorio.LastClose | protocol/factorio.go:106-112 | a found end is a closing brace |
| Factorio.LastCloseLast | protocol/factorio.go:106-112 | the end is the last closing brace |
| Factorio.JsonEnd | protocol/factorio.go:106-112 | the JSON end lies within the data |
| Factorio.ParseResponse | protocol/factorio.go:71-150 | the parser equals the response specification |
| Factorio.FindJsonStart | protocol/factorio.go:79-85 | the loop returns the first brace after the header, or -1 |
| Factorio.FindJsonEnd | protocol/factorio.go:106-112 | the backward loop returns the end after the last closing brace |
| Factorio.CollectPlayers | protocol/factorio.go:130-133 | one player per name, in order |
| Factorio.ResponseErrors | protocol/factorio.go:71-150 | fails iff the data is shorter than the header, with "response too short"; otherwise the server is online |
| Factorio.HeaderIgnored | protocol/factorio.go:72-85 | the header bytes do not affect the parse |
| Factorio.NoJsonBasic | protocol/factorio.go:87-100 | without a brace, the basic "Factorio Server" result |
| Factorio.WindowOfFramed | protocol/factorio.go:79-112 | the JSON between the first and last brace is extracted exactly |
| Factorio.WindowBounds | protocol/factorio.go:79-112 | the window starts at the first brace and ends at the last closing brace |
| Factorio.DecodedReports | protocol/factorio.go:114-149 | decoded JSON gives its name, version, counts and player names, with game_time and has_mods |
| Factorio.UndecodedBasic | protocol/factorio.go:114-128 | JSON that fails to decode gives the basic result |
| Factorio.FirstRead | protocol/factorio.go:49-53 | one read returns at most 1024 bytes, a prefix of the reply |
| Factorio.QueryErrors | protocol/factorio.go:27-69 | fails iff the exchange fails or fewer bytes than the header arrive; otherwise the parse with the ping |
| Query.ExplicitPortWins | query/query.go:588-617 | an address with a numeric port parses to that host and port |
| Query.BadPortRejected | query/query.go:611-614 | a non-numeric port is "invalid port" |
| Query.NoPortUsesOption | query/query.go:603-607 | without a port, the option port is used if set, else the default |
| Query.BracketedNoPort | query/query.go:597-607 | a bracketed host without a port loses its brackets and gets the option or default port |
| Query.AddressParsesBack | query/query_test.go:123-141 | an address built from host and port parses back to them |
| Query.AdjacentPorts | query/query.go:448-464 | the loop equals the adjacent-port specification |
| Query.AdjacentInOrder | query/query.go:448-464 | away from the range ends: +1, -1, +2, -2, +3, -3 |
| Query.AdjacentMembers | query/query.go:448-464 | at most six ports, each within 3 of the port, other than it, no higher than 65535 and no lower than 1024 |
| Query.Select | query/query.go:467-501 | a filter never lengthens the list |
| Query.SelectMembers | query/query.go:467-501 | the filter keeps exactly the protocols that meet the criterion or fail it, as asked |
| Query.OrderedPermutes | query/query.go:467-501 | moving the matches to the front permutes the protocols |
| Query.OrderedFront | query/query.go:467-501 | matches come first, then non-matches, each in the original order |
| Query.HasMatch | query/query.go:478-489 | a protocol serves a port iff its default or one of its games' ports is that port |
| Query.ProtocolsForPort | query/query.go:467-501 | the loop equals the matches-first order |
| Query.ProtocolsByPopularity | query/query.go:504-531 | the loops equal the popularity order specification |
| Query.PopularNamed | query/query.go:504-520 | the popular part holds registered protocols, in the listed order, without repeats |
| Query.PopularComplete | query/query.go:504-520 | every listed registered name's protocol is in the popular part |
| Query.PopularityPermutes | query/query.go:504-531 | the popularity order holds every protocol exactly once |
| Query.PortUnionMembers | query/query.go:534-557 | the port set holds exactly the ports some protocol serves |
| Query.CollectPorts | query/query.go:534-550 | the loop collects exactly that set |
| Query.HasLeast | query/query.go:552-556 | a non-empty port set has a least element |
| Query.SortedPorts | query/query.go:552-556 | the sorted list is increasing and holds exactly the set |
| Query.DiscoveryPorts | query/query.go:534-557 | every served port once, in increasing order |
| Query.DefaultOptions | query/query.go:620-629 | 5000 ms timeout, no port, no players, no range, no limit, no discovery mode, no debug |
| Query.DefaultOptionsUseGamePort | query/query.go:603-629 | with default options, a host alone is queried at the game's query port with the 5 s timeout |
| Query.DiscoveryOptions | query/query.go:560-564 | a copy with discovery mode switched on and nothing else changed |
| Query.DiscoveryOptionsTimeout | query/query.go:560-564 | discovery options use the 300 ms timeout |
| Query.WithPortRange | query/query.go:653-661 | the range holds start..end in order; nothing else changes |
| Query.CeilMillis | query/query.go:442-443 | rounds nanoseconds up to whole milliseconds |
| Query.SetServerInfoFields | query/query.go:436-445 | sets the address and both ports; keeps a ping already set, else the rounded-up elapsed time |
| Query.QueryProtocol | query/query.go:402-433 | an online result iff the probe of that protocol and port succeeds |
| Query.FirstOnlineWins | query/query.go:65-103 | no result iff no attempt succeeds; otherwise the result of the first attempt that succeeds |
| Query.FirstOnlineAppend | query/query.go:65-98 | trying a then b is a's result, or else b's |
| Query.TryInOrder | query/query.go:182-202 | the loop stops at the first online server, as the specification says |
| Query.QueryGame | query/query.go:28-104 | the steps equal the single-game query specification |
| Query.QueryFailsBeforeProbing | query/query.go:39-54 | an unknown game, a registry error or a bad address fails without any probe |
| Query.QueryFirstOnline | query/query.go:65-103 | succeeds iff the main port or an adjacent port answers; the main port wins; the error message |
| Query.AdjacentAttemptsCover | query/query.go:153-172 | the adjacent attempts are exactly every protocol on every adjacent port |
| Query.AutoDetect | query/query.go:107-208 | the steps equal the auto-detect specification |
| Query.TryAdjacent | query/query.go:153-172 | the nested loop equals the first online over the adjacent attempts |
| Query.AutoDetectFirstOnline | query/query.go:129-207 | succeeds iff some attempt in the order answers, with the error message otherwise |
| Query.AutoDetectStartsOnPort | query/query.go:129-151 | with a port, the protocols serving it are tried on it first |
| Query.AutoDetectWithoutPort | query/query.go:176-202 | without a port, each protocol is tried at its default query port with the caller's options |
| Query.DiscoveryPlan | query/query.go:254-293 | a bad address fails; a port range is used as given; otherwise a single port or every known port |
| Query.PortScanFinds | query/query.go:324-376 | a port yields a server iff some protocol answers there; the server is online at that host and port |
| Query.SweepFinds | query/query.go:324-396 | every server found is online at a scanned port where a protocol answers; every such port yields one |
| Query.ScanPorts | query/query.go:324-396 | the port loop equals the sweep specification |
| Query.DiscoverServers | query/query.go:249-397 | a bad address fails; otherwise the sweep over the chosen ports |
| Engine.SingleProtocolPorts | query/engine.go:57-80 | the main port, then its adjacent ports |
| Engine.SingleProtocolPortsShape | query/engine.go:57-80 | the first port is the main one; the others differ from it by at most 3 |
| Engine.UnsortedDiscoveryPorts | query/engine.go:83-108 | every served port exactly once, in map order |
| Engine.AutoDetectPorts | query/engine.go:188-213 | a given port alone, otherwise every served port once |
| Engine.DiscoveryPorts | query/engine.go:221-232 | a range as given, else a given port, else the ports the dynamic scan finds |
| Engine.DiscoverPortsDynamically | query/engine.go:234-327 | every port the scans from the seeds reach, each once |
| Engine.ScanUpward | query/engine.go:278-294 | adds the upward scan's active ports from the seed |
| Engine.ScanDownward | query/engine.go:297-313 | adds the downward scan's active ports from the seed |
| Engine.DiscoveredAdd | query/engine.go:245-313 | seeds can be processed in any order: the result is the union of the seeds' scans |
| Engine.DiscoveredActive | query/engine.go:270-313 | every port found has an active server |
| Engine.DiscoveredBounds | query/engine.go:270-313 | every port found is a seed or lies above or below one within the port range |
| Engine.UpwardStops | query/engine.go:278-294 | the upward scan stops at a run of dead ports |
| Engine.UpwardDeadRun | query/engine.go:278-294 | starting on the last allowed failure with a dead port, nothing is found |
| Engine.UpwardPassesTwoDead | query/engine.go:278-294 | two dead ports in a row do not stop the scan |
| Engine.DownwardStops | query/engine.go:297-313 | the downward scan stops at a run of dead ports |
| Engine.DownwardDeadRun | query/engine.go:297-313 | starting on the last allowed failure with a dead port, nothing is found |
| Engine.ProtocolsByPortPreference | query/engine.go:756-773 | protocols whose default port is the port come first |
| Engine.AllProtocolsInOrder | query/engine.go:426-433 | every protocol, in registry order |
| Engine.PopularityPermutes | query/engine.go:776-804 | the popularity order holds every protocol exactly once |
| Engine.DispatchRoundTrip | query/engine.go:31-37 | each query kind's code dispatches back to it; unknown codes are an error |
| Engine.ExecuteSingle | query/engine.go:550-622 | the steps equal the single-query specification |
| Engine.SingleFirstOnline | query/engine.go:577-621 | succeeds iff the main port or an adjacent protocol and port answers; the main attempt comes first |
| Engine.ExecuteAutoDetect | query/engine.go:624-753 | the steps equal the auto-detect specification |
| Engine.AutoDetectFirstOnline | query/engine.go:641-752 | succeeds iff some attempt answers, with the error message otherwise |
| Engine.AutoDetectStartsOnPort | query/engine.go:641-672 | with a port, protocols are tried on it in port-preference order first |
| Engine.AutoDetectWithoutPort | query/engine.go:720-747 | without a port, each protocol is tried at its default query port |
| Engine.ExecuteDiscovery | query/engine.go:806-956 | a bad address fails; otherwise the sweep over the chosen ports |
| Engine.Execute | query/engine.go:537-548 | an unknown kind fails; a single or auto-detect query gives its one server; discovery fails on a bad address and otherwise sweeps the chosen ports |
| Engine.OneServer | query/engine.go:586-621 | a single result becomes a one-element list; an error passes through |

## Left out

- Sockets, deadlines, clocks and contexts. Every network exchange is a function parameter, and every elapsed time is a parameter `ping` or `elapsedNs`.
- Cancellation and timeouts are not modelled. The timeout value chosen is (`Registry.Timeout`).
- Concurrency in discovery is not modelled:
  - the goroutines, the semaphore of `maxConcurrency`, the mutex and the results channel;
  - the ports are probed one after another, so servers come back in port order, not completion order;
  - `maxConcurrency` appears only in `Query.DiscoveryPlan`.
- The progress callback and channel, the port cache, and debug logging are not modelled.
- `hasActiveServer` (query/engine.go:329-370) is the parameter `active` of the dynamic scan, not a model of its probe.
- The TShock REST lookup in Terraria (`queryTShockAPI`) is the parameter `tshock`: its HTTP exchange and JSON are not modelled.
- JSON decoding (Minecraft status, Factorio status) is a parameter `decode` from bytes to a status record. Only the framing around it is modelled.
- Terraria's regular expressions are written out by hand for the three patterns used, with ASCII whitespace.
- Strings: A2S and Terraria strings are one character per byte. There is no UTF-8 validation or replacement.
  - `Text.ToLower` lowers ASCII letters only; Go's `strings.ToLower` also lowers other letters. The game names it is matched against are ASCII.
  - `Text.TrimSpace` cuts the Unicode white-space characters, as Go's `strings.TrimSpace` does on decoded text. That is exact for Minecraft's decoded JSON strings but not for Terraria's byte strings (next line).
- Terraria.Names, Terraria.ListSegment and Terraria.ReadChat trim the chat text one character per byte. Go decodes the bytes as UTF-8 first. So Go keeps a lone 0x85 or 0xA0 byte, which is not valid UTF-8: it leaves `" a\xA0"` as `"a\xA0"`, where the model gives `"a"`. And Go removes a whole multi-byte UTF-8 space such as `C2 A0`, where the model removes only its last byte.
- Text.Quote, inside `Text.AtoiError`, is exact for ASCII text. A character beyond ASCII is kept as it is, while Go's `strconv.Quote` escapes non-printable runes and invalid UTF-8 bytes as `\u`, `\U` or `\x` sequences.
- One protocol order for every pass. The map of registered protocols is the parameter `all`, in one fixed order. Go's `AllProtocols` builds its list by ranging over a map, which gives a fresh random order on each call. The model uses the same `all` every time, where Go may enumerate in a different order:
  - for each adjacent port in `getProtocolsForPort` (query/query.go:467-501, query/engine.go:111-150);
  - for the remainder of the popularity order (query/query.go:521-528, query/engine.go:797-801);
  - in `getProtocolsByPortPreference` (query/engine.go:757-773);
  - in each discovery goroutine (query/engine.go:893).

  This affects `Query.ProtocolsForPort`, `Query.ByPopularity`, `Query.TryAdjacent`, `Query.ScanPorts`, `Query.Sweep`, `Engine.ProtocolsByPortPreference`, `Engine.ExecuteSingle`, `Engine.ExecuteAutoDetect` and `Engine.ExecuteDiscovery`. Their contracts hold for whichever order `all` is. They do not describe a run in which two calls see two different orders.
- Minecraft.QueryOutcome takes the dial's outcome on a splittable address as the parameter `dial`. Name resolution and the port-number check inside Go's dial are not modelled. Neither is the wording of their errors.
- A2S player durations are 32-bit floats. Their conversion is the parameter `round` (a `DurationRule`); `Valheim` keeps the raw bits, as its code does.
- `Minecraft.WriteVarInt` takes a non-negative value. For a negative value the Go loop does not terminate. The 32-bit mask is modelled, so values of 2^32 and above mis-encode (`Minecraft.VarIntWide`).
- `Query.WithPortRange` requires `end >= start - 1`, because Go panics on a negative slice capacity below that.
- The other option setters (`WithTimeout`, `WithPlayers`, `WithPort`, `WithMaxConcurrency`, `WithDebug`, `WithCustomPorts`) are plain field assignments and are left out.
- `SetServerInfoFields` returns a new record instead of updating one in place.
- `sort.Ints` is modelled as repeated least-element extraction; only its result is specified.
- `SingleProtocolStrategy.GetProtocols` returns its one protocol in a one-element list and is not modelled separately.
- The `ark` and `rust` protocols delegate to the Source query and are not part of this model. Neither is `main.go` (the command-line front end).
- A registry alias pointing at a protocol that is not registered:
  - gives a nil protocol, on which the Go code would fail; the model returns `Err("nil protocol")`;
  - the popularity order skips it.
- `SupportedGames`, `DefaultPort` and `DefaultQueryPort` in query/query.go only list the registry and are left out.
- The public `DiscoverServers` and `DiscoverServersWithProgress` (query/query.go:208-239) switch discovery mode on and attach a progress callback. The model starts at `discoverServers` with the options it receives.
