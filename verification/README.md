# redscarf: verified models of its codecs, session state and handshake

redscarf bridges a modern client (builds 3.4.3 and 54261) to a legacy 3.3.5 server. These Dafny modules model the
parts of it that compute something intricate, in the form the program has them (loops as loops, objects updated in
place as classes), and prove what those parts promise over all inputs and all runs.

| file | what it models |
|---|---|
| `Wire`, `Header`, `Frame` | protobuf fields (Protocol Buffers Encoding guide), the BNet RPC header, frames on a stream |
| `WireFields`, `HeaderFields`, `FrameFields` | what their bytes mean |
| `Attributes`, `AttributeFields` | attribute lists: three nested levels of length-delimited messages, and what their bytes mean |
| `Srp`, `Mock`, `SrpServer` | the SRP-6 login (RFC 5054 section 2.6 with k = 3, RFC 2945 sections 3 and 3.1), the launcher's second form of it, and the server on the other side |
| `Encounter`, `EncounterRuns`, `EncounterHistory`, `EncounterPacket` | boss frames kept in step through visibility loss and refresh, and what a run makes each step send |
| `Reader`, `GroupList`, `Roster`, `PartyUpdate` | the group-list packet, both parsers of it, the shared roster |
| `GroupListBytes`, `PartyBytes` | the bytes of that packet, and what both parsers make of them |
| `History` | the bounded packet history |
| `Text`, `ChatLinks`, `ChatLinkFields` | chat item links cut to nine fields |
| `ConfigText`, `PortalLine`, `Portal`, `PortalShape` | the `Config.wtf` portal rewrite, and the check that reads it |
| `ModernGuid`, `ModernGuidBits` | legacy 64-bit GUIDs to modern 128-bit ones, and item GUIDs back |
| `ModernIdentity` | encounter runs under those modern GUIDs |
| `PackedGuid`, `AccountData`, `PackedBytes`, `AccountBytes` | packed 128-bit GUIDs and the account-data packets built on them |
| `Battleground`, `BattlegroundBytes` | battlefield statuses, the queue map, the port header |
| `Currency`, `CurrencyItems` | currency snapshots and their differences |
| `ValuesOrder` | the descriptor-bit transpose |
| `Wrappers`, `Bytes`, `Guid`, `Arithmetic`, `Sorting` | shared vocabulary |

How it is built. Each loop of the program is a method proved equal to a specification function; the promises are
lemmas about those functions. Parse loops are instances of one generic loop over a step (`Wire.Loop`), whose laws
need only that a step consumes something and depends on nothing behind what it consumes. Loops over maps run in an
arbitrary order. What those functions compute is said a second time without them: which bytes are accepted and what each
byte stands for, which bytes are written, what a run of steps makes the next one send (the `...Fields`, `...Bytes`,
`...Shape`, `...Items`, `...History` and `SrpServer` files). Where a promise turned out not to hold of the code, the lemma says exactly when it does:

* a header survives being written and parsed iff its remainder is made of unknown fields (`Headers.SurvivesIff`);
* an attribute list comes back iff no absent blob holds bytes (`Attributes.ListRoundTrip`);
* after every step of a session the client shows exactly what live boss frames were sent under iff no step resolves a
  unit to a GUID other than the one it was sent under (`EncounterRuns.StepKeysIff`, `EncounterRuns.RunKeysIff`);
* line endings aside, the other lines of a config text are kept, and setting the portal twice is setting it once, except
  for a text that ends with a lone carriage return, has no CRLF and no portal line (`Portals.OtherLinesKept`,
  `Portals.SetTwice`, `Portals.NotAlwaysOnce`); the line endings are kept as well iff no lone line feed stands beside a
  CRLF (`Portals.EndingsKept`);
* a currency record is redundant iff a currency known as zero has disappeared (`Currencies.RedundantIff`). The comment at
  internal/modernworld/currency.go:104-105 says that a currency the client was never told of is not introduced as zero;
  the code does so iff the currency was known as zero and is gone (`Currencies.IntroducedIff`,
  `Currencies.IntroducedExample`);
* account data comes back iff the player GUID has 32 bits (`AccountDatas.UpdateRoundTrip`);
* two legacy GUIDs share a modern identity iff their canonical GUIDs are equal (`ModernGuids.SameIdentityIff`); of two
  families only the two item families collide, where their counters are equal (`ModernGuids.FamiliesCollideIff`).

## Model

| member | source | states |
|---|---|---|
| `Wire.FieldLocal` | internal/bnet/frame.go:88-141 | consuming one field depends only on the bytes it takes, groups to any depth included |
| `Wire.BytesFieldRoundTrip` | internal/bnet/messages.go:282-285 | a length-delimited field is consumed as itself, whatever follows |
| `Wire.VarintFieldRoundTrip` | internal/bnet/messages.go:277-280 | the same for a varint field, for all 64-bit values |
| `WireFields.VarintMeaning` | internal/bnet/frame.go:97-100 | a varint is read from exactly the bytes that are one: at most ten, all but the last with the top bit, seven bits each, below 2^64 |
| `WireFields.FieldMeaning` | internal/bnet/frame.go:88-141 | a field of type 0, 1, 2 or 5 is read iff it is at the front: key, then its varint, eight, counted or four bytes |
| `WireFields.GroupMeaning` | internal/bnet/frame.go:140-147 | the stack of open groups reads what protowire's recursion reads, to its depth of 10000 |
| `WireFields.FieldRefused` | internal/bnet/frame.go:88-141 | what is wrong first with a field decides the error: key, number, type, value |
| `Headers.ParseHeader` | internal/bnet/frame.go:84-150 | the parse loop computes `HeaderOf`: unknown fields kept verbatim, wire types checked before values, every error in place |
| `HeaderFields.AcceptedIff` | internal/bnet/frame.go:84-150 | exactly the concatenations of whole fields are accepted in which numbers 1-6, 8 and 9 have type 0 and number 11 has type 0 or 5 |
| `HeaderFields.AcceptedMembers` | internal/bnet/frame.go:84-150 | however such bytes are cut, every member is the last value of its number, the remainder all fields of other numbers in order |
| `HeaderFields.FirstRefused` | internal/bnet/frame.go:84-150 | behind header fields the first field that is none decides the error: its key, then its type, then its value |
| `HeaderFields.HeaderBytes` | internal/bnet/frame.go:152-171 | written are service and token always, the other members unless zero, under their numbers, then the remainder |
| `Headers.ParsedRemainder` | internal/bnet/frame.go:140-147 | whatever is accepted, the remainder is a concatenation of well-formed unknown fields |
| `Headers.MarshalRoundTrip` | internal/bnet/frame.go:152-171 | every header with such a remainder is parsed back exactly |
| `Headers.Renormalise` | internal/bnet/frame.go:84-171 | for every accepted byte string h, parsing what is written for h gives h again |
| `Headers.SurvivesIff` | internal/bnet/frame.go:84-171 | the headers that survive the wire are exactly those whose remainder is made of unknown fields |
| `Frames.Stream.ReadFrame` | internal/bnet/frame.go:40-65 | reads the first frame of the stream and leaves the rest, or fails with the first error in reading order |
| `Frames.Stream.WriteFrame` | internal/bnet/frame.go:67-82 | appends size, header and payload in one buffer, or refuses and leaves the stream alone |
| `FrameFields.FrameMeaning` | internal/bnet/frame.go:40-65 | the first frame is a big-endian header size of 1 to 4096, that header, and the payload it counts, 16 MiB at most |
| `FrameFields.RefusalMeaning` | internal/bnet/frame.go:40-65 | each error is given for its own reason, in the order of the reading |
| `FrameFields.WrittenMeaning` | internal/bnet/frame.go:67-82 | and what is written is exactly such bytes, with the payload's size in the header |
| `Frames.FrameRoundTrip` | internal/bnet/frame.go:40-82 | a written frame is read back with its size set, and with exactly its own bytes, iff its remainder is made of unknown fields |
| `Frames.StreamRoundTrip` | internal/bnet/frame.go:40-82 | any list of accepted frames is read back frame by frame, to the last byte |
| `Frames.RelayedFrame` | internal/bnet/frame.go:40-82 | a frame that was read and is forwarded is seen unchanged by the next reader |
| `Attributes.WalkFields` | internal/bnet/messages.go:222-275 | the walk shows every field but groups to the visitor, in order, until the first error |
| `Attributes.EncodeAttributes` | internal/bnet/game_utilities.go:105-113 | the encoding loop writes the list of nested messages |
| `Attributes.DecodeAttributes` | internal/bnet/game_utilities.go:115-132 | decoding is the three nested walks |
| `AttributeFields.ListMeaning` | internal/bnet/game_utilities.go:115-132 | exactly the concatenations of fields are lists in which every field 1 is a length-delimited attribute; groups are passed over; the attributes come in order |
| `AttributeFields.AttributeMeaning` | internal/bnet/game_utilities.go:134-156 | the same for an attribute: the last field 1 is its name, the last field 2 its variant |
| `AttributeFields.VariantMeaning` | internal/bnet/game_utilities.go:186-231 | and for a variant: 2 bool, 3 signed, 4 float bits, 5 string, 6 blob, 9 unsigned, each of its type, the last of each number |
| `AttributeFields.FirstRefused` | internal/bnet/messages.go:222-275 | at every level, behind fields that are accepted, the first that is not decides the error |
| `AttributeFields.VariantBytes` | internal/bnet/game_utilities.go:158-184 | written are the members that are present, in the order of their numbers |
| `Attributes.ListRoundTrip` | internal/bnet/game_utilities.go:105-230 | decoding undoes encoding for every list and every combination of members, signed integers included; the list itself comes back iff no absent blob holds bytes |
| `Attributes.PaddedRoundTrip` | internal/bnet/game_utilities.go:115-230 | the same with well-formed unrecognised fields inserted anywhere, at all three levels |
| `Attributes.InsertOutside` | internal/bnet/messages.go:222-275 | in any accepted message, inserting fields the visitor does not recognise changes nothing |
| `Attributes.SameAttribute` | internal/bnet/game_utilities.go:115-132 | an attribute may be replaced by any other encoding with the same reading |
| `Attributes.SameVariant` | internal/bnet/game_utilities.go:134-156 | and so may a variant inside an attribute |
| `Srp.LittleInt` | internal/legacyauth/srp.go:112-118 | reversing and reading big-endian is the little-endian value |
| `Srp.LittleBytesOf` | internal/legacyauth/srp.go:120-130 | the low bytes of any number, cut or padded to the size |
| `Srp.InterleavedSessionKey` | internal/legacyauth/srp.go:86-100 | the two half hashes, interleaved |
| `Srp.ComputeProof` | internal/legacyauth/srp.go:25-84 | the whole client computation, error order included, is `ProofOf` for any hash |
| `Srp.ComputeSecret` | internal/legacyauth/srp.go:57-65 | the sign correction of the reduced base makes no difference |
| `Srp.SecretsAgree` | internal/legacyauth/srp.go:49-65 | both secrets are g^(b(a+ux)) mod N, for all g, N, a, b, u, x |
| `Srp.SecretsOnTheWire` | internal/legacyauth/srp.go:49-66 | they still agree when A and B went through bytes of any width that holds the modulus |
| `Srp.SessionsAgree` | internal/legacyauth/srp.go:49-67 | client and honest server derive one 40-byte key |
| `SrpServers.ProofRefused` | internal/legacyauth/srp.go:25-52 | when no proof is computed, and with which error |
| `SrpServers.ProofMadeOf` | internal/legacyauth/srp.go:25-84 | every hash of a proof and the text it is taken of, byte by byte: x, u, both halves of the key, M1 over 176 bytes, M2; and the numbers A and S |
| `SrpServers.LoginAgrees` | internal/legacyauth/srp.go:25-84 | a server that keeps a verifier and computes by the RFCs holds that session key and no other, expects that M1 and no other, and answers with that M2 and no other |
| `Mock.ToBytesLE32` | mock.go:238-245 | the same bytes as the other form, for values over 256 bits too |
| `Mock.KeyData` | mock.go:270-285 | the key made with one reused buffer is the interleaved key |
| `Mock.SecretForms` | mock.go:264-268 | adding 3(N - g^x) is taking off 3g^x |
| `Mock.HandleGetNowTime` | mock.go:247-288 | the reply: public value, B echoed, session key; short data and a zero modulus are told apart |
| `Mock.ReplyRefused` | mock.go:247-262 | when there is no reply |
| `Mock.ReplyMadeOf` | mock.go:247-288 | the places of B, N and x in the request, and every number and hash the reply is made of |
| `Mock.FormsAgree` | mock.go:247-288 | both forms give one public value and one key for equal inputs with g = 7 |
| `Encounters.EncounterFrames.Apply` | internal/modernworld/encounter_state.go:60-100 | new frames and emitted packets of every event, as functions of the old frames |
| `Encounters.EncounterFrames.Hide` | internal/modernworld/encounter_state.go:102-107 | a hidden frame becomes pending, nothing else changes |
| `Encounters.EncounterFrames.Flush` | internal/modernworld/encounter_state.go:109-128 | pending frames that resolve are sent in ascending order and marked sent, whatever the map's order |
| `EncounterPackets.EncounterFramePacket` | internal/modernworld/encounter_state.go:130-136 | the bytes of a frame packet |
| `EncounterPackets.PacketBytes` | internal/modernworld/encounter_state.go:130-136 | the three opcodes and bodies |
| `EncounterPackets.PacketRoundTrip` | internal/modernworld/encounter_state.go:130-136 | every frame packet is read as itself |
| `EncounterPackets.EmittedAreWellFormed` | internal/modernworld/encounter_state.go:60-128 | every packet emitted, in any state, is one of those |
| `EncounterRuns.RunInStep` | internal/modernworld/encounter_state.go:60-128 | in every run whose steps resolve no two units to one GUID and keep the GUIDs units were sent under, frames, server and client agree on every unit: same units, same priorities, and the client shows exactly what live frames were sent under |
| `EncounterHistories.RunFrames` | internal/modernworld/encounter_state.go:60-128 | over every run, whether a unit has a frame, its priority, the GUID it was last sent under and whether it waits are told from the steps alone |
| `EncounterHistories.FlushSends` | internal/modernworld/encounter_state.go:109-128 | a flush sends exactly the engagements of waiting units it resolves: those engaged, hidden or refreshed since they were last sent, and no other |
| `EncounterHistories.RefreshSends` | internal/modernworld/encounter_state.go:58-67 | a refresh sends exactly the engagement of every engaged unit it resolves |
| `EncounterHistories.EventSends` | internal/modernworld/encounter_state.go:68-100 | what every other event sends, from the steps before it |
| `EncounterHistories.HiddenIsSentAgain` | internal/modernworld/encounter_state.go:102-128 | over every run, a unit that is hidden and then resolved by a flush is sent again with the server's priority |
| `EncounterHistories.HiddenInStep` | internal/modernworld/encounter_state.go:102-128 | and so it is in any session that is in step |
| `EncounterRuns.StepKeysIff` | internal/modernworld/encounter_state.go:60-128 | each step has a resolver of its own: after a step the client shows exactly what live frames were sent under iff every unit it resolves had no GUID or the same one |
| `EncounterRuns.RunKeysIff` | internal/modernworld/encounter_state.go:60-128 | and that it does so after every step of a run is that every step keeps the GUIDs |
| `EncounterRuns.FixedIdentities` | internal/modernworld/encounter_state.go:60-128 | runs whose resolvers answer for some units only, each under one GUID of its own, meet both conditions |
| `ModernIdentities.ProxyRunsInStep` | internal/proxy/encounter.go:5-9 | so every run with the proxy's own modern GUIDs of well-formed units, seen on whatever maps, stays in step throughout |
| `ModernIdentities.ItemsAreNotOwn` | internal/modernworld/active_player.go:1324-1378 | why well-formed: the modern GUIDs do not keep every two units apart, two items share one |
| `EncounterRuns.PriorityHeldIff` | internal/modernworld/encounter_state.go:86-98 | a change of priority is only sent for a GUID the client holds, iff it goes out under the GUID the unit was sent under |
| `EncounterRuns.FlushCatchesUp` | internal/modernworld/encounter_state.go:109-128 | a flush that resolves every engaged unit makes the client show exactly what the server holds, iff it keeps the GUIDs |
| `EncounterRuns.SecondFlushSilent` | internal/modernworld/encounter_state.go:109-128 | a repeated flush emits nothing and changes nothing |
| `EncounterRuns.FlushOrder` | internal/modernworld/encounter_state.go:116-126 | flush packets are strictly ascending by legacy GUID, one for each pending unit that resolves |
| `EncounterRuns.NothingInvented` | internal/modernworld/encounter_state.go:58-67 | every GUID sent by refresh or flush was resolved for a pending frame in that call |
| `EncounterRuns.ChangedIdentityIsLeft` | internal/modernworld/encounter_state.go:71-81 | a run of the other kind, for any two GUIDs: a unit that changes its modern GUID leaves its old frame at the client |
| `Reader.MovementReader.ReadU32` | internal/modernworld/player_movement.go:659-665 | little-endian cursor: the value at the front, the rest behind it |
| `Reader.MovementReader.ReadCString` | internal/modernworld/social.go:293-310 | a NUL-terminated string within a limit, with the error the loop meets first |
| `GroupLists.ParseLegacyPartySnapshot` | internal/modernworld/group_management.go:628-732 | the parser accepts the grammar `GroupListOf` and keeps what `SnapshotFrom` says (the rows below say what both are) |
| `PartyUpdates.TranslateLegacyGroupListWithOrder` | internal/modernworld/group.go:399-618 | the translator accepts the same grammar and gives the update and order of `Translation` |
| `GroupListLayouts.GroupListMeaning` | internal/modernworld/group_management.go:628-732 | a body is read as a list iff it is that list written down: head with five more bytes when bit 3 is set, at most 40 members, tail; or no members and at most a leader |
| `GroupListLayouts.TooManyMeaning` | internal/modernworld/group_management.go:667-673 | a count is refused iff the whole head is there and the count in it is above 40 |
| `GroupListLayouts.FirstRefused` | internal/modernworld/group_management.go:674-731 | behind the head and the members that are there, what is wrong first decides the error |
| `PartyLayouts.SnapshotMeaning` | internal/modernworld/group_management.go:628-732 | a snapshot has each of its values from its place in the body |
| `PartyLayouts.UpdateMeaning` | internal/modernworld/group.go:399-652 | and so has an update: flags bit by bit, party index, type and GUID, leader, loot, the three difficulties; or the destroyed one |
| `PartyLayouts.PlayersAreRows` | internal/modernworld/group.go:460-507 | every player is self, online, with the head's bytes, or a member with the bytes of the packet, of no faction |
| `PartyLayouts.OrderMeaning` | internal/modernworld/group.go:546-564 | the order is self and each member once: first those preferred for this party and leader, then the others ascending |
| `PartyLayouts.MyIndexMeaning` | internal/modernworld/group.go:565-587 | the index is where self is listed, and 0 when a member before it in the order has its modern GUID |
| `GroupLists.ReadSnapshotHead` | internal/modernworld/group_management.go:628-673 | this parser's reading of the head is the grammar's `ReadHead`, LFG fields and the limit of 40 included |
| `PartyUpdates.ReadUpdateHead` | internal/modernworld/group.go:399-441 | and so is the other's, written on its own |
| `PartyUpdates.ParsersAgree` | internal/modernworld/group_management.go:628-732 | both parsers accept the same bytes, fail alike, and agree on destroyed, party GUID, leader, loot and raid flag |
| `PartyUpdates.MembersAgree` | internal/modernworld/group_management.go:688-710 | the roster order lists exactly the GUIDs of the snapshot's members |
| `PartyUpdates.EntryAgrees` | internal/modernworld/group.go:498-545 | of several members with one GUID the first counts, self before any: its entry has the snapshot's subgroup, flags and roles, and its name unless it is self |
| `PartyUpdates.PlayersAgree` | internal/modernworld/group.go:498-587 | every player of the update has the name, subgroup, flags and roles of the first snapshot member with some GUID of the order |
| `PartyUpdates.PlayersInOrder` | internal/modernworld/group.go:546-587 | with distinct modern GUIDs player n of the update is the first snapshot member with the n-th GUID of the order |
| `PartyUpdates.IndexByLegacy` | internal/modernworld/group.go:539-545 | self first, then each member unless its GUID is taken |
| `PartyUpdates.ChooseRosterOrder` | internal/modernworld/group.go:548-564 | sorting the keys, then the chosen ones first, whatever the map's order |
| `PartyUpdates.BuildPlayers` | internal/modernworld/group.go:565-587 | the player list without repeated modern GUIDs, and the place of self |
| `Rosters.OrderIsPermutation` | internal/modernworld/group.go:546-564 | whatever is chosen, the order is every member once, the chosen ones first |
| `Rosters.IncludedRest` | internal/modernworld/group.go:553-563 | behind the chosen members the remaining ones come ascending |
| `Rosters.RosterEntries` | internal/modernworld/group.go:565-584 | one entry for each modern GUID of the order, each the player of its legacy GUID |
| `Rosters.DistinctAllListed` | internal/modernworld/group.go:565-584 | with distinct modern GUIDs the list is the whole order |
| `Rosters.SelfEntry` | internal/modernworld/group.go:573-587 | self is listed, at its index, iff no member before it has its modern GUID |
| `PartyUpdates.SelfAtMyIndex` | internal/modernworld/group.go:573-617 | unless another member shares its modern GUID, self is at its index with its own subgroup, flags and roles |
| `PartyUpdates.SameOrderForAll` | internal/modernworld/group.go:546-564 | two recipients of one member set compute one order |
| `Rosters.ListedForAll` | internal/modernworld/group.go:565-584 | and list the same members in it |
| `Histories.PacketHistory.constructor` | internal/modernworld/packet_history.go:13-18 | an empty history |
| `Histories.PacketHistory.Record` | internal/modernworld/packet_history.go:27-46 | size is the sum of the retained hex lengths, the sequence counts every packet, and the records are the longest suffix of the full history within 512 records and 4 MiB of hex |
| `Histories.LongestIsUnique` | internal/modernworld/packet_history.go:38-43 | a suffix of the full history fits iff it is no longer than what is retained |
| `Histories.RetainedMeaning` | internal/modernworld/packet_history.go:27-46 | the last n packets are retained iff they are at most 512 and have at most 4 MiB of digits, counted from the packets alone |
| `Histories.EntryMeaning` | internal/modernworld/packet_history.go:30-37 | the number, opcode, length and digits of every entry, which five opcodes keep a payload, and up to 256 KiB |
| `Histories.ConsecutiveNumbers` | internal/modernworld/packet_history.go:30-31 | retained numbers are consecutive and end at the latest |
| `Histories.LastEightKept` | internal/modernworld/packet_history.go:34-43 | the last eight packets are always retained, whatever their bodies |
| `Histories.PayloadKept` | internal/modernworld/packet_history.go:32-37 | a retained hex string decodes to the body iff the packet is of a kind that keeps one, and is empty otherwise |
| `ChatLinks.LegacyChatItemLinks` | internal/modernworld/chat_links.go:9-50 | the loop is: tokenise, make every item link normal, render; addon languages are left alone |
| `ChatLinks.RenderTokenise` | internal/modernworld/chat_links.go:14-48 | the pieces of a text make up the text |
| `ChatLinks.PiecesRewritten` | internal/modernworld/chat_links.go:14-48 | the pieces of the result are the pieces of the text, each link with nine non-empty fields: escaped pipes and all other bytes stay |
| `ChatLinkFields.FirstPiece` | internal/modernworld/chat_links.go:21-46 | how a text is cut: an escaped pipe, a link of nine fields or more with a first field and a display name behind it, or one character |
| `ChatLinkFields.PiecesKept` | internal/modernworld/chat_links.go:33-41 | the rewritten text is cut alike: each link keeps its first nine fields, "0" only where one was empty, and every other piece is the same |
| `ChatLinks.RewrittenOnce` | internal/modernworld/chat_links.go:9-50 | rewriting is idempotent on every text |
| `ChatLinks.UnchangedIff` | internal/modernworld/chat_links.go:9-50 | a text stays as it is iff every item link in it is normal already |
| `ChatLinks.GrowthBound` | internal/modernworld/chat_links.go:33-38 | at most eight bytes more for each link |
| `PortalLines.MatchIsComplete` | main.go:28 | every line of the pattern's shape is matched, and taken apart in only one way |
| `PortalLines.MatchIsSound` | main.go:28 | and whatever is matched has that shape |
| `PortalShapes.PortalMeaning` | main.go:28 | a line is a portal line with some address iff its characters are white space, SET, white space, portal, white space, the quoted address, white space |
| `PortalShapes.LocalProxyMeaning` | multiclient.go:40-48 | for every text the check holds iff the first portal line has the address 127.0.0.1:7000 |
| `PortalShapes.TargetMeaning` | main.go:335 | the line that is written, the port in its shortest decimal form |
| `PortalShapes.AllReturned` | main.go:332-356 | in a text that has a CRLF every line feed gets its carriage return |
| `PortalLines.PartsOfPortal` | multiclient.go:42-44 | cutting a portal line at its quotes gives three parts, the address in the middle |
| `Portals.SetPortal` | main.go:332-356 | the rewriting loop edits the first portal line, or adds one, under the text's own line ending |
| `Portals.UsesLocalProxyPortal` | multiclient.go:40-48 | the search answers for the first portal line |
| `Portals.RewrittenIsLocal` | main.go:332-356 | for every text the check holds after the rewriting iff the port is 7000 |
| `Portals.OtherLinesKept` | main.go:332-356 | line endings aside, every other line is kept in order, iff the text is not one that merges its last line ending |
| `Portals.EndingsKept` | main.go:332-356 | the text is edited where the portal line stands, every other character and line ending as it was, iff it has no lone line feed beside a CRLF |
| `Portals.SetTwice` | main.go:332-356 | applying it twice is applying it once, iff the text does not merge or has no line feed |
| `Portals.NotAlwaysOnce` | main.go:343-356 | a two-line text for which the second application changes the line ending of the first line |
| `ConfigTexts.EditedFirst` | main.go:338-351 | editing puts the target at the first match, or behind the last line that is not empty, and leaves all other lines |
| `ModernGuids.BackToCanonical` | internal/modernworld/active_player.go:1324-1378 | from the modern identity one gets back the canonical GUID, for all 64-bit GUIDs |
| `ModernGuidFields.IdentityMeaning` | internal/modernworld/active_player.go:1320-1378 | both halves of the modern identity for every family, entry and counter: type, realm, entry and counter in their bits |
| `ModernGuids.SameIdentityIff` | internal/modernworld/active_player.go:1324-1378 | two GUIDs have one modern identity iff one canonical GUID stands for both |
| `ModernGuids.FamiliesCollideIff` | internal/modernworld/active_player.go:1324-1378 | GUIDs of two families share an identity iff neither has one, or both are items with one counter |
| `ModernGuids.ItemsCollide` | internal/modernworld/active_player.go:1330-1378 | a 0x4000 and a 0x4700 item that do |
| `ModernGuids.StandsForItselfIff` | internal/modernworld/active_player.go:1324-1378 | exactly the well-formed GUIDs are canonical, with the one that stands for players whose low bits are zero |
| `ModernGuids.InjectiveOnWellFormed` | internal/modernworld/active_player.go:1320-1378 | well-formed GUIDs have different modern identities |
| `ModernGuids.NoIdentityIff` | internal/modernworld/active_player.go:1325-1360 | exactly the zero GUID and unknown families have none |
| `ModernGuids.ItemRoundTripIff` | internal/modernworld/object_removal.go:34-39 | the item GUID comes back iff it is a 0x4000 item with a counter and zero middle bits, or zero |
| `ModernGuids.ItemBackIff` | internal/modernworld/object_removal.go:34-39 | and the other way for the modern items with a 32-bit counter |
| `PackedGuids.PackUint64` | internal/modernworld/character_enum.go:204-215 | the mask and the bytes that are not zero |
| `PackedGuids.AppendPackedGuid128` | internal/modernworld/character_enum.go:196-202 | both masks, then both halves, behind what is there |
| `PackedGuids.ReadPackedGuid128` | internal/modernworld/character_actions.go:148-175 | both loops read `ReadPacked`, with the error of the half that is truncated |
| `PackedGuids.PackedRoundTrip` | internal/modernworld/character_actions.go:148-175 | all 128-bit values come back from their packed form followed by anything, with exactly the bytes written |
| `PackedLayouts.PackedMeaning` | internal/modernworld/character_actions.go:148-175 | a packed GUID is read iff it is at the front: bit i of a mask says whether byte i follows or is zero |
| `PackedLayouts.TruncatedMeaning` | internal/modernworld/character_actions.go:148-175 | which of the errors is given, from the bits of the masks |
| `PackedLayouts.WrittenMeaning` | internal/modernworld/character_enum.go:196-215 | and what is written is such bytes, with a bit for each byte that is not zero |
| `PackedGuids.RepackIff` | internal/modernworld/character_actions.go:154-173 | packing what was unpacked gives the same mask and bytes iff no byte written is zero |
| `AccountDatas.ParseAccountDataUpdate` | internal/modernworld/account_data.go:52-82 | the parser is `UpdateIn`, checks in order |
| `AccountDatas.EncodeAccountDataUpdate` | internal/modernworld/account_data.go:84-97 | the encoder refuses or writes |
| `AccountDatas.UpdateRoundTrip` | internal/modernworld/account_data.go:52-97 | every accepted record is read back with its player GUID reduced to 32 bits: itself iff the GUID has no more |
| `AccountDatas.UpdateReadAgain` | internal/modernworld/account_data.go:52-97 | whatever is read can be written and reads the same again |
| `AccountLayouts.UpdateMeaning` | internal/modernworld/account_data.go:52-82 | an update is read iff time, size, type and payload lie in their places behind a packed GUID |
| `AccountLayouts.UpdateRefused` | internal/modernworld/account_data.go:58-79 | the checks behind the GUID, in their order |
| `AccountLayouts.UpdateBytes` | internal/modernworld/account_data.go:84-114 | what is refused, and the bytes that are written, the player's GUID included |
| `AccountLayouts.RequestMeaning` | internal/modernworld/account_data.go:30-45 | a request is read iff one byte is behind the GUID, its upper half a type below 15 |
| `AccountDatas.ParseAccountDataRequest` | internal/modernworld/account_data.go:30-45 | the request parser is `RequestIn` |
| `AccountDatas.EncodeAccountDataRequest` | internal/modernworld/account_data.go:47-50 | packed GUID and type, what does not fit in the type's half byte lost |
| `AccountDatas.RequestRoundTripIff` | internal/modernworld/account_data.go:30-50 | a request reads as itself iff its type is in range and its player GUID has 32 bits |
| `Battlegrounds.ParseLegacyBattlefieldStatus` | internal/modernworld/battleground.go:525-616 | the parser is the grammar `StatusOf` |
| `BattlegroundLayouts.StatusMeaning` | internal/modernworld/battleground.go:525-616 | a body is read as a status iff it has it in its places and nothing behind: 12 bytes, 31, 39 or 44 |
| `BattlegroundLayouts.UnknownMeaning` | internal/modernworld/battleground.go:525-616 | a fourth kind of status is refused, whatever is behind it |
| `BattlegroundLayouts.LengthMeaning` | internal/modernworld/battleground.go:525-616 | and all other bodies that are refused are too short or too long |
| `BattlegroundLayouts.PacketsMeaning` | internal/modernworld/battleground.go:123-185 | every value of the packets from its place in the body: ticket, header, queue id, map and times of each kind, and the init packet before an active one without a shutdown time |
| `Battlegrounds.TranslateLegacyBattlefieldStatus` | internal/modernworld/battleground.go:123-185 | packets and new queue map of one status; a rejected packet leaves the map alone, a nil map remembers nothing |
| `Battlegrounds.QueuesHoldStays` | internal/modernworld/battleground.go:128-153 | over any run the map holds exactly the slots whose last accepted status was not "none", with that status's header and the join time of the stay |
| `Battlegrounds.TicketsCarryJoinTime` | internal/modernworld/battleground.go:130-154 | every ticket of a stay, and of the "none" that ends it, carries the first nonzero clock of the stay: with a clock that is never zero, that of its first status |
| `Battlegrounds.KnownTickets` | internal/modernworld/battleground.go:464-470 | over any run a ticket is known iff its slot is in a stay, and no other ticket ever is |
| `Battlegrounds.PortEchoesLastStatus` | internal/modernworld/battleground.go:1006-1015 | the port header repeats the six type bytes of the slot's last status packet, then the port constant and the answer |
| `Currencies.CollectCurrencies` | internal/modernworld/currency.go:61-88 | totals are the owned stack sums modulo 2^32, honor and arena the fields that are present, and nothing else is there |
| `CurrencyItems.CollectedMeaning` | internal/modernworld/currency.go:24-101 | from the fields of the items: which entries count for which currency, whose they are, a missing count being one, the sums modulo 2^32; honor and arena points from the player |
| `Currencies.OwnedByHalves` | internal/modernworld/currency.go:90-101 | an item with both halves of a GUID is the owner's iff the GUID is, or is zero |
| `Currencies.CollectedForAnyOrder` | internal/modernworld/currency.go:61-88 | what is collected does not depend on the order of the items |
| `Currencies.DiffCurrencies` | internal/modernworld/currency.go:106-128 | exactly one record for each change, strictly ascending by type, whatever the order of both maps |
| `Currencies.ClientHoldsLatest` | internal/modernworld/currency.go:103-128 | over any run of snapshots the client holds the latest, an absent currency being zero |
| `Currencies.RedundantIff` | internal/modernworld/currency.go:106-128 | some record is redundant iff a currency known as zero has disappeared |
| `Currencies.IntroducedIff` | internal/modernworld/currency.go:103-128 | over any run a currency the client was never told of is sent as zero iff it was known as zero and is gone |
| `Currencies.IntroducedExample` | internal/modernworld/currency.go:121-126 | such a run: honor known as zero, then not known |
| `ValuesOrder.TransposeTwice` | internal/modernworld/values_order.go:5-7 | the order stays in the group, and transposing with slots and arrays swapped undoes it |
| `ValuesOrder.ElementsFirst` | internal/modernworld/values_order.go:3-7 | all arrays' element e come before any element behind it, in the order of the arrays, and only so |
| `ValuesOrder.OrderUndone` | internal/modernworld/values_order.go:9-25 | a table of disjoint groups gives a permutation of the integers that moves only bits of its groups |
| `ValuesOrder.UnitOrderPermutes` | internal/modernworld/values_order.go:9-16 | every integer is the place of exactly one bit, for the unit table |
| `ValuesOrder.ActiveOrderPermutes` | internal/modernworld/values_order.go:18-25 | and for the active-player table |
| `ValuesOrder.UnitPlaces` | internal/modernworld/values_order.go:9-16 | the place of every bit: four groups of unit bits go from array order to element order, no other moves |
| `ValuesOrder.ActivePlaces` | internal/modernworld/values_order.go:18-25 | and three groups of active-player bits |

## Left out

- Sockets, HTTP, files, logging, JSON export, mutexes and time stamps: a stream is a sequence of bytes, clocks, random bytes, resolvers and choosers are parameters, a config text is the text that was read.
- SHA-1 and upper-casing: any functions of the right type.
- Reading fewer random bytes than asked: one error, whatever the reader returned.
- The other packet encoders and field-by-field parsers: they would add only easy members.
- The bit writer, and packets through it: party updates and battlefield statuses are records of the values that are written.
- `ConnectRequest`: the encoder omits a false `UseBindlessRPC` and the decoder takes an omitted one for true.
- Floating point: float values are carried as their 64 bits.
- Values returned beside an error: the callers drop them.
- Slices of 2^63 bytes and more, which Go does not have; sequence numbers are not wrapped at 2^64.
- Config text that is not UTF-8: it is a sequence of characters, one for each rune; `\s` and the case folding of the pattern are written out.
- Chat text is a sequence of bytes, one character each.
- Aliasing of Go slices: sequences are values; the item and packet slices a caller keeps are not modelled.
- EncodeAccountDataTimes, EncodeSetupCurrency and ParseBattlefieldPort: straight-line, or through the bit writer.
- `modernLegacyCreateGUID` and the remaps of opcodes, maps and slots: finite tables.
- EncounterRuns.RunInStep: runs in which two units are resolved to one GUID are not described.
- Mock.HandleGetNowTime: a zero modulus has an outcome of its own; the source goes on to the unreduced power 7^a.
- Attributes.ListRoundTrip: for encodings shorter than 2^63 bytes, the largest Go slice.
