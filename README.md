# diiis-mini, modelled in Dafny

diiis-mini is a small Diablo III server emulator written in C++. It has a
Battle.net gateway that frames packets behind a 12-byte header, a game
server that keeps sessions and clients, a REST API for accounts,
characters and administration, and a utilities library (strings, hex
and password hashing, an in-memory audit log, an INI-style
configuration). This project models the sequential decision logic of
those pieces in Dafny and proves what the code and its tests promise of
them.

Modules, one per source file or component:

| module | file | models |
|---|---|---|
| `Wrappers` | wrappers.dfy | `Option` and `Result` |
| `Stoi` | stoi.dfy | `std::stoi` on a string in base 10 or 16, and decimal printing |
| `StringUtils` | string_utils.dfy | `src/utils/src/string_utils.cpp` and `toHex` of `string_utils.h` |
| `Protocol` | protocol.dfy | `PacketHeader` of `protocol.h`, the constants and the byte layout |
| `BattleNetAuth` | battle_net_auth.dfy | the auth message encoder and state machine of `test/unit/auth_tests.cpp` |
| `BattleNetClient` | battle_net_client.dfy | the callbacks of `battle_net_client.cpp`, as a class over an abstract socket |
| `BattleNetServer` | battle_net_server.dfy | the client registry of `battle_net_server.cpp` |
| `GameSession` | game_session.dfy | the `GameSession` interface of `game_session.h` |
| `World` | world.dfy | the player set of `world.cpp` |
| `GameServer` | game_server.dfy | sessions and clients of `game_server.cpp` |
| `Server` | server.dfy | start-up and shut-down order of `d3core/src/server.cpp` |
| `AuditLog` | audit_log.dfy | the bounded buffer of `audit.cpp` |
| `CryptoUtils` | crypto_utils.dfy | hex coding, `salt$hash` passwords and the AES guards of `utils/src/crypto_utils.cpp` |
| `DbCrypto` | db_crypto.dfy | the salt and password helpers of `database_utils/crypto_utils.h` |
| `Config` | config.dfy | the two-level map, line parser, save format and defaults of `config.cpp` |
| `RestServer` | rest_server.dfy | request parsing, response formatting, routing and API keys of `rest_server.cpp` |
| `ControllerSupport` | controller_support.dfy | what both controllers share: JSON access, error replies, the store |
| `AccountController` | account_controller.dfy | validators and the check order of `account_controller.cpp` |
| `AdminController` | admin_controller.dfy | `getLogs`, `banAccount`, `shutdownServer`, `restartServer` |

Where the source changes state in place (the packet header, the
Battle.net client, the registries, sessions, the world, the audit log,
the configuration), the model is a class with those fields and
`modifies` clauses, and each method's `ensures` ties its new state to a
specification function of the old state. Loops in the source (split,
join, replace, the hex loops, the registry sweeps, the log filter, the
query loop, the header parser) are `while`/`for` loops with invariants,
proved against a function that the lemmas are about.

Fixed assumptions:

- The four header fields are stored little-endian. The source copies them
  with `memcpy` in host order; the round trip holds for any fixed order.
- A Dafny `char` stands for one byte of a `std::string`, so every length
  limit (the 255-byte auth fields, the name and password bounds) counts bytes.
- Characters are classified as in the C locale (ASCII `isspace`,
  `isalnum`, `tolower`, `toupper`).
- Foreign code is a parameter: the SHA-256 digest, `std::hash`, the
  ciphers, random draws, the JSON parser and its error texts, the
  account/character database, the log file, the time stamps and the
  iteration order of `std::map` and `std::unordered_map`.
- `size_t` is 64 bits wide: `std::hash` returns a value below 2^64, and a
  negative `maxAccountsPerIp` cast to `size_t` wraps to 2^64 plus it.
- `int` is 32 bits wide where the source converts to it (`std::stoi`,
  `static_cast<int>` in `toHex`).

## Model

| member | source | states |
|---|---|---|
| Protocol.Sizes | src/battle_net/include/battle_net/protocol.h:36-63 | the header is 2+2+4+4 = 12 bytes, the body cap is 65536 and the full-packet cap 65548 |
| Protocol.U16RoundTrip | src/battle_net/include/battle_net/protocol.h:44-53 | a 16-bit field copied out and back in is unchanged |
| Protocol.U32RoundTrip | src/battle_net/include/battle_net/protocol.h:46-56 | a 32-bit field copied out and back in is unchanged |
| Protocol.BytesU16RoundTrip | src/battle_net/include/battle_net/protocol.h:53 | two bytes read as a field and written back are the same two bytes |
| Protocol.BytesU32RoundTrip | src/battle_net/include/battle_net/protocol.h:55-56 | four bytes read as a field and written back are the same four bytes |
| Protocol.EncodeLayout | src/battle_net/include/battle_net/protocol.h:41-48 | the serialized header is exactly 12 bytes: service id at 0, method id at 2, request id at 4, body length at 8 |
| Protocol.DecodeEncode | src/battle_net/include/battle_net/protocol.h:41-58 | deserializing a serialized header reproduces all four fields |
| Protocol.DecodeIgnoresTrailing | src/battle_net/include/battle_net/protocol.h:50-57 | bytes after the first 12 do not change the decoded fields |
| Protocol.EncodeDecode | src/battle_net/include/battle_net/protocol.h:41-57 | serializing a decoded 12-byte buffer gives the buffer back, so the coding is a bijection on 12-byte buffers |
| Protocol.PacketHeader.Serialize | src/battle_net/include/battle_net/protocol.h:41-48 | the buffer is the encoding of the four fields, 12 bytes long, and decodes back to them |
| Protocol.PacketHeader.Deserialize | src/battle_net/include/battle_net/protocol.h:50-58 | succeeds exactly when the buffer has at least 12 bytes; then the fields are the decoded ones, otherwise all four are unchanged |
| BattleNetClient.ZeroBytes | src/battle_net/src/battle_net_client.cpp:30 | a fresh read buffer of n bytes, all zero |
| BattleNetClient.EmptyBodyDispatchedAtOnce | src/battle_net/src/battle_net_client.cpp:120-129 | a full header announcing no body is dispatched at once with an empty body, and no body read starts |
| BattleNetClient.BodyReadOfAnnouncedLength | src/battle_net/src/battle_net_client.cpp:130-173 | a body length in 1..65536 starts a read of exactly that many bytes into a buffer of that size, with nothing sent and the socket open |
| BattleNetClient.OversizedBodyDropsClient | src/battle_net/src/battle_net_client.cpp:132-137 | a body length above 65536 closes the socket and deregisters the client without reading a body |
| BattleNetClient.ReadFailureDropsClient | src/battle_net/src/battle_net_client.cpp:103-205 | any read error and any short read, of a header or of a body, ends closed and deregistered with nothing sent |
| BattleNetClient.CloseIdempotent | src/battle_net/src/battle_net_client.cpp:64-80 | `close` leaves the socket closed and acts only on an open socket, so a second `close` (and a second close-and-deregister) changes nothing |
| BattleNetClient.RearmOnlyIfOpen | src/battle_net/src/battle_net_client.cpp:207-240 | after a dispatch the next header read is armed exactly when the socket is still open |
| BattleNetClient.FrameLayout | src/battle_net/src/battle_net_client.cpp:330-356 | an outbound frame is 12 + the payload's length bytes: a header announcing the payload's length, then the payload |
| BattleNetClient.EmptyFrame | src/battle_net/src/battle_net_client.cpp:286-296 | a reply without a body is the bare serialized header |
| BattleNetClient.ChallengeAnswered | src/battle_net/src/battle_net_client.cpp:286-296 | AUTH_CHALLENGE_REQUEST sends one AUTH_CHALLENGE_RESPONSE with the same request id and an empty body, and changes no login state |
| BattleNetClient.SessionAuthenticates | src/battle_net/src/battle_net_client.cpp:298-328 | AUTH_SESSION_REQUEST sets authenticated and the login "testuser_srp" and sends LOGON_SUCCESS with the same request id |
| BattleNetClient.UnknownPacketIgnored | src/battle_net/src/battle_net_client.cpp:213-233 | an unknown service or method id sends nothing and changes nothing |
| BattleNetClient.WriteCompletion | src/battle_net/src/battle_net_client.cpp:260-284 | a completed write changes nothing; a write error closes the socket and deregisters the client |
| BattleNetClient.Client.constructor | src/battle_net/src/battle_net_client.cpp:23-41 | a new client is open, idle, unauthenticated, with a 12-byte buffer, and its address is the peer's or "unknown" |
| BattleNetClient.Client.Close | src/battle_net/src/battle_net_client.cpp:64-80 | the new state is `CloseSpec` of the old one |
| BattleNetClient.Client.RemoveFromServer | src/battle_net/src/battle_net_client.cpp:107 | the client is marked deregistered and nothing else changes |
| BattleNetClient.Client.Start | src/battle_net/src/battle_net_client.cpp:57-62 | `start` arms the first header read |
| BattleNetClient.Client.DoReadHeader | src/battle_net/src/battle_net_client.cpp:82-101 | a header read is armed only on an open socket, into a 12-byte buffer |
| BattleNetClient.Client.DoReadBody | src/battle_net/src/battle_net_client.cpp:155-173 | a body read is armed only on an open socket, into a buffer of the announced size |
| BattleNetClient.Client.HandleReadHeader | src/battle_net/src/battle_net_client.cpp:103-153 | the new state is the header-completion step of the specification, which the lemmas above describe case by case |
| BattleNetClient.Client.HandleReadBody | src/battle_net/src/battle_net_client.cpp:175-205 | a full body is dispatched; an error or short read closes and deregisters |
| BattleNetClient.Client.ProcessPacket | src/battle_net/src/battle_net_client.cpp:207-240 | dispatch on (service, method), then re-arm the header read only while open |
| BattleNetClient.Client.HandleAuthChallenge | src/battle_net/src/battle_net_client.cpp:286-296 | sends the challenge response with the current request id and an empty body |
| BattleNetClient.Client.HandleAuthSession | src/battle_net/src/battle_net_client.cpp:298-328 | records the mock login as authenticated, then sends LOGON_SUCCESS |
| BattleNetClient.Client.SendPacket | src/battle_net/src/battle_net_client.cpp:330-356 | writes the header announcing the payload's length followed by the payload |
| BattleNetClient.Client.DoWrite | src/battle_net/src/battle_net_client.cpp:242-258 | a write goes out only on an open socket |
| BattleNetClient.Client.HandleWrite | src/battle_net/src/battle_net_client.cpp:260-284 | a write error closes and deregisters; success changes nothing |
| BattleNetAuth.CreateAuthMessage | test/unit/auth_tests.cpp:45-64 | the message is type 0x01, the login's length mod 256, the login, the password's length mod 256, the password: 3 + both lengths bytes |
| BattleNetAuth.ParsedFieldLengths | test/unit/auth_tests.cpp:45-64 | a message that decodes as an authentication request consumed exactly its declared login and password lengths and nothing more |
| BattleNetAuth.ParseAuthMessage | test/unit/auth_tests.cpp:45-64 | decoding an encoded message gives back login and password exactly when both are at most 255 bytes long (longer ones are truncated by the one-byte length) |
| BattleNetAuth.TruncatedMessageIsMalformed | test/unit/auth_tests.cpp:215 | the two-byte message {0x01, 0x08} is malformed |
| BattleNetAuth.SuccessfulAuth | test/unit/auth_tests.cpp:107-129 | an existing, unbanned account with the matching password ends Authenticated with its login, and the reply starts 0x02 0x01 |
| BattleNetAuth.FailedAuth | test/unit/auth_tests.cpp:132-204 | an unknown account, a wrong password or a banned account ends AuthFailed with no login, and the reply starts 0x02 0x00 |
| BattleNetAuth.MalformedLeavesState | test/unit/auth_tests.cpp:207-222 | a malformed message leaves a fresh client NotAuthenticated |
| BattleNetAuth.PingPong | test/unit/auth_tests.cpp:225-242 | a ping (0x03) is answered by a message starting 0x04 and changes nothing |
| BattleNetAuth.AuthenticatedOnlyIfAccepted | test/unit/auth_tests.cpp:107-204 | a client becomes Authenticated only through an authentication request naming an account the store accepts, under that account's login |
| BattleNetAuth.AuthClient.constructor | test/unit/auth_tests.cpp:67-75 | a new client is NotAuthenticated with no login and has sent nothing |
| BattleNetAuth.AuthClient.ProcessMessage | test/unit/auth_tests.cpp:77-96 | the new view is that of the exchange's specification; the last sent message is its reply, or unchanged when there is none |
| BattleNetServer.SweepExact | src/battle_net/src/battle_net_server.cpp:238-258 | after `cleanupClients` exactly the connected entries remain, each unchanged |
| BattleNetServer.SweepIdempotent | src/battle_net/src/battle_net_server.cpp:238-258 | a second sweep removes nothing |
| BattleNetServer.AcceptOutcome | src/battle_net/src/battle_net_server.cpp:182-231 | at or over the cap the registry is unchanged; under it the new client is stored under its address and every other entry is kept |
| BattleNetServer.KeyedByIpPreserved | src/battle_net/src/battle_net_server.cpp:245-255 | accepting and sweeping keep every entry stored under its own client's address |
| BattleNetServer.AtMostOnePerIp | src/battle_net/src/battle_net_server.cpp:191-220 | since the registry is keyed by address, the count of clients from one address is at most 1, and 1 exactly when the address is a key |
| BattleNetServer.AcceptReplacesSameIp | src/battle_net/src/battle_net_server.cpp:191-220 | with a cap of 2 or more, a second client from a registered address replaces the first, which is then gone from the registry, and the count stays 1 |
| BattleNetServer.CorrectedAcceptKeepsCap | src/battle_net/src/battle_net_server.cpp:191-220 | keyed by client identity, accepting never lifts any address over the cap and keeps every earlier client |
| BattleNetServer.SweepKeepsCap | src/battle_net/src/battle_net_server.cpp:238-258 | sweeping never raises any address's count |
| BattleNetServer.CountConnections | src/battle_net/src/battle_net_server.cpp:191-199 | the loop over the registry counts exactly the clients whose address is the peer's |
| BattleNetServer.RemoveDisconnected | src/battle_net/src/battle_net_server.cpp:238-258 | the two loops (collect the disconnected keys, then erase them) leave exactly the sweep of the registry |
| BattleNetServer.Server.constructor | src/battle_net/src/battle_net_server.cpp:15-28 | a new server is not running, not accepting and has no clients; the cap is the configured one |
| BattleNetServer.Server.GetClientCount | src/battle_net/src/battle_net_server.cpp:147-150 | the number of registered clients |
| BattleNetServer.Server.Run | src/battle_net/src/battle_net_server.cpp:70-115 | a second `run` changes nothing; otherwise the server is running and accepting, with the registry unchanged |
| BattleNetServer.Server.Shutdown | src/battle_net/src/battle_net_server.cpp:117-145 | `shutdown` of a stopped server changes nothing; otherwise it stops running, stops accepting and clears the registry |
| BattleNetServer.Server.StartAccept | src/battle_net/src/battle_net_server.cpp:156-180 | an accept is armed only while the server runs |
| BattleNetServer.Server.OnAccept | src/battle_net/src/battle_net_server.cpp:165-177 | a successful accept is handled, then the next accept is armed if the server still runs; a failed one only re-arms |
| BattleNetServer.Server.HandleAccept | src/battle_net/src/battle_net_server.cpp:182-231 | the registry becomes the accept step of its old contents under the configured cap; a peer whose address cannot be read changes nothing |
| BattleNetServer.Server.Disconnect | src/battle_net/src/battle_net_client.cpp:64-80 | a registered client's socket closes: its entry is marked disconnected and nothing else changes |
| BattleNetServer.Server.CleanupClients | src/battle_net/src/battle_net_server.cpp:238-258 | the registry becomes the sweep of its old contents |
| GameSession.Recipients | src/game_server/include/game_server/game_session.h:142-147 | a client receives a broadcast exactly when it is in the session and is not the excluded one |
| GameSession.BroadcastToAll | src/game_server/include/game_server/game_session.h:145-147 | with no client excluded, every client of the session receives the message |
| GameSession.BroadcastExcludes | src/game_server/include/game_server/game_session.h:145-147 | excluding a client removes exactly that client from the recipients |
| GameSession.Session.constructor | src/game_server/include/game_server/game_session.h:58-68 | a new session has its id, Normal difficulty, Campaign mode and no clients |
| GameSession.Session.GetClientCount | src/game_server/include/game_server/game_session.h:112-116 | the number of clients is the size of the client map |
| GameSession.Session.IsEmpty | src/game_server/include/game_server/game_session.h:100-104 | empty exactly when the client count is zero, that is when no client is registered |
| GameSession.Session.SetDifficulty | src/game_server/include/game_server/game_session.h:124-128 | the difficulty becomes the given one and nothing else changes |
| GameSession.Session.SetGameMode | src/game_server/include/game_server/game_session.h:136-140 | the mode becomes the given one and nothing else changes |
| GameSession.Session.AddClient | src/game_server/include/game_server/game_session.h:88-92 | a client is added, and true returned, exactly when its key is not yet registered; otherwise nothing changes |
| GameSession.Session.RemoveClient | src/game_server/include/game_server/game_session.h:94-98 | the client's key is no longer registered and every other client stays |
| GameSession.Session.Update | src/game_server/include/game_server/game_session.h:81-85 | a tick changes no membership, mode or difficulty |
| GameSession.Session.BroadcastMessage | src/game_server/include/game_server/game_session.h:142-147 | the message goes to exactly the recipients the exclusion rule defines |
| World.AddMakesMember | src/game_server/src/world.cpp:42-53 | after adding a player it is in the world and no other membership changed |
| World.AddIdempotent | src/game_server/src/world.cpp:42-53 | adding twice is adding once; adding a present player changes nothing |
| World.NullPlayerIgnored | src/game_server/src/world.cpp:44-57 | a null player is neither added nor removed |
| World.RemoveOutcome | src/game_server/src/world.cpp:55-71 | after removing, the player is absent; a present player is removed alone, an absent one changes nothing |
| World.AddThenRemove | src/game_server/src/world.cpp:42-71 | adding an absent player and removing it again restores the set |
| World.World.constructor | src/game_server/src/world.cpp:9-14 | a new world has its name and scene and no players |
| World.World.AddPlayer | src/game_server/src/world.cpp:42-53 | the player set becomes the add step of the old set |
| World.World.RemovePlayer | src/game_server/src/world.cpp:55-71 | the player set becomes the remove step of the old set |
| World.World.Update | src/game_server/src/world.cpp:31-40 | `update` visits the players and changes no membership |
| World.World.Destroy | src/game_server/src/world.cpp:16-22 | the destructor leaves no players |
| GameServer.NextIdIncreases | src/game_server/src/game_server.cpp:301 | the post-increment of the 32-bit counter adds one, and wraps from 0xFFFFFFFF to 0 |
| GameServer.IssuedIds | src/game_server/src/game_server.cpp:297-323 | the first n sessions created get the ids 1, 2, …, n |
| GameServer.CounterAfter | src/game_server/src/game_server.cpp:301 | after n creations the counter holds n + 1 |
| GameServer.IssuedIdsDistinct | src/game_server/src/game_server.cpp:297-323 | before the counter wraps, the ids handed out are strictly increasing, hence distinct |
| GameServer.Server.constructor | src/game_server/src/game_server.cpp:16-30 | a new server is stopped, with no clients or sessions, and the next session id is 1 |
| GameServer.Server.GetClientCount | src/game_server/src/game_server.cpp:171-174 | the number of registered clients |
| GameServer.Server.GetSessionCount | src/game_server/src/game_server.cpp:176-179 | the number of registered sessions |
| GameServer.Server.Run | src/game_server/src/game_server.cpp:72-129 | a second `run` changes nothing; otherwise the server runs and accepts; clients, sessions and the counter are unchanged |
| GameServer.Server.StartAccept | src/game_server/src/game_server.cpp:185-209 | an accept is armed only while the server runs |
| GameServer.Server.Shutdown | src/game_server/src/game_server.cpp:131-169 | stopping a stopped server changes nothing; otherwise it stops, and clients and sessions are cleared |
| GameServer.Server.HandleAccept | src/game_server/src/game_server.cpp:211-241 | the new client is stored under its address, replacing any earlier one; a peer whose address cannot be read changes nothing |
| GameServer.Server.CreateGameSession | src/game_server/src/game_server.cpp:297-323 | the counter always advances; when `init` succeeds a fresh empty Normal/Campaign session with the old counter as id is registered under that id and returned, otherwise null is returned and the registry is unchanged |
| GameServer.Server.GetGameSession | src/game_server/src/game_server.cpp:325-334 | the registered session with that id, or null when there is none |
| GameServer.Server.UpdateSessions | src/game_server/src/game_server.cpp:243-255 | every registered session is updated exactly once and keeps its clients, mode and difficulty |
| GameServer.Server.CleanupClientsAndSessions | src/game_server/src/game_server.cpp:257-295 | disconnected clients are swept and exactly the empty sessions are removed |
| GameServer.RemoveEmptySessions | src/game_server/src/game_server.cpp:278-292 | the two loops (collect the ids of the empty sessions, then erase them) keep exactly the sessions that have clients |
| GameServer.SessionSweepExact | src/game_server/src/game_server.cpp:278-292 | a session survives the sweep exactly when it still has a client |
| Server.InitStopsAtFirstFailure | src/d3core/src/server.cpp:46-86 | `init` initialises Battle.net, the game server and the REST server in that order and stops at the first that fails |
| Server.ShutdownReversesStart | src/d3core/src/server.cpp:88-189 | the shutdown order (REST, game, Battle.net) is the start order reversed |
| Server.TopServer.constructor | src/d3core/src/server.cpp:16-33 | a new server is stopped, with no threads and no component calls |
| Server.TopServer.Init | src/d3core/src/server.cpp:46-86 | succeeds exactly when all three components initialise, and makes exactly the calls up to the first failure |
| Server.TopServer.Run | src/d3core/src/server.cpp:88-145 | a second `run` changes nothing; otherwise it runs every component in start order, one thread each |
| Server.TopServer.Shutdown | src/d3core/src/server.cpp:147-189 | stopping a stopped server changes nothing; otherwise it shuts the components down in reverse start order and joins and drops every thread |
| AuditLog.ActionTypeNamesDistinct | src/utils/src/audit.cpp:12-26 | every action type has its own name, and none is "UNKNOWN" |
| AuditLog.ResultNamesDistinct | src/utils/src/audit.cpp:28-36 | every result has its own name, and none is "UNKNOWN" |
| AuditLog.AppendKeepsOrderAndBound | src/utils/src/audit.cpp:153-156 | appending drops the oldest entry when the buffer is full: the new entry is last, the rest is a suffix of the old entries in order, and a buffer within its cap stays within it |
| AuditLog.FilterSeq | src/utils/src/audit.cpp:194-217 | the filtered entries are exactly those of the log that satisfy the filter, and no more of them |
| AuditLog.FilterSnoc | src/utils/src/audit.cpp:204-209 | filtering a log with one more entry adds that entry at the end exactly when it satisfies the filter |
| AuditLog.Filename | src/utils/src/audit.cpp:143-144 | the file name holds no '/' and is no longer than the path |
| AuditLog.FilenameIsLastComponent | src/utils/src/audit.cpp:143-144 | the file name is the path's suffix after its last '/' (the whole path when it has none) |
| AuditLog.Log.constructor | src/utils/src/audit.cpp:38-42 | a new log holds no entries, a cap of 1000, and is neither enabled nor initialised |
| AuditLog.Log.IsEnabled | src/utils/src/audit.cpp:318-320 | enabled exactly when both the enabled flag and the initialised flag are set |
| AuditLog.Log.Init | src/utils/src/audit.cpp:53-113 | settings are stored; when the file opens the log is initialised and the initialisation entry appended, otherwise `false` is returned and entries and initialisation are unchanged |
| AuditLog.Log.LogAction | src/utils/src/audit.cpp:115-170 | while enabled the described entry, with its source location, is appended under the cap; otherwise nothing changes |
| AuditLog.Log.GetRecentEntries | src/utils/src/audit.cpp:172-192 | while enabled, the last min(count, size) entries in order; otherwise none |
| AuditLog.Log.GetEntriesByFilter | src/utils/src/audit.cpp:194-217 | while enabled, the entries satisfying the filter, in order; otherwise none |
| AuditLog.Log.SetEnabled | src/utils/src/audit.cpp:285-316 | the flag takes the new value; a status-change entry is appended only when the flag changes to true on an initialised log |
| AuditLog.Log.Shutdown | src/utils/src/audit.cpp:322-353 | an initialised log is emptied and no longer initialised; otherwise nothing changes |
| StringUtils.TrimLeft | src/utils/src/string_utils.cpp:18-23 | the result is the suffix of the input that starts at its first non-whitespace character: everything dropped is whitespace and the result does not start with whitespace |
| StringUtils.TrimRight | src/utils/src/string_utils.cpp:25-30 | the result is the prefix of the input that ends at its last non-whitespace character: everything dropped is whitespace and the result does not end with whitespace |
| StringUtils.TrimProperties | src/utils/src/string_utils.cpp:14-30 | `trim` yields a contiguous slice of the input with whitespace on neither end, and everything it cut off on either side is whitespace; this states the behaviour of `StringUtils.Trim` |
| StringUtils.TrimOfTrimmed | src/utils/src/string_utils.cpp:14-16 | a string with no surrounding whitespace is its own trim |
| StringUtils.TrimIdempotent | src/utils/src/string_utils.cpp:14-16 | trimming twice is trimming once |
| StringUtils.TrimAllSpace | src/utils/src/string_utils.cpp:14-30 | a string made only of whitespace trims to "" on either side and on both |
| StringUtils.Find | src/utils/src/string_utils.cpp:96 | `std::string::find`: an occurrence of the pattern at the returned index and none before it, or none anywhere |
| StringUtils.SplitTokensHaveNoDelimiter | src/utils/src/string_utils.cpp:32-44 | no token of `split` contains the delimiter |
| StringUtils.SplitLeadingDelimiter | src/utils/src/string_utils.cpp:38-40 | a leading delimiter yields an empty first token |
| StringUtils.SplitTrailingDelimiter | src/utils/src/string_utils.cpp:38-40 | one more trailing delimiter adds an empty token only after "" or after another delimiter: `getline` yields no token for the final one |
| StringUtils.Split | src/utils/src/string_utils.cpp:32-44 | the loop's tokens are exactly those of the split specification |
| StringUtils.NextDelimiter | src/utils/src/string_utils.cpp:38 | `getline` stops at the first delimiter at or after the current position, or at the end |
| StringUtils.JoinCons | src/utils/src/string_utils.cpp:46-59 | joining x followed by a non-empty list is x, the delimiter, then the join of the list |
| StringUtils.JoinLength | src/utils/src/string_utils.cpp:46-59 | a join is as long as all the parts plus one delimiter per gap |
| StringUtils.Join | src/utils/src/string_utils.cpp:46-59 | the loop's text is the join specification: the parts in order, the delimiter between neighbours only |
| StringUtils.JoinSplit | src/utils/src/string_utils.cpp:32-59 | joining the tokens of `split` with the same delimiter gives back any non-empty string that does not end with the delimiter |
| StringUtils.ToLower | src/utils/src/string_utils.cpp:61-67 | same length; each upper-case letter becomes its lower-case letter and every other character is kept |
| StringUtils.ToUpper | src/utils/src/string_utils.cpp:69-75 | same length; each lower-case letter becomes its upper-case letter and every other character is kept |
| StringUtils.CaseRoundTrip | src/utils/src/string_utils.cpp:61-75 | lowering then raising a capital gives it back, and the converse; other characters are fixed by both |
| StringUtils.StartsWithIffPrefix | src/utils/src/string_utils.cpp:77-82 | `startsWith` holds exactly when the input is the prefix followed by something |
| StringUtils.EndsWithIffSuffix | src/utils/src/string_utils.cpp:84-89 | `endsWith` holds exactly when the input is something followed by the suffix |
| StringUtils.ReplaceNoOccurrence | src/utils/src/string_utils.cpp:91-103 | text without an occurrence of `from` is returned unchanged |
| StringUtils.ReplaceSelfIdentity | src/utils/src/string_utils.cpp:91-103 | replacing `from` by itself changes nothing |
| StringUtils.ReplaceSingle | src/utils/src/string_utils.cpp:91-103 | replacing in exactly `from` gives exactly `to` |
| StringUtils.Replace | src/utils/src/string_utils.cpp:91-103 | the loop replaces every occurrence found left to right, resuming after the inserted text, as the specification does |
| StringUtils.HexDigits | src/utils/include/utils/string_utils.h:101-104 | the lowercase hexadecimal digits of a number, at least one |
| StringUtils.HexValueOfDigits | src/utils/include/utils/string_utils.h:101-104 | the digits read back as the number |
| StringUtils.ToHexProperties | src/utils/include/utils/string_utils.h:100-105 | `toHex` is padded with '0' to at least twice `sizeof(T)` characters, never truncated, all lowercase hex digits, and reads back as the value (a negative `int` as its 32-bit two's complement); this states the behaviour of `StringUtils.ToHex` |
| StringUtils.ToHexUint16 | src/utils/include/utils/string_utils.h:100-105 | for a 16-bit id the output is exactly four hex digits that read back as the id |
| Stoi.DigitRun | src/core/src/config.cpp:194-205 | the length of the run of digits at the front of the text: all digits, and the next character, if any, is not one |
| Stoi.StoiOfDigitStart | src/rest_api/src/admin_controller.cpp:309 | text starting with a digit converts to the value of its leading run of digits when that fits in an `int`, and throws otherwise |
| Stoi.StoiIgnoresTrailing | src/rest_api/src/rest_server.cpp:58 | characters after the leading digits do not change the result of `std::stoi` |
| Stoi.StoiNoDigit | src/rest_api/src/admin_controller.cpp:309 | text with no digit after the leading whitespace and optional sign throws |
| Stoi.NatToString | src/rest_api/src/admin_controller.cpp:204 | `std::to_string` of a natural is all decimal digits, without a leading zero unless it is "0" |
| Stoi.NatToStringValue | src/rest_api/src/admin_controller.cpp:204 | the printed digits read back as the number |
| Stoi.NatToStringInjective | src/rest_api/src/admin_controller.cpp:204 | distinct numbers print differently |
| Stoi.StoiIntToString | src/core/src/config.cpp:194-205 | `std::stoi` reads back what `std::to_string` prints, for every `int` |
| CryptoUtils.ByteHexDigits | src/utils/src/crypto_utils.cpp:274-277 | each byte prints as exactly two lowercase hex digits that read back as the byte |
| CryptoUtils.HexEncodeSnoc | src/utils/src/crypto_utils.cpp:274-278 | encoding one more byte appends its two digits |
| CryptoUtils.HexEncodeShape | src/utils/src/crypto_utils.cpp:269-281 | `hexEncode` is twice as long as the data, all lowercase hex digits, with byte i at positions 2i and 2i+1 |
| CryptoUtils.HexEncode | src/utils/src/crypto_utils.cpp:269-281 | the stream loop produces the encoding specification |
| CryptoUtils.Chunk | src/utils/src/crypto_utils.cpp:288 | `substr(i, 2)` is the next two characters, or the single last one |
| CryptoUtils.DecodeChunks | src/utils/src/crypto_utils.cpp:283-295 | a successful decoding has one byte per two characters, rounded up |
| CryptoUtils.HexDecodeSpec | src/utils/src/crypto_utils.cpp:283-295 | `hexDecode` fails exactly when `std::stoi` throws on some chunk; otherwise it has one byte per two characters, rounded up |
| CryptoUtils.DigitsValueIsHexValue | src/utils/src/crypto_utils.cpp:289 | `std::stoi` in base 16 reads lowercase digits at their hexadecimal value |
| CryptoUtils.StoiOfLowerHex | src/utils/src/crypto_utils.cpp:289 | one or two lowercase hex digits convert to their value, which is below 256 |
| CryptoUtils.StoiOfHexPair | src/utils/src/crypto_utils.cpp:288-289 | a chunk of two lowercase hex digits converts to its value, which is below 256 |
| CryptoUtils.StoiOfHexDigit | src/utils/src/crypto_utils.cpp:288-289 | a single trailing lowercase hex digit converts to its value |
| CryptoUtils.HexDecodeAfter | src/utils/src/crypto_utils.cpp:283-295 | decoding an encoding followed by any well-aligned rest gives the bytes followed by the rest's bytes |
| CryptoUtils.HexDecodeEncode | src/utils/src/crypto_utils.cpp:269-295 | `hexDecode(hexEncode(b)) == b` for every byte sequence |
| CryptoUtils.OddTrailingDigit | src/utils/src/crypto_utils.cpp:287-290 | an odd trailing digit decodes as a single byte holding that digit's value |
| CryptoUtils.NonHexThrows | src/utils/src/crypto_utils.cpp:289 | a chunk starting with a character that is not a hex digit, whitespace or a sign makes `std::stoi` throw, so `hexDecode` fails |
| CryptoUtils.HexDecode | src/utils/src/crypto_utils.cpp:283-295 | the loop's result is the decoding specification, including the failure |
| CryptoUtils.DecodeStep | src/utils/src/crypto_utils.cpp:287-291 | one iteration consumes a chunk: a failing chunk fails the rest, a good one prepends its byte |
| CryptoUtils.Sha256Shape | src/utils/src/crypto_utils.cpp:31-41 | the SHA-256 hex string has 64 characters, none of them '$' |
| CryptoUtils.UseSalt | src/utils/src/crypto_utils.cpp:300-303 | the given salt when non-empty, otherwise the generated one |
| CryptoUtils.VerifyPassword | src/utils/src/crypto_utils.cpp:318-342 | a stored string without '$' never verifies |
| CryptoUtils.HashThenVerify | src/utils/src/crypto_utils.cpp:297-342 | a password verifies against its own hash exactly when the salt used holds no '$', because verification splits at the first '$' |
| CryptoUtils.HashWithGivenSalt | src/utils/src/crypto_utils.cpp:297-316 | with a non-empty '$'-free salt the stored string is salt + "$" + sha256(password + "$" + salt), of length |salt| + 65, and it verifies |
| CryptoUtils.AesGuarded | src/utils/src/crypto_utils.cpp:147-219 | encryption and decryption return "" when the key is not 32 bytes or the IV not 16; otherwise they return what the cipher returns |
| CryptoUtils.Charset | src/utils/src/crypto_utils.cpp:60-70 | the character set has 62 characters, or 87 with the special characters |
| CryptoUtils.CharsetContents | src/utils/src/crypto_utils.cpp:60-70 | every character of the set is a letter or a digit, or, when requested, one of the special characters, none of which is alphanumeric |
| CryptoUtils.GenerateRandomString | src/utils/src/crypto_utils.cpp:55-85 | the result has the requested length, its i-th character is the one the i-th draw picks from the set, and every character is from the set |
| DbCrypto.BytesToHex | src/database_utils/include/database_utils/crypto_utils.h:75-81 | two lowercase, zero-padded hex digits per byte: the same encoding as `hexEncode` |
| DbCrypto.GenerateSalt | src/database_utils/include/database_utils/crypto_utils.h:23-34 | the salt is the hex encoding of the first `length` random bytes drawn, has 2·length characters and decodes back to those bytes |
| DbCrypto.Hex64Shape | src/database_utils/include/database_utils/crypto_utils.h:50-53 | a 64-bit hash prints as exactly 16 lowercase hex digits that read back as the hash |
| DbCrypto.Hex64Injective | src/database_utils/include/database_utils/crypto_utils.h:50-53 | distinct hashes print differently |
| DbCrypto.HashPassword | src/database_utils/include/database_utils/crypto_utils.h:42-54 | the result is 16 lowercase hex digits whose value is `std::hash` of salt + password (salt first, no separator) |
| DbCrypto.VerifyPassword | src/database_utils/include/database_utils/crypto_utils.h:64-67 | only a 16-character stored hash can verify |
| DbCrypto.HashThenVerify | src/database_utils/include/database_utils/crypto_utils.h:42-67 | a password always verifies against its own hash and salt; `verifyPassword` holds exactly when the stored text is the 16-digit rendering of `std::hash` of salt + password |
| DbCrypto.BoundaryIsNotHashed | src/database_utils/include/database_utils/crypto_utils.h:45 | salt and password are concatenated without a separator, so splitting the same text differently gives the same hash |
| Config.SetEntry | src/core/src/config.cpp:155 | `m_config[section][key] = value` adds the section when missing and removes none |
| Config.GetValueFindsStored | src/core/src/config.cpp:161-180 | `getValue` returns the stored value when the section and the key exist, and the default otherwise |
| Config.GetAfterSet | src/core/src/config.cpp:149-180 | after setting (s, k) to v, reading (s, k) gives v and every other (section, key) reads as before |
| Config.ParseNetworkFields | src/core/src/config.cpp:190-198 | the network fields, assigned one by one, are those of the parse specification, including the `std::stoi` failure |
| Config.ParseServerFields | src/core/src/config.cpp:200-211 | the server fields, assigned one by one, are those of the parse specification, including the `std::stoi` failure |
| Config.ParseOutcome | src/core/src/config.cpp:182-213 | `parseConfig` succeeds exactly when the six numeric values convert; then every numeric field is the converted lookup, EnableSSL and EnableDebug are true exactly when the text is "true", the text fields are the lookups, and the result does not depend on the old fields |
| Config.DefaultsParse | src/core/src/config.cpp:182-249 | the default table parses without error to the documented defaults (port 1119, 1120, 8080, cap 10, 10 characters, and so on) |
| Config.DefaultsParseWith | src/core/src/config.cpp:182-249 | the same for any converter that reads the five default numbers correctly |
| Config.DefaultDatabase | src/core/src/config.cpp:215-249 | the database part of the defaults |
| Config.DefaultNetwork | src/core/src/config.cpp:215-249 | the network part of the defaults |
| Config.DefaultServer | src/core/src/config.cpp:215-249 | the server part of the defaults |
| Config.NetworkLookups | src/core/src/config.cpp:215-249 | each network value of the table equals the default its lookup names |
| Config.ServerLookups | src/core/src/config.cpp:215-249 | each server value of the table equals the default its lookup names |
| Config.CommentsSkipped | src/core/src/config.cpp:49-51 | an empty line or one starting with '#' or ';' changes nothing |
| Config.IndentedCommentIsRead | src/core/src/config.cpp:49-55 | the comment test comes before trimming: an indented '#' line is not skipped but trimmed and parsed |
| Config.SectionHeaderSetsSection | src/core/src/config.cpp:57-60 | a trimmed "[name]" line sets the current section to name and stores nothing |
| Config.KeyValueStored | src/core/src/config.cpp:63-70 | a line holding '=' stores the trimmed text after the first '=' under the trimmed text before it, in the current section |
| Config.OtherLinesIgnored | src/core/src/config.cpp:57-70 | a line that is neither a header nor holds '=' changes nothing |
| Config.ParseLinesAppend | src/core/src/config.cpp:47-71 | reading a + b is reading a, then b from where a left off |
| Config.RenderPairs | src/core/src/config.cpp:116-118 | one "key = value" line per key |
| Config.NonEmptySections | src/core/src/config.cpp:107-110 | exactly the sections that have at least one key, unchanged |
| Config.HeaderLineRead | src/core/src/config.cpp:57-60 | a written "[name]" line reads back as a switch to section name |
| Config.KeyLineRead | src/core/src/config.cpp:63-70 | a written "key = value" line with a safe key and a trimmed value reads back as storing that pair |
| Config.SkipLines | src/core/src/config.cpp:49-51 | a run of empty and comment lines changes nothing |
| Config.PairsRead | src/core/src/config.cpp:116-118 | reading back the pair lines of a section performs their writes in order |
| Config.PairsAdd | src/core/src/config.cpp:116-118 | reading back all pair lines of a map adds exactly that map to the current section |
| Config.SectionRead | src/core/src/config.cpp:112-120 | reading back a written section puts exactly its pairs into it |
| Config.HeaderSkipped | src/core/src/config.cpp:100-102 | the three header lines the file starts with are all skipped |
| Config.SectionsRead | src/core/src/config.cpp:106-121 | reading back the written sections, each once and new to the target, adds exactly the non-empty ones |
| Config.SaveThenLoad | src/core/src/config.cpp:89-135 | the text `saveToFile` writes, split into lines by `getline` and read back by the `loadFromFile` loop into an empty configuration, gives back every non-empty section with all its pairs when no name, key, value or time stamp holds a line break, every key is safe and every value its own trim; empty sections are lost |
| Config.FileTextRead | src/core/src/config.cpp:47 | lines each ended by a line break, with none inside them, are split by `getline` back into exactly those lines |
| Config.RenderFileLineFree | src/core/src/config.cpp:100-121 | no line of the rendered file holds a line break when no section name, key, value or time stamp does |
| Config.LineBreakSplitsValue | src/core/src/config.cpp:118 | a value holding a line break is written as two lines and read back as two: "k = a\nb" splits into "k = a" and "b" |
| Config.ReadLine | src/core/src/config.cpp:47-71 | one iteration of the line loop performs the line parser's step |
| Config.Config.constructor | src/core/src/config.cpp:13-17 | a new configuration holds the default table and the parsed default settings |
| Config.Config.ParseConfig | src/core/src/config.cpp:182-213 | the settings become those of the parse specification of the table; the table is unchanged |
| Config.Config.SetValue | src/core/src/config.cpp:149-159 | the table gets the entry, then the settings are re-parsed from it |
| Config.Config.WriteSection | src/core/src/config.cpp:112-120 | the lines written for one section are its header, its pairs and a blank line |
| Config.Config.SaveToFile | src/core/src/config.cpp:89-135 | when the file opens, the text written is the rendering of the table in map order, skipping empty sections, each line ended by a line break; otherwise nothing is written and `false` returned |
| Config.Config.LoadFromFile | src/core/src/config.cpp:24-87 | a missing or unopenable file changes nothing and returns `false`; otherwise the text is split into lines as `getline` does, the lines are parsed into the table, starting in section "", and the settings re-parsed |
| RestServer.GetLine | src/rest_api/src/rest_server.cpp:338-347 | one `getline` returns a line without its newline and a strictly shorter rest |
| RestServer.GetLineOf | src/rest_api/src/rest_server.cpp:338-347 | a line followed by a newline is read back exactly, leaving the text after it |
| RestServer.WordLength | src/rest_api/src/rest_server.cpp:340-341 | the length of the leading run of non-whitespace characters: all before it are non-space and the one at it is whitespace |
| RestServer.ParseRequest | src/rest_api/src/rest_server.cpp:330-370 | the request parsed line by line equals the parse specification of the whole text |
| RestServer.RequestLineOf | src/rest_api/src/rest_server.cpp:338-341 | "METHOD URI VERSION\r" reads back as its three tokens |
| RestServer.AddHeaderSplit | src/rest_api/src/rest_server.cpp:352-359 | a header line is split at its first ':' and both halves are trimmed before being stored |
| RestServer.AddHeaderOf | src/rest_api/src/rest_server.cpp:352-359 | a rendered "Name: value\r" line stores exactly that name and value |
| RestServer.ScanHeaderText | src/rest_api/src/rest_server.cpp:345-368 | rendered header lines followed by a blank line read back as those headers, and everything after the blank line is the body |
| RestServer.ParseRenderedRequest | src/rest_api/src/rest_server.cpp:330-370 | a rendered request (request line, safe headers, blank line, body) parses back to its method, URI, version, headers and body |
| RestServer.ParseRequestOf | src/rest_api/src/rest_server.cpp:336-368 | the request is the first line's three words, then the headers and body scanned from the rest; with no blank line the body is empty |
| RestServer.HeadersOfLastWins | src/rest_api/src/rest_server.cpp:358 | when a header name repeats, the last value is the one stored |
| RestServer.HeadersOfKeeps | src/rest_api/src/rest_server.cpp:358 | a name no later line sets keeps its earlier presence and value |
| RestServer.HeadersOfAppend | src/rest_api/src/rest_server.cpp:345-361 | reading two runs of header lines is reading the first, then the second |
| RestServer.Pairs | src/rest_api/src/rest_server.cpp:381-383 | the headers of the response in map order, one pair per name with its value |
| RestServer.FormatResponse | src/rest_api/src/rest_server.cpp:372-408 | the text written is the format specification: status line, the headers, Content-Length, Date and Server when absent, a blank line, the body |
| RestServer.WriteIfAbsent | src/rest_api/src/rest_server.cpp:386-398 | an optional header is appended to the text only when the response lacks it |
| RestServer.ResponseHeadersComplete | src/rest_api/src/rest_server.cpp:381-398 | the headers sent are the response's own plus Content-Length, Date and Server; the response's own values are kept, and an added Content-Length reads back as the body length |
| RestServer.HeadersOfEnumeration | src/rest_api/src/rest_server.cpp:381-383 | writing a map's headers in an enumeration of its keys and reading them back gives the map |
| RestServer.AddedHeadersRead | src/rest_api/src/rest_server.cpp:386-398 | reading the added headers on top of the response's gives the full header set sent |
| RestServer.FormatReadsBack | src/rest_api/src/rest_server.cpp:372-408 | a formatted response read back with the request reader gives version "HTTP/1.1", the status code, the full header set and the body |
| RestServer.HeaderPartReadsBack | src/rest_api/src/rest_server.cpp:381-404 | the header block and body of a formatted response scan back to the header set and the body |
| RestServer.ParamEnd | src/rest_api/src/rest_server.cpp:131-133 | a "{name}" at the head of a pattern is found with its closing brace and no brace between |
| RestServer.MatchInstance | src/rest_api/src/rest_server.cpp:122-146 | every URI made by filling a pattern's "{…}" slots with non-empty, slash-free values matches the pattern |
| RestServer.Captures | src/rest_api/src/rest_server.cpp:122-146 | a URI matching a pattern yields one non-empty, slash-free value per slot that rebuilds the URI |
| RestServer.MatchIffInstance | src/rest_api/src/rest_server.cpp:122-146 | a URI matches a pattern exactly when it is an instance of it |
| RestServer.ParamPatternMatch | src/rest_api/src/rest_server.cpp:122-146 | a one-slot pattern matches exactly its prefix, a non-empty slash-free value and its suffix |
| RestServer.AccountPatternMatch | src/rest_api/src/rest_server.cpp:440-478 | "/api/accounts/{login}"+suffix matches exactly the URIs with a non-empty slash-free login |
| RestServer.GetPatternsExclusive | src/rest_api/src/rest_server.cpp:440-516 | no URI matches both GET account patterns |
| RestServer.PostPatternsExclusive | src/rest_api/src/rest_server.cpp:497-535 | no URI matches both POST account patterns |
| RestServer.FirstPatternSound | src/rest_api/src/rest_server.cpp:122-146 | a pattern lookup returns the handler of some matching pattern in the order; none is returned only when no pattern matches |
| RestServer.FindRouteMeaning | src/rest_api/src/rest_server.cpp:100-147 | no route is found iff the method is unknown, or the URI is neither an exact route nor matches a pattern; a found handler belongs to the exact URI or a matching pattern; this states the behaviour of `RestServer.FindRoute` |
| RestServer.FindRouteOrderFree | src/rest_api/src/rest_server.cpp:122-146 | when at most one pattern matches, the map's iteration order does not change the route found |
| RestServer.RoutePatterns | src/rest_api/src/rest_server.cpp:410-609 | the registered table: the methods GET, POST, PUT and DELETE and, per method, its patterns |
| RestServer.RoutesUniqueMatch | src/rest_api/src/rest_server.cpp:410-609 | in the registered table, no URI matches two patterns of the same method |
| RestServer.RoutesOrderFree | src/rest_api/src/rest_server.cpp:100-147 | for the registered routes the lookup does not depend on the iteration order |
| RestServer.QueryDefeatsExactRoute | src/rest_api/src/rest_server.cpp:109-156 | GET "/api/logs?…" finds no route, so a query string turns the exact route into a 404 |
| RestServer.RoutePath | src/rest_api/src/rest_server.cpp:674-676 | the part of a URI before its query string: a '?'-free prefix of it |
| RestServer.PathLookupIgnoresQuery | src/rest_api/src/rest_server.cpp:109-147 | looking up the path instead of the whole URI ignores the query string and agrees with the lookup of the bare path |
| RestServer.PathLookupFindsLogs | src/rest_api/src/rest_server.cpp:595 | the corrected lookup finds the log handler for GET "/api/logs?…" |
| RestServer.StatusMessages | src/rest_api/src/rest_server.cpp:617-628 | unknown codes give "Unknown"; the known codes have distinct messages |
| RestServer.CreateJsonResponse | src/rest_api/src/rest_server.cpp:611-635 | the response has the given code and body, its status message, and only a JSON Content-Type header |
| RestServer.HandleUnauthorized | src/rest_api/src/rest_server.cpp:637-645 | a 401 "Unauthorized" JSON response that also sends "WWW-Authenticate: Bearer" |
| RestServer.NotFoundResponse | src/rest_api/src/rest_server.cpp:149-156 | the 404 answer is a JSON response with code 404 |
| RestServer.GetApiKey | src/rest_api/src/rest_server.cpp:660-692 | the key found by splitting the query and scanning its pairs equals the key specification |
| RestServer.QueryApiKeyFirst | src/rest_api/src/rest_server.cpp:679-688 | the first "api_key=…" pair of the query supplies the key |
| RestServer.QueryApiKeyAbsent | src/rest_api/src/rest_server.cpp:679-691 | without an "api_key" pair the key is empty |
| RestServer.BearerTokenWins | src/rest_api/src/rest_server.cpp:663-671 | a "Bearer " Authorization header supplies the key whatever the query says |
| RestServer.QueryKeyRead | src/rest_api/src/rest_server.cpp:674-689 | without a Bearer header, "?api_key=KEY" supplies KEY |
| RestServer.IsAuthorized | src/rest_api/src/rest_server.cpp:647-704 | a request is authorized iff its key has at least 32 characters |
| RestServer.ShortBearerDenies | src/rest_api/src/rest_server.cpp:663-700 | a Bearer token shorter than 32 characters is refused |
| RestServer.Answer | src/rest_api/src/rest_server.cpp:100-158 | a handler runs iff a route is found and it is account creation or the request is authorized; a found route otherwise answers 401, a missing one 404 |
| RestServer.ProcessRequest | src/rest_api/src/rest_server.cpp:100-158 | the reply is the answer for the route found for the request's method and URI and for its authorization |
| RestServer.AccountCreationIsOpen | src/rest_api/src/rest_server.cpp:418-425 | POST /api/accounts runs account creation without any key |
| ControllerSupport.AsString | src/rest_api/src/admin_controller.cpp:65 | a JSON value converts to a string exactly when it is a string, giving that string; otherwise the library's type error |
| ControllerSupport.AsInt | src/rest_api/src/admin_controller.cpp:170 | a JSON value converts to an integer exactly when it is a number or a boolean; a number gives its value |
| ControllerSupport.AsBool | src/rest_api/src/admin_controller.cpp:64 | a JSON value converts to a boolean exactly when it is one, giving it |
| ControllerSupport.ErrorStatusMessages | src/rest_api/src/account_controller.cpp:570-578 | only the codes 400, 401, 403, 404, 409 and 500 have their own message, each a different one; every other code reads "Error" |
| ControllerSupport.CreateErrorResponse | src/rest_api/src/account_controller.cpp:561-591 | the reply has the given code, a JSON Content-Type, the error body for the message, and a message of its own iff the code is a known one |
| ControllerSupport.ParseRequestJson | src/rest_api/src/account_controller.cpp:529-559 | the body is accepted iff the Content-Type is "application/json", the body is non-empty and it parses; a refusal is a 400 error reply |
| ControllerSupport.ParseRequestJsonOrder | src/rest_api/src/account_controller.cpp:532-555 | the checks come in order: wrong Content-Type, then empty body, then the parser's error, each with its own message |
| ControllerSupport.AddCharacterCount | src/rest_api/src/account_controller.cpp:344 | storing a character under a new name adds one to its owner's count and leaves every other account's count alone |
| AccountController.LastIndexOf | src/rest_api/src/account_controller.cpp:451 | the position of the last occurrence of a character, with none after it, or none when it does not occur |
| AccountController.EmailMatchesIff | src/rest_api/src/account_controller.cpp:451-452 | the email decision agrees, on every string, with the shape the email regular expression describes: local part, '@', domain, '.', two or more letters |
| AccountController.EmailExamples | src/rest_api/src/account_controller.cpp:451-452 | "test@example.com" has the email shape and "invalid-email" does not |
| AccountController.ValidateAccountDataIff | src/rest_api/src/account_controller.cpp:408-474 | account data is accepted exactly when it parses and has a login of 3 to 16 alphanumerics, an email of the email shape and a password of at least 8 characters |
| AccountController.MissingFieldOrder | src/rest_api/src/account_controller.cpp:415-431 | the missing fields are reported in the order login, email, password |
| AccountController.ValidateCharacterDataIff | src/rest_api/src/account_controller.cpp:476-527 | character data is accepted exactly when it parses and has a name of 2 to 12 letters, digits, '_' or '-' and a class id from 1 to 7 |
| AccountController.AccountFields | src/rest_api/src/account_controller.cpp:55-57 | accepted account data always yields its login, email and password |
| AccountController.CreateAccountOutcome | src/rest_api/src/account_controller.cpp:34-92 | creation answers 400, 409, 500 or 201; 201 exactly when the body is valid, the login is new and the write succeeds, and then only that account is added, unbanned; every other answer is an error that changes nothing; this states the behaviour of `AccountController.CreateAccount` |
| AccountController.CreateAccountTwice | src/rest_api/src/account_controller.cpp:62-67 | creating the same account again is refused with 409 and changes nothing |
| AccountController.ValidationBeforeConflict | src/rest_api/src/account_controller.cpp:47-52 | invalid data is refused with its validation message before the login is looked up |
| AccountController.UpdateMissingAccount | src/rest_api/src/account_controller.cpp:183-187 | an update of a missing account answers 404 whatever the request holds |
| AccountController.UpdateAccountOutcome | src/rest_api/src/account_controller.cpp:177-244 | an update answers 400, 404, 500 or 200; on 200 only that account changes, its ban state is kept, it becomes the stored account with the body's email and password (an empty one keeping the stored value), each valid when given, and a valid email or password stays valid; otherwise nothing changes |
| AccountController.CharacterFields | src/rest_api/src/account_controller.cpp:364-366 | accepted character data always yields its name and class id |
| AccountController.CharacterLimitBeforeBody | src/rest_api/src/account_controller.cpp:343-347 | an account at its character limit is refused with 400 before the body is read |
| AccountController.CreateCharacterOutcome | src/rest_api/src/account_controller.cpp:331-406 | creation answers 400, 404, 409, 500 or 201; on 201 a level-1 character of that class is stored under the new name, the owner's count grows by one and stays within the limit; otherwise nothing changes |
| AccountController.CreateCharacterRefusal | src/rest_api/src/account_controller.cpp:331-406 | every answer but 201 is an error reply that leaves the store unchanged |
| AccountController.CreateCharacterSuccess | src/rest_api/src/account_controller.cpp:338-395 | a 201 means the body was valid, the account existed below its limit, the name was new and the write succeeded, and exactly that character was added |
| AccountController.CharacterLimitKept | src/rest_api/src/account_controller.cpp:343-347 | an account within the character limit stays within it after any creation request |
| AdminController.LinesValue | src/rest_api/src/admin_controller.cpp:307-314 | the line count read from a "lines" value always lies in 1..1000: 100 when it is not a number or not positive, 1000 above that |
| AdminController.LinesValueReadsBack | src/rest_api/src/admin_controller.cpp:309-311 | a count from 1 to 1000 written in decimal is read back unchanged |
| AdminController.ParseLogQuery | src/rest_api/src/admin_controller.cpp:292-317 | the level and count after the query loop are those of the query specification of the URI |
| AdminController.ReadPair | src/rest_api/src/admin_controller.cpp:303-315 | one loop step applies one "key=value" pair to the level and count |
| AdminController.ApplyPairsLines | src/rest_api/src/admin_controller.cpp:307-314 | starting from a count in 1..1000, every pair sequence keeps it there |
| AdminController.QueryLinesInRange | src/rest_api/src/admin_controller.cpp:292-317 | whatever the URI, the count used lies in 1..1000 |
| AdminController.NoLevelKeeps | src/rest_api/src/admin_controller.cpp:305-306 | without a "level" pair the default level is kept |
| AdminController.LastLevelWins | src/rest_api/src/admin_controller.cpp:305-306 | the last "level" pair decides the level |
| AdminController.NoLinesKeeps | src/rest_api/src/admin_controller.cpp:307-314 | without a "lines" pair the count is kept |
| AdminController.LastLinesWins | src/rest_api/src/admin_controller.cpp:307-314 | the last "lines" pair decides the count |
| AdminController.FilterLines | src/rest_api/src/admin_controller.cpp:337-344 | the filter loop keeps exactly the lines of the filter specification, in file order |
| AdminController.FilterLogMembers | src/rest_api/src/admin_controller.cpp:339-344 | a line is kept exactly when it is in the file and is "ALL" or contains "[LEVEL]"; no more lines than the file has |
| AdminController.FilterLogAppend | src/rest_api/src/admin_controller.cpp:339-344 | filtering a concatenation filters each part |
| AdminController.FilterLogAll | src/rest_api/src/admin_controller.cpp:340 | level "ALL" keeps the whole file |
| AdminController.Tail | src/rest_api/src/admin_controller.cpp:347-352 | the last `lines` lines, or all of them when there are fewer: a suffix of that length |
| AdminController.GetLogs | src/rest_api/src/admin_controller.cpp:286-377 | the reply is the log specification of the URI and the file: 404 when missing, 500 when unreadable, else the JSON listing |
| AdminController.GetLogsMeaning | src/rest_api/src/admin_controller.cpp:286-377 | for a readable file the reply is 200 with the level, the number of kept lines and their last at most 1000, each a file line that matches the level |
| AdminController.TailMembers | src/rest_api/src/admin_controller.cpp:352 | every line of a tail is a line it was taken from |
| ControllerSupport.OptionalBool | src/rest_api/src/admin_controller.cpp:64 | an optional boolean is its default when absent, otherwise the conversion of the member |
| ControllerSupport.OptionalString | src/rest_api/src/admin_controller.cpp:171 | an optional string is its default when absent, otherwise the conversion of the member; `updateAccount` reads its email and password this way with default "" |
| ControllerSupport.OptionalInt | src/rest_api/src/admin_controller.cpp:170 | an optional integer is its default when absent, otherwise the conversion of the member |
| AdminController.BanBodyBeforeAccount | src/rest_api/src/admin_controller.cpp:45-58 | a bad body is refused with 400 before the account is looked up |
| AdminController.BanAccountOutcome | src/rest_api/src/admin_controller.cpp:39-96 | a ban answers 400, 404, 500 or 200; on 200 only that account's ban flag and reason change, to the body's values (banned by default, empty reason), and the message says banned or unbanned; otherwise nothing changes; this states the behaviour of `AdminController.BanAccount` |
| AdminController.StopServerOutcome | src/rest_api/src/admin_controller.cpp:152-217 | a shutdown or restart exits later exactly when it answers 200: after the given delay when positive, else after one second, and the message names the delay; this states the behaviour of `AdminController.StopServer` |
| AdminController.StopRepliesDistinct | src/rest_api/src/admin_controller.cpp:204-208 | the delayed and immediate messages differ, and different delays give different messages |

## Left out

- Boost.Asio scheduling: `async_read`, `async_write`, `async_accept`, the `io_context` threads and the mutexes are concurrency and I/O; each callback is modelled as the decision it makes when it runs, with the socket as an `open` flag.
- The loops that sleep (`BattleNetServer::run`, the update and command loops of the game server, the top-level main loop) are not modelled as loops; `Run` models their guard only.
- The lifetime of the buffer that `doWrite` hands to `async_write` is not modelled; `DoWrite` models only its guard on the open socket.
- The SQLite access layers are not part of this model: the account and character store is the `Store` value, and whether each write succeeds is a parameter.
- OpenSSL (SHA-1, SHA-256, MD5, base64, the AES ciphers), `RAND_bytes`, `std::random_device` and `std::hash` are parameters; the AES model covers only the key and IV length guards.
- nlohmann JSON is abstract: a parsed document is an object of typed members or another value, the parser and its error texts are parameters, and `dump` is described by a reply body value rather than printed text.
- JSON numbers are integers in the model; floating-point members and the narrowing of a number to `int` by `get<int>` are not modelled: a number member already stands for the value after that conversion.
- Logging and debug output (`LOG_*`, `DEBUG_*`, the audit log's file writing and CSV export) are left out; they do not affect the state modelled.
- File I/O is left out: config load and save take the file's text as a parameter or return it, `getLogs` takes the log file as a value, and `readRequest`'s Content-Length and stream-buffer handling is not modelled.
- Clocks are parameters: the Date header, the audit time stamps and the `deltaTime` passed to `update`.
- The detached threads that call `exit(0)` after shutdown and restart are modelled as the delay the reply promises; `main.cpp` and the signal handler are not part of this model.
- The player and item files are empty placeholders, and `game_client.h`, `battle_net_client.h`, `game_server.h` and `game_session.h` only declare members; the write queue of `game_client.h` has no implementation to model.
- The tests for the config, the DAOs, the database manager, the logger and the Battle.net server target APIs that are not in the source files modelled.
- The REST handlers `getAllAccounts`, `getAccount`, `deleteAccount`, `getCharacters` and `getServerStatus` are routed to by name, but their bodies are not modelled: `getAllAccounts`, `getAccount` and `getCharacters` read the database and serialise JSON; `getServerStatus` also reads the clock and the configuration; `deleteAccount` checks that the account exists and asks the database to delete it.
- The route patterns are matched by a direct definition of what the regular expression built from them accepts (`{name}` becomes a non-empty run of characters other than '/'); route strings are not checked for other regex metacharacters, and the registered ones contain none.
- The account and character checks use a direct definition of the regular expressions they match against, proved equal to a description of the shape each accepts.
- Header names are compared case-sensitively, as the source does.
- StringUtils.Replace: requires a non-empty `from`; with an empty one the source loop never ends.
- AuditLog.Log.Init: requires `maxEntries >= 1`; with 0 the source erases the first element of an empty vector.
- StringUtils.ToHex (stated by the row StringUtils.ToHexProperties): takes the value after `static_cast<int>`, so it covers only values that fit in a 32-bit `int`.
- Config.Config.SaveToFile: requires that the section and key orders enumerate the map (`Walkable`), since the iteration order of the `std::unordered_map` is a parameter rather than computed.
- Config.Config.constructor: the 21 `setValue` calls of `setDefaults` are stated as the table they store, `Defaults`, rather than executed one by one.
- BattleNetAuth.ParseMessage: treats bytes after the password as a malformed message; the tests do not decide that case.
- GameSession.Session: the add and remove rule (clients stored under a string key, `AddClient` refusing exactly a key already present, `RemoveClient` removing by that key) is this model's reading of `game_session.h`, which declares the methods without defining them.
- AccountController.CreateAccount: `Store.password` is the password handed to `createAccount`, not the salted hash the database keeps (`hashPassword` with a random 16-character salt); the store is the controller's view of the database.
- AccountController.UpdatedAccount: that an empty email or password keeps the stored value, and that passwords are stored as given, are the model's reading of `updateAccount`; the database headers declare no `updateAccount`, `getCharacterCount`, `characterExists` or `setBanStatus` to check it against.
- BattleNetAuth: the decoder and state machine that `auth_tests.cpp` exercises are not among the source files; they are modelled from what the tests assert, against an abstract account store.
- BattleNetServer.Server: follows the code as written (clients keyed by address); the corrected behaviour is proved separately, see Findings.
- RestServer.ProcessRequest: follows the code as written (exact routes compared with the whole URI); the corrected lookup is proved separately, see Findings.

## Findings

| source | as written | input that shows it | evidently intended | confidence | as-written member | corrected member |
|---|---|---|---|---|---|---|
| src/battle_net/src/battle_net_server.cpp:191-220 | clients are counted by address but stored under the address as key, so an address never has more than one entry | `maxAccountsPerIp` 10 and a second connection from an address already registered: it is accepted and replaces the first client in the registry | several connections per address up to the cap, each kept | not executed | BattleNetServer.AcceptReplacesSameIp | BattleNetServer.CorrectedAcceptKeepsCap |
| src/rest_api/src/rest_server.cpp:109-156 | the exact-route lookup compares the whole URI, query string included, and exact routes are not patterns | GET "/api/logs?level=ALL" answers 404 although "/api/logs" is registered and `getLogs` reads that query | route on the path before '?', so the query reaches the handler | not executed | RestServer.QueryDefeatsExactRoute | RestServer.PathLookupIgnoresQuery |
