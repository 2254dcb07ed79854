# SpaceSec Shield: a verified model of the command link

The system carries commands from a ground station to a satellite over UDP. The ground station seals
each command with ChaCha20-Poly1305; the satellite parses what arrives, checks that it is fresh and not
a repetition, verifies its tag, executes it, reports the decision to a dashboard and acknowledges it.
A 32-byte datagram starts a new session: the satellite derives a new key and empties its replay guard.

This project models the link and proves what it keeps over every run, whatever the network drops,
repeats, reorders, cuts or alters.

| file | what it holds |
|---|---|
| `Bitwise.dfy`, `Formatting.dfy`, `Options.dfy` | fixed-width words, C++ bitwise operators and number formatting |
| `Packet.dfy` | the packet and its byte codec |
| `Aead.dfy` | authenticated encryption over arbitrary primitives |
| `ReplayGuard.dfy` | the replay guard, a class over a set of rendered strings |
| `GroundStation.dfy` | sealing commands, and what opening tells about sealing |
| `LinkSpec.dfy` | the satellite as a state machine on values, and runs of it |
| `Satellite.dfy` | the phase 5 satellite as a class, proved against `LinkSpec` |
| `Reports.dfy` | what a verdict makes the satellite do, and counting what was done |
| `History.dfy` | verdicts, effects and guard as functions of the whole history, with no state |
| `Runs.dfy` | at-most-once, redelivery, delivery, framing |
| `Agreement.dfy` | injective agreement with the ground station's seal calls |
| `Reordering.dfy` | verify before execute, erasing rejected traffic, order independence |
| `Phase3.dfy` | the earlier satellite and its relation to the later one |
| `Dashboard.dfy` | the dashboard as a class over a bounded deque, proved against its unbounded log |
| `Json.dfy` | flat JSON objects and a reader for them |
| `Http.dfy` | HTTP request messages and a reader for them |
| `DashboardRoutes.dfy` | what the dashboard takes from the text of a request |
| `DashboardClient.dfy` | how a report is written, and that the dashboard stores the same report |
| `Mission.dfy` | satellite and dashboard together: conservation of decisions, latency |

Conventions. A session key, a nonce and a tag are byte strings of 32, 12 and 16 bytes. The cipher has the
shape of section 2.8 of RFC 8439, with an arbitrary keystream and an arbitrary 16-byte authenticator; key
agreement is an arbitrary function from (satellite private key, ground public key) to a key. Every theorem
holds for all of them. A reception is an arbitrary datagram, or none, with the two clock readings the
satellite takes while handling it; only the first 2048 bytes reach the program. What computational
cryptography would add is never proved: where a property needs it, it is a predicate on the run
(`Agreement.OnlySealedOpens`, `Runs.DistinctEpochKeys`, `Runs.OpensOnlyUnderItsKey`).

Where the code and its documentation differ.

- `README.md:126` and `README.md:290` of the repository say that replayed packets are rejected. The code
  keeps this within a session: because every handshake empties the guard and the satellite's key pair never
  changes, repeating the handshake of a session makes its packets, while still fresh, acceptable again
  (`Runs.RepeatedHandshakeReopens`). `Runs.RedeliveryAcceptedIff` says exactly when a redelivery is accepted,
  `Runs.RedeliveryWindowExact` exactly how far apart two acceptances can lie, `Runs.AcceptancesBound` how
  many there can be, and `Runs.OncePerRun` that distinct keys restore the promise.
- `README.md:289` says that forged packets fail verification. The handshake is unauthenticated, as
  `README.md:300` admits, so whoever sends a 32-byte public key chooses the next session key: a fresh command
  sealed under it is accepted, in every state (`Runs.AnyHandshakeIsTrusted`). The agreement theorems
  therefore carry the hypothesis that what opens was sealed by the ground station.
- `phase5_dashboard/dashboard_client.hpp:20` lists a timestamp among the fields of a report; the code does
  not send one (`DashboardClient.BodyReadBack`), and the dashboard fills in its own clock.

## Model

| member | source | states |
|---|---|---|
| Packet.WriteU32Be | phase3_security_layer/packet.cpp:4-9 | appends the four base-256 digits of a 32-bit value, most significant first |
| Packet.WriteU64Be | phase3_security_layer/packet.cpp:11-15 | the shift loop appends the eight base-256 digits of a 64-bit value |
| Packet.ReadU32Be | phase3_security_layer/packet.cpp:17-22 | the shift-and-or expression is the number whose digits are the four bytes |
| Packet.ReadU64Be | phase3_security_layer/packet.cpp:24-30 | the accumulating loop gives the number whose digits are the eight bytes, with no bits lost to the word width |
| Packet.BuildAad | phase3_security_layer/packet.cpp:32-43 | the associated data is session id, timestamp and nonce, 24 bytes |
| Packet.SerializePacket | phase3_security_layer/packet.cpp:45-52 | byte by byte: bytes 0-3, 4-11 and 12-23 are the big-endian session id, the big-endian timestamp and the nonce, then come ciphertext and tag |
| Packet.DeserializePacket | phase3_security_layer/packet.cpp:54-82 | fails exactly below 40 bytes and then leaves the caller's packet alone; otherwise yields the fields at their offsets |
| Packet.CodecBijection | phase3_security_layer/packet.cpp:45-82 | bytes encode a packet iff parsing them yields it: a bijection between packets and byte strings of at least 40 bytes |
| Packet.EncodeAfterParse | phase3_security_layer/packet.cpp:32-82 | re-encoding a parsed datagram gives it back, and the rebuilt associated data is its first 24 bytes as they arrived |
| Packet.DatagramBinding | phase3_security_layer/packet.cpp:32-82 | different datagrams never reach the cipher with the same associated data, ciphertext and tag |
| Aead.KeystreamMasks | phase3_security_layer/crypto.cpp:33-41 | every byte of the ciphertext xor its plaintext byte is the keystream byte of its position |
| Aead.DecryptIffSealed | phase3_security_layer/crypto.cpp:4-109 | opening yields p exactly when sealing p yields this ciphertext and tag |
| ReplayGuard.NonceKeyRenders | phase3_security_layer/anti_replay.cpp:9-21 | the string reads as the decimal session id without leading zeros, a colon, and the nonce in lower-case hexadecimal, byte for byte |
| ReplayGuard.NonceKeyInjective | phase3_security_layer/anti_replay.cpp:9-21 | the rendered strings of two (session id, nonce) pairs are equal iff the pairs are |
| ReplayGuard.AsManyKeysAsIds | phase3_security_layer/anti_replay.cpp:43-49 | the guard's strings are as many as the pairs they stand for |
| ReplayGuard.AntiReplay.MakeNonceKey | phase3_security_layer/anti_replay.cpp:9-21 | the stream loop renders decimal session id, colon, 24 hexadecimal digits |
| ReplayGuard.AntiReplay.IsFresh | phase3_security_layer/anti_replay.cpp:23-33 | the unsigned difference test holds iff the integer distance is within the window |
| ReplayGuard.AntiReplay.IsDuplicate | phase3_security_layer/anti_replay.cpp:35-41 | looking up the string answers whether this very pair was marked |
| ReplayGuard.AntiReplay.MarkSeen | phase3_security_layer/anti_replay.cpp:43-49 | adds exactly this pair to the set the strings stand for |
| GroundStation.CreateSecureCommandPacket | phase3_security_layer/secure_ground_station.cpp:22-52 | byte by byte: the clear fields at their places, each command byte masked by its keystream byte, and the authenticator of the first 24 bytes and the ciphertext; no bytes if the cipher fails |
| GroundStation.SealedTransmits | phase3_security_layer/secure_ground_station.cpp:22-52 | the same of the datagram every theorem about sealed commands speaks of |
| GroundStation.SealThenOpen | phase3_security_layer/secure_ground_station.cpp:29-51 | sealing, serializing, parsing and opening returns the command and every field of the call |
| GroundStation.DatagramOpensIffSealed | phase3_security_layer/secure_ground_station.cpp:22-52 | a datagram opens to a command iff it is byte for byte what the ground station would create for it |
| GroundStation.ChangedTagNeverOpens | phase3_security_layer/crypto.cpp:92-104 | altering only the last 16 bytes of a datagram that opens makes it fail |
| LinkSpec.ReceivedIsSent | phase5_dashboard/secure_satellite_node.cpp:122-133 | what is handled is the prefix of the payload with the lesser of its length and 2048 bytes |
| LinkSpec.SentDecides | phase5_dashboard/secure_satellite_node.cpp:187-237 | by the payload sent: 32 bytes agree the key derived from exactly them, empty the guard and are answered once; 1 to 39 other bytes give one BAD_FORMAT report of severity MEDIUM and change nothing; anything longer is read as a packet |
| LinkSpec.PacketDecides | phase5_dashboard/secure_satellite_node.cpp:39-92 | the tests on a packet in their order, each with the exact report it leads to |
| Satellite.SatelliteNode.Boot | phase5_dashboard/secure_satellite_node.cpp:126-175 | a run starts iff the first payload has 32 bytes, with the key derived from them, an empty guard and the public key sent |
| Satellite.SatelliteNode.ProcessSecurePacket | phase5_dashboard/secure_satellite_node.cpp:22-93 | result, guard and ordered effects are those the state machine prescribes for the old key and the pairs marked before |
| Satellite.SatelliteNode.Dispatch | phase5_dashboard/secure_satellite_node.cpp:187-237 | empty, handshake or command: the new key, guard and effects are those of one step |
| Satellite.SatelliteNode.Receive | phase5_dashboard/secure_satellite_node.cpp:177-238 | on the running fields, by the payload sent: a fragment adds one BAD_FORMAT report and leaves key and guard alone; 32 bytes become the ground key, with the session key derived from them, an empty string set and one public key sent |
| Satellite.SatelliteNode.Run | phase5_dashboard/secure_satellite_node.cpp:177-238 | after any receptions the ground key is the payload of the last handshake, and session key, guard and effects are those of the state machine run on the whole history |
| History.VerdictFollowsHistory | phase5_dashboard/secure_satellite_node.cpp:32-76 | every verdict of every run equals a function of the history that involves neither state nor earlier verdicts: length, freshness, no earlier arrival of the pair in the epoch authentic and fresh, opening, in that order |
| History.EffectsFollowHistory | phase5_dashboard/secure_satellite_node.cpp:22-93 | everything a run does, in order, is what the verdicts determined by the history call for |
| History.DeliveredIffAccepted | phase5_dashboard/secure_satellite_node.cpp:49-76 | a pair arrived authentic and fresh earlier in the epoch iff a packet with it was accepted earlier in the epoch |
| History.NodeFollowsHistory | phase5_dashboard/secure_satellite_node.cpp:177-238 | a running node's key, the strings in its guard and everything it has done are those its history determines |
| History.NextVerdict | phase5_dashboard/secure_satellite_node.cpp:177-238 | the decision a running node takes next is the one its history determines |
| Runs.AtMostOncePerEpoch | phase5_dashboard/secure_satellite_node.cpp:49-76 | no two packets accepted in one epoch share session id and nonce |
| Runs.RedeliveryBound | phase5_dashboard/secure_satellite_node.cpp:42-54 | two acceptances of the same bytes are separated by a handshake and at most 60000 ms apart on the freshness clock |
| Runs.RedeliveryAcceptedIff | phase5_dashboard/secure_satellite_node.cpp:195-223 | if a datagram opens only under its own key, then once accepted it is accepted again later iff the same key is in force again, it is still fresh, and no packet with its pair has arrived authentic and fresh in the new epoch; then a handshake intervened |
| Runs.RedeliveryWindowExact | phase5_dashboard/secure_satellite_node.cpp:42-54 | around any traffic that holds a handshake, ends under the same key and leaves a pair unused, some sealed datagram with that pair is accepted at clocks t1 and t2 iff these are at most 60000 ms apart |
| Runs.RepeatedHandshakeReopens | phase5_dashboard/secure_satellite_node.cpp:213-219 | for every sealed command, repeating the session's handshake lets the same fresh datagram be accepted twice |
| Runs.AnyHandshakeIsTrusted | phase5_dashboard/secure_satellite_node.cpp:195-223 | in every state, after any handshake a fresh command sealed under the key it leads to is accepted |
| Runs.AcceptancesBound | phase5_dashboard/secure_satellite_node.cpp:195-223 | over a whole run one datagram is accepted at most once per epoch |
| Runs.OncePerRun | phase5_dashboard/secure_satellite_node.cpp:213-219 | if no two epochs share a key and the datagram opens only under its own, it is accepted at most once in the run |
| Runs.Delivery | phase5_dashboard/secure_satellite_node.cpp:56-92 | a sealed command of at most 2008 bytes under the current key is accepted iff fresh and unseen; it then executes, is reported and acknowledged in that order |
| Runs.OversizedDelivery | phase5_dashboard/secure_satellite_node.cpp:122-133 | a longer command, cut by the 2048-byte buffer, is accepted iff in addition bytes of its own ciphertext authenticate the rest |
| Runs.FramingUnambiguous | phase5_dashboard/secure_satellite_node.cpp:195-195 | a created datagram, cut or not, is always a command, and a 32-byte datagram never parses |
| Agreement.EpochAgreement | phase5_dashboard/secure_satellite_node.cpp:30-92 | if only sealed datagrams open, each epoch's executions map one-to-one into seal calls with equal key, command, session id, timestamp and nonce, each within 30000 ms |
| Agreement.RunAgreement | phase5_dashboard/secure_satellite_node.cpp:30-92 | the map is one-to-one over the whole run if no key is agreed twice |
| Agreement.ExecutionsBoundedByCalls | phase5_dashboard/secure_satellite_node.cpp:76-92 | then no more commands are accepted than were sealed |
| Reordering.VerifyBeforeExecute | phase5_dashboard/secure_satellite_node.cpp:69-80 | what a run executes is exactly what it accepted, command for command and in order |
| Reordering.Erasure | phase5_dashboard/secure_satellite_node.cpp:32-76 | deleting any rejected receptions leaves, for every reception that stays, its verdict and its effects, and at the end the key and the guard |
| Reordering.DeliveryOutcome | phase5_dashboard/secure_satellite_node.cpp:49-76 | in every run without a handshake the pairs of the datagrams that arrive authentic and fresh, and only those, are added to the guard, with as many acceptances as there were unseen pairs, whatever else arrives |
| Reordering.OrderIndependence | phase5_dashboard/secure_satellite_node.cpp:49-76 | two such runs in which the same datagrams arrive authentic and fresh, in any order, with any repetition and any other traffic, end in the same state with the same number of acceptances |
| Reordering.EachExactlyOnce | phase5_dashboard/secure_satellite_node.cpp:49-76 | if pairs tell the authentic fresh datagrams of such a run apart, each unseen one is accepted exactly once |
| Phase3.ProcessSecurePacket | phase3_security_layer/secure_satellite_node.cpp:21-68 | verdict and guard are those of the command pipeline |
| Phase3.Run | phase3_security_layer/secure_satellite_node.cpp:146-167 | the lesser of four and the number of receptions, with the verdicts and guard of the earlier machine |
| Phase3.ShortIsMalformed3 | phase3_security_layer/secure_satellite_node.cpp:148-167 | here a 32-byte datagram is malformed like any other below 40 bytes |
| Phase3.LaterExtendsEarlier | phase3_security_layer/secure_satellite_node.cpp:148-167 | the two satellites give the same verdicts iff no datagram has 32 bytes, and then end with the same key and guard |
| Dashboard.Server.IngestEvent | phase5_dashboard/dashboard.py:47-70 | the newest stored event has every posted field unchanged and every missing one filled in, kind with REJECTED; counters and latency sums grow accordingly, the oldest of 500 makes room, and all stay those of the log of all requests |
| Dashboard.CompletedStores | phase5_dashboard/dashboard.py:52-57 | field by field what is stored of a posted object: REJECTED, OK and the clock for a missing kind, reason and timestamp, a legal severity kept, else the one each reason calls for |
| DashboardRoutes.UnreadableIsRejection | phase5_dashboard/dashboard.py:47-70 | a post with an unreadable body is logged as a rejection for reason OK, dated by the dashboard |
| Dashboard.Server.State | phase5_dashboard/dashboard.py:73-95 | the answer is the one computed from every event since the last reset |
| Dashboard.ViewShows | phase5_dashboard/dashboard.py:76-93 | counting positions: DISCONNECTED iff the log is empty, DEGRADED iff among the last ten events some is REJECTED and these are no fewer than the ACCEPTED ones, CONNECTED otherwise; the totals; and the feed is the last thirty events, newest last |
| Dashboard.Server.Reset | phase5_dashboard/dashboard.py:98-106 | no events, all totals zero, and the log starts again empty |
| Dashboard.NearestMean | phase5_dashboard/dashboard.py:87-87 | the displayed average is the only integer nearest to the mean, even on ties |
| Dashboard.SixAcceptancesConnect | phase5_dashboard/dashboard.py:79-85 | k consecutive acceptances force CONNECTED after every history iff k is at least six |
| Dashboard.FiveRejectionsDegrade | phase5_dashboard/dashboard.py:79-85 | k consecutive rejections force DEGRADED after every history iff k is at least five |
| DashboardClient.RenderBody | phase5_dashboard/dashboard_client.cpp:43-52 | the stream output is the JSON object with the report's five members |
| DashboardClient.BodyReadBack | phase5_dashboard/dashboard_client.cpp:43-52 | a JSON reader that looks up the dashboard's keys in a body gets exactly the report, without a timestamp, for all quote-free reports |
| DashboardClient.RequestUnderstood | phase5_dashboard/dashboard_client.cpp:54-63 | a reader of HTTP messages finds POST, /api/event, the host and port, application/json, the true length and the body |
| DashboardClient.RequestStoresReport | phase5_dashboard/dashboard_client.cpp:36-63 | routed by method and path, the text of every request makes the dashboard store exactly the report it was made for |
| Http.MessageReads | phase5_dashboard/dashboard_client.cpp:54-63 | every message written with a correct length is read back field for field |
| DashboardClient.HexSessionReads | phase5_dashboard/dashboard_client.cpp:28-34 | read as a number the four digits are the session id modulo 65536, and their letters are upper-case |
| Formatting.PaddedHexReads | phase5_dashboard/dashboard_client.cpp:28-34 | padded hexadecimal of a value that fits is read back as that value, in the case asked for |
| DashboardClient.HexSessionKeepsLowBits | phase5_dashboard/dashboard_client.cpp:28-34 | two session ids are written alike iff they agree modulo 65536 |
| Json.ObjectReads | phase5_dashboard/dashboard_client.cpp:43-52 | every flat object written without quotes inside its strings is read back member for member |
| DashboardClient.RenderRequest | phase5_dashboard/dashboard_client.cpp:54-63 | the request is five header lines, a blank line and the body |
| DashboardClient.BodyInjective | phase5_dashboard/dashboard_client.cpp:29-52 | quote-free reports have equal bodies iff all fields agree, the session ids modulo 65536 |
| DashboardClient.DeclaredLengthIsBodyLength | phase5_dashboard/dashboard_client.cpp:54-63 | a reader that stops at the first blank line recovers the body, and the declared length (section 6.2 of RFC 9112) is its length |
| Mission.ReportTellsVerdict | phase5_dashboard/secure_satellite_node.cpp:32-84 | every command datagram yields exactly one report: kind, reason and severity of the verdict its history determines, session id and latency of the packet, or zero if none parsed |
| Mission.SeveritiesAgree | phase5_dashboard/dashboard.py:37-57 | the severities the satellite sends are those the dashboard's table would fill in, and its strings need no escaping |
| Mission.Conservation | phase5_dashboard/dashboard.py:59-69 | with no report lost, what the dashboard counts from the request texts, each routed by its own request line: accepted = executions = acknowledgements = sum over epochs of guard sizes, and rejected = the other command datagrams |
| Mission.ObjectsConserve | phase5_dashboard/dashboard.py:59-69 | the same for the running objects: the server's counters equal what the node did, the last epoch's share being the number of strings in its guard |
| Mission.LossyConservation | phase5_dashboard/dashboard.py:59-69 | if reports are lost, neither count exceeds what happened, and together they are the reports that arrived |
| Mission.LatencyExactIff | phase5_dashboard/secure_satellite_node.cpp:40-40 | the signed 64-bit latency is the difference modulo 2^64, and the exact one iff that fits |
| Mission.AcceptedLatency | phase5_dashboard/secure_satellite_node.cpp:40-42 | with ordered clocks below 2^63 - 30000 an accepted packet's signed latency is exact, never overflows and is at most 30000 |
| Mission.DisplayedLatency | phase5_dashboard/dashboard.py:60-87 | in every run fed by the satellite the displayed average is at most 30000 and nearest to the exact mean of the non-negative accepted latencies |

## Left out

- Sockets, addresses in use, timeouts and the non-blocking connect of the dashboard client: a receive yields an arbitrary datagram or nothing, a report arrives or is lost.
- The cipher library: allocation and internal failures while opening a packet are not modelled; while sealing they are the `cipherOk` argument.
- X25519 and HKDF: one function that always yields a 32-byte key. A public key for which the library refuses to derive, which the re-handshake branch does not check, is not modelled.
- Confidentiality, unforgeability and key uniqueness: hypotheses on runs where a property needs them, never conclusions.
- `long` overflow in the latency of a packet that then fails the freshness test: the model wraps around where C++ leaves the result undefined; the latency results speak of accepted packets.
- Console output, except that the phase 3 loop's lines are kept as its log of verdicts.
- JSON and HTTP in general, and how Flask serves them: header names are compared as written, without regard to case rules or repeated fields; only the two POST routes change anything; `Json` reads flat objects of unescaped strings and integers without white space, which covers all the satellite writes; a posted event is an object with optional fields of the expected types.
- Floating point in the average: the mean is an exact fraction rounded half to even.
- The ground station's fixed four-packet script, the phase 2 programs, the tests and the web page: finite scenarios or presentation that add nothing to the general statements.
- The receive loop never ends in the source; a run here is any finite sequence of receptions.
