# libdali, modelled in Dafny

libdali is the C client library for the DataLink protocol. It grew out of a
SeedLink client library, and that history still shows in its packet layout. This
project models the library's core and proves properties of the model.

The core has five parts:

- **The interface** (`libdali.h`). It defines:
  - the receive buffer size and the time constants;
  - the high-precision time macros;
  - the collect return codes;
  - the connection parameters (`DLCP`) and their persistent state (`DLStat`),
    which includes the 8192-byte receive buffer.
- **Managing a connection** (`connection.c`):
  - `dl_newdlcp` and its defaults;
  - the stream chain (`dl_addstream`, `dl_setuniparams`, `update_stream`);
  - `dl_request_info` and `dl_terminate`;
  - reading a packet header (`dl_sequence`) and classifying its record
    (`dl_packettype`);
  - the two collect routines, `dl_collect` (blocking) and `dl_collect_nb`
    (non-blocking). Both run passes made of control steps, draining complete
    packets from the buffer, compacting the buffer, reading from the socket and
    running the three timers.
- **The network side** (`network.c`):
  - reading the server address and opening the socket (`dl_connect`);
  - the HELLO and CAPABILITIES exchange (`dl_sayhello`);
  - closing the socket (`dl_disconnect`);
  - the checks made on what `recv` returns (`dl_recvdata`, the start of
    `dl_recvheader`).
- **String utilities** (`strutils.c`): `dl_strparse`, `dl_strncpclean` and
  `dl_addtostring`.
- **The C library pieces** these rely on (`cstd.dfy`): `strstr`, `strtoul`,
  C's truncating division and `isspace`.

Each source file has its own module:

| Module | File | Contents |
|---|---|---|
| `CStd` | `cstd.dfy` | The C library pieces |
| `LibDali` | `libdali.dfy` | The header, plus the classes `DlStat` and `Dlcp` |
| `StrUtils` | `strutils.dfy` | The string utilities |
| `Packets` | `packets.dfy` | `dl_sequence`, `dl_packettype` and `update_stream` on values |
| `Network` | `network.dfy` | The network side |
| `Connection` | `connection.dfy` | The stream chain methods and the collect routines |

Code that the library writes as pure computation is modelled as functions, with
lemmas about them. Code that updates a connection in place is modelled as
methods on the `Dlcp` and `DlStat` classes. The receive buffer is an `array`,
moved with `memmove` and filled by `recv`. Every such method is proved to
produce exactly the state that a pure function of the old state (`ConnView`)
describes, and the properties are proved about those functions.

A collect call takes its inputs as parameters: what the network and the clock
return during one pass, and whether `dl_terminate` ran during it, and in
which part (`PassInput`). `dl_collect` is modelled over a finite
sequence of such passes. `dl_collect_nb` is a single pass.

`dl_terminate` is meant to be called from a signal handler while a collect
routine waits (connection.c:309-311). The routines read the flag again after
the `select` or `recv` of the read step (connection.c:324, 676), and
`dl_connect` reads it after its socket wait (network.c:139); every pass reads
it at its start (connection.c:72, 442) and at the trap door (connection.c:263,
635). The model takes such a request as an input of the pass and of the
connection attempt. A request made before the trap door ends the call there,
with the socket open (`StopAtTrapDoor`). A request made during the read's
wait keeps the socket after an interrupted wait
(`InterruptedWaitKeepsSocket`), and the next pass takes the trap door. Either
way the call ends by the next pass (`StopEndsLoop`, `StopEndsCollect`).

Where the code and its comments disagree, the model follows the code:

- `dl_strparse` releases the list when either argument is NULL. Its comment
  says "both".
- An INFO packet that arrives when none is expected is still handed to the
  caller, although the code logs it as being skipped (connection.c:209-212).
  `InfoPacketDelivery` states this.
- A sequence field that starts with a NUL byte reads as sequence number 0
  (`SequenceOfEmptyDigits`). `strtoul` also accepts a `0x` prefix there.
- `dl_recvheader` checks for the bytes "RS", not the "DL" its comment
  describes (`DataLinkSyncRefused`).
- `dl_connect` is defined with one parameter but uses `sayhello`, which the
  header declares as a second parameter. The callers pass it. The model takes
  it as a parameter.
- `dl_recvdata` is defined with three parameters (network.c:541) but declared
  and called with four (libdali.h:168-169, connection.c:320-321). Its body
  passes the undeclared `maxbytes` to `recv` (network.c:550). The model reads
  that as the `maxlen` parameter, which the callers set to
  `BUFSIZE - recptr` (`BytesRead`).
- `dl_disconnect` is declared `void` in the header but returns -1, and callers
  store that value in `link`. The model returns -1.
- The code returns `SLTERMINATE` and `SLNOPACKET` where the header defines
  `DLTERMINATE` and `DLNOPACKET`. The model uses the header's values.
- The code refers to the address both as `sladdr` and as `addr`. The model has
  one field, `addr`.
- With a zero reconnect delay (`netdly == 0`), the delay timer never moves
  again after a reset, so a dropped connection is never reconnected
  (`DelayOpens`).
- A HELLO that fails after the socket connected closes the socket, but
  `dl_connect` has already stored its descriptor in `link`. Later passes then
  treat the closed descriptor as a live one
  (`FailedGreetingKeepsClosedSocket`).

## Model

| member | source | states |
|---|---|---|
| LibDali.Epoch2DlTime | libdali.h:59 | Seconds become ticks that fit the 64-bit `dltime_t` and are a whole number of seconds; converting back gives the seconds again |
| LibDali.DlTime2Epoch | libdali.h:60 | Ticks become whole seconds with C's division: rounded down for a non-negative time, up for a negative one, and within one second of the time either way |
| LibDali.TruncateNonNegative | libdali.h:59-60 | For a non-negative time, ticks to seconds and back loses exactly the sub-second part, `t % DLTMODULUS` |
| LibDali.ErrorTimeIs1902 | libdali.h:52-56 | DLTERROR is the tick count of 1902-01-01 00:00:00, counting the days from 1902 to the epoch (17 leap years) |
| LibDali.CollectCodesDistinct | libdali.h:43-47 | DLPACKET, DLTERMINATE and DLNOPACKET are pairwise distinct |
| LibDali.DlStat.constructor | connection.c:909-923 | A new persistent state: an 8192-byte buffer, both cursors at 0, no INFO expected, timeout and keepalive triggers reset (-1), delay trigger 0 ("connect now"), times 0, state DOWN, no query |
| LibDali.Dlcp.constructor | connection.c:880-923 | `dl_newdlcp`'s defaults: no address, no time window, no streams, resume on, other flags off, keepalive 0, timeout 600 s, delay 30 s, no socket, no INFO, minimum protocol version, and the state above |
| CStd.AsLong | network.c:88 | An `unsigned long` stored in a `long` is its two's-complement reading: negative exactly above INT64_MAX, congruent modulo 2^64 |
| CStd.CDiv | libdali.h:60 | C's division by a positive divisor truncates toward zero: non-negative for a non-negative dividend, non-positive for a non-positive one, 0 when the divisor exceeds the dividend's magnitude |
| CStd.ToLower | network.c:280 | `tolower` in the C locale: capitals map to lower case, everything else is unchanged |
| CStd.FindLeftmost | strutils.c:54 | `strstr` returns an occurrence, no occurrence lies before it, and it returns none only when there is none |
| CStd.Strtoul | connection.c:1168 | The value is within `unsigned long` and the end pointer within the text |
| CStd.StrtoulOfDigits | network.c:88 | On a non-empty run of digits, `strtoul` consumes all of it and returns its value, capped at ULONG_MAX |
| StrUtils.JoinParts | strutils.c:35-105 | Joining the parts that the split makes from index `beg` on gives back the rest of the string |
| StrUtils.JoinSplit | strutils.c:35-105 | Joining the parts with the delimiter gives back the string that was split |
| StrUtils.PartsFree | strutils.c:54-61 | No part holds an occurrence of a non-empty delimiter |
| StrUtils.SplitPartsFree | strutils.c:54-61 | No part of a split holds an occurrence of a non-empty delimiter |
| StrUtils.OccurrencesFind | strutils.c:54-86 | The left-to-right, non-overlapping count of delimiters starts at the occurrence that `strstr` finds |
| StrUtils.PartsCount | strutils.c:50-86 | A split from `beg` has one part more than there are delimiters from `beg` on |
| StrUtils.SplitCount | strutils.c:50-86 | A split has one part more than there are delimiters |
| StrUtils.PartsTrailing | strutils.c:57-86 | Appending a one-character delimiter to the string adds one empty part at the end |
| StrUtils.SplitTrailingDelimiter | strutils.c:57-86 | A trailing delimiter yields a final empty part |
| StrUtils.PartsOfJoin | strutils.c:50-86 | Splitting a join that follows a prefix gives the parts back |
| StrUtils.SplitJoin | strutils.c:50-86 | Splitting a join gives the parts back, when no delimiter starts inside a part and the last part holds none |
| StrUtils.StrParse | strutils.c:35-105 | With either argument NULL: count 0 and no list. Otherwise the list is the split of the string (`Split`), and the count is its length, at least 1 |
| StrUtils.CleanDropsSpaces | strutils.c:121-137 | Cleaning removes every space, keeps every other character with its multiplicity, and never lengthens |
| StrUtils.CleanIdentity | strutils.c:121-137 | A string is left unchanged exactly when it holds no space |
| StrUtils.CleanIdempotent | strutils.c:121-137 | Cleaning twice is cleaning once |
| StrUtils.StrNCpClean | strutils.c:121-137 | The first `length` characters, spaces dropped, are copied to the front of `dest` and NUL-terminated; the count returned is their number; the rest of `dest` is untouched |
| StrUtils.Appended | strutils.c:150-189 | The appended string is `add` alone for NULL, otherwise the old string, the delimiter and `add`; its length plus the NUL is what the bound is checked against |
| StrUtils.AppendedJoin | strutils.c:173-185 | Appending to a joined list gives the join of the longer list |
| StrUtils.AppendAllJoins | strutils.c:150-189 | Appending items one by one to a NULL string builds their join, and leaves NULL only for no items |
| StrUtils.AddToString | strutils.c:150-189 | -1 for a NULL target or addition; -2, with the string unchanged, when the result and its NUL exceed `maxlen`; otherwise 0, and the string becomes `Appended`, shorter than `maxlen` |
| Packets.CStr | connection.c:1166-1167 | What `strncpy` leaves as a C string: the longest NUL-free prefix, ended by a NUL or by the end of the bytes |
| Packets.AsInt | connection.c:1168 | The `unsigned long` stored in the `int` `seqnum`: a 32-bit value that equals the low 32 bits when non-negative |
| Packets.Sequence | connection.c:1155-1174 | -1 without the "SL" signature, 0 for an INFO header, otherwise a value of at most 24 bits or -1 |
| Packets.SequenceNumber | connection.c:1166-1173 | The conversion of the six sequence characters yields -1 or a 24-bit value |
| Packets.DigitsBelow | connection.c:1170 | `n` hexadecimal digits denote a value below 16^n |
| Packets.HexValue | connection.c:1166-1168 | Reading back the `width` hexadecimal digits of a number below 16^width gives the number |
| Packets.SequenceOfDigits | connection.c:1160-1173 | A data header with six hexadecimal digits after "SL" yields their value |
| Packets.SequenceNumberOfDigits | connection.c:1166-1173 | Six hexadecimal digits convert to their value, which always fits 24 bits |
| Packets.SequenceRoundTrip | connection.c:1155-1174 | Writing a 24-bit sequence number in six hexadecimal digits and reading the header gives it back |
| Packets.SequenceOfEmptyDigits | connection.c:1166-1173 | A header whose sequence field starts with NUL reads as 0 |
| Packets.Word | connection.c:1211-1219 | `ntohs` yields a 16-bit unsigned value |
| Packets.Signed16 | connection.c:1212-1213 | The `int16_t` reading of a 16-bit word lies in the signed range and is congruent to the word modulo 2^16 |
| Packets.Marker | connection.c:1229-1234 | Blockette types 200-299, 300-399 and 500-599 give SLDET, SLCAL and SLTIM, and no other type gives a packet type |
| Packets.Unmarked | connection.c:1246-1254 | Without a marker: SLMSG exactly for a zero rate factor with samples, SLBLK exactly for a zero rate factor, no samples and a blockette 2000, otherwise SLDATA |
| Packets.WalkAsWritten | connection.c:1215-1244 | The do/while walk as written; it returns SLNUM only for an offset beyond 128 (or after moving on) |
| Packets.PacketTypeAsWritten | connection.c:1187-1255 | An INFO header is typed by its terminator before any walk |
| Packets.WalkChecked | connection.c:1221-1244 | The corrected walk: SLNUM past offset 128, at a header outside the packet, or back at a blockette already visited; the marker's type at a marker blockette not yet visited; never an INFO type |
| Packets.PacketType | connection.c:1187-1255 | The record is an INFO type exactly when the header is INFO, SLINFT exactly when it is terminated; otherwise SLNUM when the first blockette lies past 128, and the marker's type when the first blockette is a marker (the later blockettes: `ChainDecides`) |
| Packets.ChainDecides | connection.c:1215-1254 | Along the chain from the first blockette, visiting no offset twice, the type is decided at its last blockette: SLNUM past 128, outside the packet, or where the chain leads back onto itself; the marker's type at the first marker; where the next offset is 0, the unmarked type of the rate factor, the sample count and whether the chain holds a blockette 2000 |
| Packets.WalkedChainExists | connection.c:1215-1244 | Every record has such a chain, ending where the walk stops |
| Packets.UnmarkedKinds | connection.c:1246-1254 | On a chain where the walk stops: SLMSG exactly when the chain ends without a marker at a next offset of 0, with a zero rate factor and samples; SLDATA exactly when it so ends with a non-zero rate factor, or with neither samples nor a blockette 2000 |
| Packets.BlockRecordNeeds2000 | connection.c:1235-1252 | SLBLK exactly when the chain ends without a marker at a next offset of 0 and holds a blockette 2000, for a zero rate factor and no samples |
| Packets.CycleNeverReturns | connection.c:1238-1244 | A chain that comes back to its first offset keeps the walk as written going for ever, whatever the fuel |
| Packets.PacketTypeAsWrittenAgrees | connection.c:1187-1255 | For every record and every fuel, a type `dl_packettype` as written returns is the type the corrected one gives |
| Packets.PacketTypeAsWrittenEnds | connection.c:1187-1255 | With enough fuel `dl_packettype` as written returns the corrected type, unless it returns no type whatever its fuel |
| Packets.SelfLinkedWalk | connection.c:1238-1244 | A blockette that names itself as the next one keeps the walk as written going for ever |
| Packets.SelfLinkedNeverTyped | connection.c:1221-1244 | For such a record, `dl_packettype` as written never returns, while the corrected one says SLNUM |
| Packets.SelfLinkedRecord | connection.c:1215-1219 | A record that links its first blockette to itself exists |
| Packets.Stamped | connection.c:806-815 | An updated entry keeps its codes and selectors, and takes the packet's sequence number and record start time |
| Packets.UpdateStreams | connection.c:754-857 | -1 (None) exactly for a packet without a sequence number, an empty chain, or a multi-station chain with no match; the uni-station entry takes every packet; in multi-station mode every matching entry is stamped and the others are kept |
| Network.ParseAddress | network.c:63-95 | The host is non-empty unless the address is; a refused port needs a colon |
| Network.AddressHostColonFree | network.c:72-86 | The host never holds a colon, and an address without a colon is all host with port 16000 |
| Network.PortOfDigits | network.c:88-94 | On plain digits, the port check is exactly the range 1..65535 |
| Network.ParseAddressJoined | network.c:74-95 | `host:port` with a colon-free host and an acceptable port is read back as that host and port (localhost for an empty host) |
| Network.ParseAddressRefused | network.c:63-94 | With an unacceptable port, `host:port` is refused exactly unless it is ":" alone |
| Network.AddressDefaults | network.c:63-87 | ":" is localhost:16000, "host" is host:16000, ":18000" is localhost:18000, "host:18000" is host:18000 |
| Network.AddressRefusedPorts | network.c:88-94 | An empty port and port 70000 are refused |
| Network.LineEnd | network.c:233 | `strcspn` stops at the first carriage return or NUL, or at the end |
| Network.IdLine | network.c:233-237 | The identification is a prefix of what was received, at most 198 characters, without CR or NUL |
| Network.IdLineOfTerminated | network.c:233-237 | A line ended by CR that fits comes back whole |
| Network.IdLineIdempotent | network.c:233-237 | Cutting the line again changes nothing |
| Network.SkipBlanks | network.c:261-262 | Exactly the leading spaces are dropped |
| Network.SplitServerId | network.c:251-263 | Without "::" the identification is the whole line; with it, the identification is a prefix and the flags fit in the rest |
| Network.SplitServerIdJoined | network.c:251-263 | `id::<spaces>flags` with a colon-free id is split back into id and flags |
| Network.SplitServerIdParts | network.c:251-263 | The line is the identification, "::", spaces and the flags, and the identification holds no "::" |
| Network.TokenEnd | network.c:278 | `%s` reads up to the first white-space character |
| Network.FloatText | network.c:278 | The text `%f` accepts is non-empty and holds a digit |
| Network.FloatTextExponentAt | network.c:278 | A decimal number followed by an exponent (`e` or `E`, an optional sign, digits) is read whole, exponent included |
| Network.FloatTextDanglingExponent | network.c:278 | A decimal number followed by an exponent marker without digits is no number: the conversion fails |
| Network.FloatTextOfDecimal | network.c:278 | A decimal number `<digits>.<digits>` followed by neither a digit nor an exponent marker is read whole by `%f` |
| Network.ScanVersion | network.c:277-286 | A recognised version is non-empty text |
| Network.ScanVersionOf | network.c:277-286 | "<DataLink token> v<m>.<f>" gives the version `<m>.<f>` |
| Network.ScanVersionExponent | network.c:277-286 | "DataLink v1e1" gives the version "1e1", exponent included |
| Network.ScanVersionDanglingExponent | network.c:277-286 | "DataLink v1.5e" gives the minimum version |
| Network.ScanVersionForeign | network.c:280-286 | An identifier that is not "DATALINK" (case ignored) gives the minimum version |
| Network.ScanVersionSeedLink | network.c:280-286 | A SeedLink identification gives the minimum version |
| Network.DataLinkIdCases | network.c:280 | The identifier check ignores letter case and needs all eight letters |
| Network.SlprotoVersion | network.c:294-303 | Flags without "SLPROTO" leave the version as it was |
| Network.SlprotoVersionOf | network.c:294-297 | "SLPROTO:<m>.<f>" sets the version to `<m>.<f>` |
| Network.CapsResponse | network.c:349-365 | Acceptance exactly for "OK\r" and at least 4 bytes; refusal needs "ERROR\r" and at least 7 bytes; both carry the extended reply |
| Network.ExtReply | network.c:337-346 | The corrected extended reply fits in the received bytes with its two carriage returns |
| Network.ExtReplyOf | network.c:337-346 | A reply `<status>\r<text>\r...` carries `text` as its extended reply |
| Network.ExtReplyWindowEndAsWritten | network.c:341 | The second `memchr` as written searches up to `bytesread + 2*term1` |
| Network.ExtReplyWindowOverruns | network.c:339-346 | That window runs past the received bytes whenever the first CR is not at offset 0, and past the 100-byte buffer for a full reply |
| Network.ExtReplyWithinReply | network.c:337-346 | The corrected search finds both carriage returns inside the reply, and the text between them holds none |
| Network.Hello | network.c:201-370 | `dl_sayhello` returns 0 or -1 |
| Network.HelloNeedsBothLines | network.c:220-230 | Without both reply lines: -1, version unchanged |
| Network.HelloWithoutFlags | network.c:251-290 | Without capability flags HELLO succeeds, and the version comes from the identification alone |
| Network.HelloIgnoresSite | network.c:226-244 | The site line only has to arrive |
| Network.HelloWithFlags | network.c:251-369 | With flags, the version is scanned from the identification and overridden by SLPROTO, and HELLO succeeds exactly when CAP is absent or the CAPABILITIES reply is an acceptance |
| Network.SayHello | network.c:201-370 | The result and the new protocol version are those of `Hello`; nothing else changes |
| Network.DialServer | network.c:53-138 | The connection is refused exactly for a bad port once sockets are up; a connected socket is the descriptor `socket` gave and passed the readiness check |
| Network.ConnectView | network.c:41-165 | A bad port sets `terminate`, and so does a `dl_terminate` during the call; other failures change nothing else; a connected socket is kept in `link` and returned unless termination was requested by then; a failed HELLO gives -1 but keeps `link`; only `link`, the version and `terminate` change |
| Network.Connect | network.c:41-165 | `dl_connect` on the connection leaves exactly the state and result `ConnectView` describes |
| Network.RefusedPort | network.c:88-94 | An unacceptable port makes the connection refused (setting `terminate`) unless the address is ":" |
| Network.AfterDisconnect | network.c:176-187 | After closing there is no socket, and nothing else changes |
| Network.DisconnectIdempotent | network.c:178-184 | Closing twice is closing once |
| Network.Disconnect | network.c:176-187 | Returns -1, closes a socket exactly when there was one, and leaves the state `AfterDisconnect` describes |
| Network.RecvData | network.c:541-574 | -1 for a missing buffer, a closed peer or an error; 0 exactly for "would block"; otherwise the number of bytes received |
| Network.RecvHeaderStart | network.c:595-620 | A header length exactly for a buffer of at least 255 bytes and three received bytes starting "RS"; the length is the third byte, unsigned |
| Network.HeaderLengthAnyByte | network.c:619-620 | Every third byte value is taken as the header length |
| Network.DataLinkSyncRefused | network.c:611-617 | A packet starting with the "DL" bytes is refused |
| Connection.StampOf | connection.c:1036-1039 | The time stamp of a new entry is empty without one, otherwise its first 20 characters |
| Connection.UniEntry | connection.c:1097-1110 | The entry `dl_setuniparams` makes is the uni-station entry |
| Connection.ChainAdd | connection.c:1001-1050 | Refused exactly in uni-station mode; otherwise the entry is appended and the chain before it is kept |
| Connection.ChainSetUni | connection.c:1078-1114 | Refused exactly when a multi-station entry leads the chain; otherwise the chain is the one uni-station entry |
| Connection.UniModeRefusesAdd | connection.c:1001-1008 | Once in uni-station mode, `dl_addstream` is refused |
| Connection.MultiModeRefusesUni | connection.c:1090-1095 | Once a multi-station entry was added, `dl_setuniparams` is refused |
| Connection.SetUniOverwrites | connection.c:1078-1114 | Setting the uni-station parameters again overwrites the entry |
| Connection.AddStream | connection.c:990-1055 | -1 and no change in uni-station mode; otherwise 0, the entry appended, multistation set |
| Connection.SetUniParams | connection.c:1073-1119 | -1 and no change with multi-station entries; otherwise 0, the chain is the one uni-station entry, multistation cleared |
| Connection.RequestInfo | connection.c:1130-1143 | -1 and no change while a request is pending; otherwise 0 and the request is recorded, where a NULL request leaves none pending |
| Connection.Terminate | connection.c:1264-1269 | Only the termination flag changes, and it is set |
| Connection.UpdateStream | connection.c:754-857 | Returns -1 exactly when `UpdateStreams` refuses, leaving the connection unchanged; otherwise 0, and the chain becomes `UpdateStreams`'s |
| Connection.MarkMatches | connection.c:822-856 | Every matching entry is stamped and every other one kept; the count is 0 exactly when nothing matches |
| Connection.CountdownSteps | connection.c:349-377 | The timeout and keepalive triggers go -1, then 0, then 1 and nowhere else; they fire only after the interval; a zero interval disables them |
| Connection.CountdownFires | connection.c:349-377 | After a reset at `start`, the trigger has fired at `now` exactly when more than the interval has passed |
| Connection.DelayOpens | connection.c:379-392 | After a reset at `start`, the delay opens at `now` exactly when more than the delay has passed; with a zero delay it never opens |
| Connection.TimersAfter | connection.c:346-392 | Only the three timers change; buffer, cursors and address are kept |
| Connection.UpdateTimers | connection.c:346-392 | The timing logic leaves the connection `TimersAfter` describes |
| Connection.TickNetto | connection.c:349-362 | The timeout trigger and its time follow `Countdown`; nothing else changes |
| Connection.TickKeepalive | connection.c:364-377 | The keepalive trigger and its time follow `Countdown`; nothing else changes |
| Connection.TickNetdly | connection.c:379-392 | The delay trigger and its time follow `Delay`; nothing else changes |
| Connection.InfoTaken | connection.c:203-240 | After an INFO packet no query is in progress, and a response is still expected exactly when one was and this packet is not the last |
| Connection.Advanced | connection.c:251 | The send pointer moves one packet on, and the buffer stays well-formed |
| Connection.ConsumeOne | connection.c:198-258 | The send pointer moves past the packet; an INFO packet leaves the chain alone; any other packet is delivered exactly when `update_stream` takes it |
| Connection.InfoPacketDelivery | connection.c:203-240 | An INFO packet is withheld exactly when it answers an expected keepalive; an unexpected one is delivered |
| Connection.Drain | connection.c:198-259 | Packets are taken until one is delivered, which ends just behind the send pointer, or less than a packet is left |
| Connection.TakeInfo | connection.c:203-240 | The INFO handling leaves the state `InfoTaken` describes, and reports delivery as `InfoDelivered` |
| Connection.Advance | connection.c:251 | The send pointer moves as `Advanced` describes |
| Connection.ConsumePacket | connection.c:198-258 | One turn of the packet loop, as `ConsumeOne` describes |
| Connection.ConsumeInfo | connection.c:203-251 | The INFO turn: query state per `InfoTaken`, then the send pointer advances |
| Connection.ConsumeData | connection.c:241-251 | The data turn: the chain per `update_stream`, then the send pointer advances |
| Connection.ProcessBuffer | connection.c:198-259 | The packet loop, as `Drain` describes |
| Connection.Compacted | connection.c:267-276 | After the shift the send pointer is 0, the pending bytes are the same and at the front, and the rest of the buffer is unchanged |
| Connection.CompactedIdempotent | connection.c:268-276 | Shifting an already shifted buffer changes nothing |
| Connection.Compact | connection.c:267-276 | The `memmove` leaves the buffer `Compacted` describes |
| Connection.MoveDown | connection.c:270-272 | `memmove` to the front: the moved bytes first, the rest of the array unchanged |
| Connection.Settle | connection.c:261-293 | Terminating: stop with nothing changed. Otherwise: compacted with the same pending bytes, and stopped, with the socket closed, exactly when the pending bytes are "ERROR\r\n" or "END" |
| Connection.SettleBuffer | connection.c:261-293 | The end-of-pass checks on the connection, as `Settle` describes |
| Connection.CompactPending | connection.c:267-276 | The pending bytes move to the front exactly when some were handed out; nothing else changes |
| Connection.CloseOnReply | connection.c:278-293 | Stops exactly when the pending bytes are the server's "ERROR\r\n" or "END" reply, and then closes the socket; nothing else changes |
| Connection.RoomAfterSettle | connection.c:198-321 | When the packet loop delivered nothing and the pass goes on, the buffer has room to read into |
| Connection.BytesRead | connection.c:320-321 | A read gives a positive count exactly when bytes came and there is room (at most the room), 0 exactly for "would block", otherwise -1 |
| Connection.Filled | connection.c:336-343 | Stored bytes extend the pending ones, bytes outside the new data are kept, and the timeout and keepalive triggers reset |
| Connection.Dropped | connection.c:331-335 | A dropped connection has no socket and a restarted delay; nothing else changes |
| Connection.ReadInto | connection.c:331-343 | What a read does: bytes appended and timers reset, or the connection dropped on failure, or nothing |
| Connection.BlockingRead | connection.c:295-344 | Only a streaming connection reads; a readable socket is read; a failed `select` drops a connection that is not terminating; anything else changes nothing |
| Connection.NonBlockingRead | connection.c:667-689 | Only a streaming connection reads, and a failure drops it unless terminating |
| Connection.ReadKeepsPending | connection.c:320-343 | The pending bytes before a read stay pending, in front |
| Connection.DataResetsTimers | connection.c:336-343 | Arriving data resets the timeout and keepalive triggers and adds pending bytes |
| Connection.Store | connection.c:320-343 | Storing received bytes leaves the state `Filled` describes |
| Connection.Overwrite | connection.c:320-321 | `recv` writes the data at the receive pointer and nothing else |
| Connection.Drop | connection.c:331-335 | Dropping leaves the state `Dropped` describes |
| Connection.Receive | connection.c:320-343 | A read into the buffer, as `ReadInto` describes |
| Connection.ReadBlocking | connection.c:295-344 | The read step of `dl_collect`, as `BlockingRead` describes |
| Connection.ReadNonBlocking | connection.c:667-689 | The read step of `dl_collect_nb`, as `NonBlockingRead` describes |
| Connection.LinkCheck | connection.c:74-77 | A connection without a socket is DOWN; otherwise it is unchanged |
| Connection.TimeoutStep | connection.c:79-88 | When the timeout is due: closed, DOWN, timeout reset and delay restarted; otherwise unchanged; no other field changes |
| Connection.KeepaliveStep | connection.c:90-102 | Changes exactly when a keepalive is due and sent: a keepalive query is then awaited and its timer restarts |
| Connection.InfoStep | connection.c:104-118 | When due, the request is consumed, and awaited exactly when it was sent; otherwise unchanged |
| Connection.ReconnectStep | connection.c:126-136 | When due: `dl_connect` with HELLO, UP exactly on success, all three timers reset; otherwise unchanged |
| Connection.ReconnectedHasSocket | connection.c:127-132 | A connection that came up has a socket |
| Connection.FailedGreetingKeepsClosedSocket | connection.c:127-136 | A failed greeting, with no termination requested, leaves the connection DOWN but `link` holding the closed descriptor |
| Connection.StopDuringReconnect | network.c:123-139 | A `dl_terminate` during the reconnection's socket wait leaves the connection DOWN with its old `link` and the flag set |
| Connection.NegotiationQuery | connection.c:143-165 | With a pending request and no streams, the request is sent and consumed; otherwise the link is configured and no response is expected |
| Connection.NegotiateStep | connection.c:138-179 | For an UP connection: success empties the buffer and starts the stream; failure closes the socket and restarts the delay |
| Connection.StreamStarted | connection.c:167-172 | Streaming on an emptied buffer; nothing else changes |
| Connection.TerminatingStep | connection.c:181-189 | The socket is closed, and the state is DOWN for `dl_collect` but DATA for `dl_collect_nb` |
| Connection.Control | connection.c:72-189 | The control steps keep the address and intervals, preserve the buffer invariant, and reduce to the terminating branch when terminating |
| Connection.TerminateBranches | connection.c:181-189 | The blocking routine leaves a terminating connection closed and DOWN; the non-blocking one leaves it closed and DATA |
| Connection.StreamStartsEmpty | connection.c:126-179 | A pass that starts a stream starts it with a socket on an empty buffer |
| Connection.TimeoutWaitsForDelay | connection.c:79-136 | A timed-out connection is closed and not reconnected in the same pass |
| Connection.CheckLink | connection.c:74-77 | As `LinkCheck` |
| Connection.CheckTimeout | connection.c:79-88 | As `TimeoutStep` |
| Connection.CheckKeepalive | connection.c:90-102 | As `KeepaliveStep` |
| Connection.CheckInfo | connection.c:104-118 | As `InfoStep` |
| Connection.Reconnect | connection.c:126-136 | As `ReconnectStep` |
| Connection.Restart | connection.c:129-135 | The timers reset, and the state becomes UP exactly when the connection succeeded |
| Connection.Negotiate | connection.c:138-179 | As `NegotiateStep` |
| Connection.QueryOrConfigure | connection.c:143-167 | As `NegotiationQuery`, reporting success when the query went or the configuration succeeded |
| Connection.StartStream | connection.c:167-172 | The cursors are cleared and the state becomes DATA |
| Connection.CloseForTermination | connection.c:181-189 | As `TerminatingStep` |
| Connection.ControlSteps | connection.c:72-189 | As `Control` |
| Connection.ReturnCode | libdali.h:43-47 | DLPACKET, DLTERMINATE and DLNOPACKET correspond one to one to delivered, terminated and no packet |
| Connection.InfoMarked | connection.c:50-54 | A pending request marks an INFO query; nothing else changes |
| Connection.TimersReset | connection.c:56-67 | Without a socket, the timeout and keepalive triggers reset; otherwise nothing changes |
| Connection.ReadStep | connection.c:295-344 | Either read step keeps the buffer well-formed, the send pointer and the address; a `dl_terminate` during the wait has set the flag once the wait's result is looked at |
| Connection.InterruptedWaitKeepsSocket | connection.c:305-330 | A failed `select` keeps the socket and sets the flag when termination was requested, and drops the connection otherwise |
| Connection.InterruptedReadKeepsSocket | connection.c:667-680 | A failed `recv` of `dl_collect_nb` keeps the socket when termination was requested, and drops the connection otherwise |
| Connection.Pass | connection.c:70-393 | A pass keeps the buffer well-formed, ends the call only with a packet or with termination and less than a packet left, always ends it when terminating or when termination was requested before the trap door, and leaves the flag set when it was requested during the read's wait |
| Connection.AfterControl | connection.c:197-392 | A termination leaves less than a packet; a delivered packet ends at the send pointer |
| Connection.FinishPass | connection.c:261-392 | The rest of a pass ends the call only by termination, with less than a packet left; a request before the trap door ends it there with the socket and buffer as they are; a request during the wait leaves the flag set |
| Connection.StopAtTrapDoor | connection.c:197-265 | A request after the pass's first look at the flag ends the call at the trap door, once no complete packet is left, with the socket open and the buffer neither compacted nor read into |
| Connection.DeliveredPacketInBuffer | connection.c:250-257 | A delivered packet lies wholly in the buffer, just behind the send pointer |
| Connection.TerminationDrainsBuffer | connection.c:261-265 | DLTERMINATE for a connection whose flag is set when the pass begins comes only with less than a packet left and the socket closed |
| Connection.Loop | connection.c:70-393 | The passes end the call only with a packet or with termination and less than a packet left |
| Connection.LoopPrefix | connection.c:70-393 | Once the first passes end the call, the passes after them make no difference |
| Connection.StopThenNextPass | connection.c:263-330 | A pass during which `dl_terminate` ran ends the call, or the next pass does |
| Connection.StopFirstEndsPasses | connection.c:70-393 | A `dl_terminate` during the first of two or more passes ends the call |
| Connection.StopEndsPasses | connection.c:70-393 | A `dl_terminate` during any pass that has a successor ends the call |
| Connection.StopEndsLoop | connection.c:70-393 | A `dl_terminate` during a pass ends the call by the next pass, with a packet or with termination and less than a packet left |
| Connection.StopEndsCollect | connection.c:37-394 | `dl_collect` with a `dl_terminate` during a pass returns by the next pass, never waits on, and its DLTERMINATE leaves less than a packet unless the parameter check failed |
| Connection.Collect | connection.c:37-394 | A closed connection with rejected parameters gives DLTERMINATE at once; `dl_collect` never returns DLNOPACKET |
| Connection.CollectNonBlocking | connection.c:414-742 | A closed connection with rejected parameters gives DLTERMINATE at once; one pass, always with an outcome |
| Connection.OnePass | connection.c:442-740 | The single pass ends with a packet, termination or DLNOPACKET, and never DLNOPACKET when terminating or when termination was requested before the trap door |
| Connection.StopNeverIdle | connection.c:442-637 | A `dl_terminate` during `dl_collect_nb` before its trap door ends that same call, never with DLNOPACKET |
| Connection.RunPass | connection.c:70-393 | One pass on the connection, as `Pass` |
| Connection.RunAfterControl | connection.c:197-392 | As `AfterControl` |
| Connection.RunFinish | connection.c:261-392 | As `FinishPass`, with both request flags |
| Connection.Prepare | connection.c:50-67 | The once-per-call checks: stop exactly when closed with rejected parameters, after marking the query; otherwise also reset the timers |
| Connection.CollectPackets | connection.c:37-394 | `dl_collect` on the connection, as `Collect` |
| Connection.CollectPacketsNonBlocking | connection.c:414-742 | `dl_collect_nb` on the connection, as `CollectNonBlocking` |

## Left out

- Sockets are not modelled. What `socket`, `connect`, `select`, `recv` and the
  10-second readiness check return is an input (`SocketEnv`, `Poll`,
  `RecvInput`).
- What `dl_send_info`, `dl_configlink` and `dl_checkdlcp` return is an input.
  Those functions are not part of this model.
- The clock (`dl_dtime`) is an input. Times are integer ticks, not the `double`
  seconds of the source.
- The `usleep` throttle of the delay is left out. It only waits.
- Logging is left out, as are `portable.c`, `logging.c`, `statefile.c`,
  `config.c`, `genutils.c` and the example client.
- Floating point is not modelled. A protocol version is the text `%f` reads
  (`Parsed`), not a `float`: "1e1" and "10.0" are two texts for one value.
- Network.FloatText: reads decimal numbers with an optional exponent only.
  `%f` also reads the spellings `inf`, `infinity` and `nan` (any letter case,
  `nan` with an optional parenthesised suffix) and hexadecimal constants such
  as `0x1.8p3`. The model reads none of these, so Network.ScanVersion and
  Network.SlprotoVersion give the minimum or the earlier version where the
  source stores such a value.
- `dl_ping`, `dl_senddata`, `dl_checksock` and `dl_recvresp` are not part of
  this model. Only their results enter `Hello` and `DialServer`.
- `dl_recvheader` is modelled only up to reading the header length (through
  network.c:620). The rest of the function is unfinished code that does not
  compile.
- `dl_freedlcp` is left out. Memory management and `malloc` failures are not
  modelled: allocation always succeeds.
- `dl_doy2md`, the `snprintf` formatting and the byte swap are left out. A
  stream entry keeps the raw SEED start-time bytes of its last record
  (`RecordStart`).
- `GlobMatch` (`dl_globmatch`) is a parameter of the model, not a definition.
- Connection.Collect: `dl_collect` loops until it delivers a packet or stops.
  The model runs a finite sequence of passes and reports `Waiting` when they
  run out.
- Network.Connect, Network.ConnectView, Connection.ReconnectStep,
  Connection.Control, Connection.Pass, Connection.Collect,
  Connection.CollectNonBlocking and the methods built on them (`Reconnect`,
  `ControlSteps`, `RunPass`, `CollectPackets`, `CollectPacketsNonBlocking`):
  the model requires the connection to have an address. `dl_newdlcp` leaves
  it NULL (connection.c:882) until the caller sets it, and the source
  dereferences it unchecked.
- Packets.WalkAsWritten: the C walk reads blockette headers outside the
  packet; the model reports `ReadsOutside` instead of reading them.
- LibDali.DlStat.constructor: the `int8_t` trigger fields are unbounded
  integers. Only -1, 0 and 1 are ever stored (`CountdownSteps`).
- CStd.Strtoul: stated only for bases 10 and 16, the two the library uses.
- LibDali.SLHEADSIZE (8), LibDali.SLRECSIZE (512), LibDali.BUFSIZE (8192),
  LibDali.SIGNATURE ("SL"), LibDali.INFOSIGNATURE ("SLINFO"),
  LibDali.UNINETWORK ("XX"), LibDali.UNISTATION ("UNI") and
  LibDali.MAX_HEADER_SIZE (128): the code uses these names, but the library's
  own files do not define them. The values are those of the SeedLink client
  library (libslink) whose packet layout the code keeps. What depends on them
  holds only for these values: `Connection.RoomAfterSettle` (a packet is
  smaller than the buffer), `Packets.WalkOffsets` (the 128-byte offset limit),
  `Packets.Readable` (the header and record sizes), and `Connection.InfoTaken`
  (the continuation mark in the last header byte, `SLHEADSIZE - 1`).
- Connection.PassInput, Network.SocketEnv: the moment a `dl_terminate` runs
  is modelled only up to where the code next reads the flag. There are four
  windows: before the pass (the flag the pass starts with), before
  `dl_connect` reads it (`SocketEnv.stopRequested`), before the trap door
  (`PassInput.stopBeforeTrapDoor`), and during the read step's wait
  (`PassInput.stopRequested`). A request during the timing logic at the end
  of a pass is the same as one before the next pass.

## Findings

| source | as written | input that shows it | evidently intended | confidence | as-written member | corrected member |
|---|---|---|---|---|---|---|
| network.c:341 | The second `memchr` gets the length `bytesread-(readbuf-term1)-1`. `readbuf-term1` is negative, so the window ends at `bytesread + 2*term1`, past the received bytes. | A 100-byte reply "OK\r..." has its first CR at offset 2. The window then ends at 104, past the 100-byte buffer. | A length of `bytesread-(term1-readbuf)-1`, which keeps the window inside the reply | not executed | Network.ExtReplyWindowOverruns | Network.ExtReplyWithinReply |
| connection.c:1221-1244 | The blockette walk stops only when the next offset is 0, or when an offset exceeds 128. | A record whose blockette at offset 48 names 48 as the next one. The walk then repeats for ever. | A walk that stops at a blockette it has already visited, so that such a record ends as SLNUM | not executed | Packets.SelfLinkedNeverTyped | Packets.WalkChecked |
