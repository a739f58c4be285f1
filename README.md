# BitShare core in Dafny

This project models BitShare, a peer-to-peer file sharing tool written in Go. It covers:

- the command line: the tokenizer, the command interpreter and route selection;
- the legacy one-connection file transfer: the header and its round trip, and the receiver's checks;
- chunked transfer: chunk arithmetic, chunk checksums and the transfer record;
- the three transports (TCP with its length-prefixed frames, WiFi Direct, Bluetooth);
- peer discovery with its cache merge;
- the mesh coordinator: mode choice, peer lookup and the connection fallback;
- the updater: version order, asset choice and the settings file;
- the download helpers, the utilities and the terminal UI state.

There is one module per Go file, plus `Common`, which holds shared values: Option/Result, decimal and hex printing, decimal parsing, ASCII case folding, and `Base`/`Join` on slash paths.

Everything outside the program is a parameter of the operation that uses it:

- the file system and the network become outcome flags or byte streams;
- the clock becomes an integer (nanoseconds or Unix seconds);
- `runtime.GOOS`/`GOARCH` and environment variables become strings;
- SHA-256 and JSON field extraction become function parameters;
- Go's unordered map iteration becomes an order the caller picks (a ghost sequence of keys, or `:|` choice).

Objects whose methods update fields in place are classes: the managers, the mesh node, `FileTransferInfo`, the settings file and the terminal UI. Frame reading, chunk checksums, manifest filling, unit selection, directory search, asset search and route selection keep their loops as `while` loops, and each is proved against a function or a predicate.

Three behaviours of the code that are easy to get wrong:

- **Last chunk size.** For a 10,500,000-byte file with 1 MiB chunks, the ceiling division gives 11 chunks, and the last one holds 14,240 bytes (`ChunkedTransfer.WorkedExample`).
- **Error from `ConnectToPeer`.** When every strategy fails, `ConnectToPeer` returns the relay's error when relaying is on, and otherwise the direct error, even when WiFi Direct was tried after it.
- **Receiver status.** The chunked receiver starts from the record that its metadata stub returns, so it never sets the "preparing" status itself; only the sender does.

## Model

| member | source | states |
|---|---|---|
| Cli.ParseCommand | go/main.go:155-194 | the tokenizer loop returns exactly the arguments of the character-by-character scan `Tokenize` |
| Cli.TokenizeHasNoEmptyArgument | go/main.go:155-194 | no argument produced by the tokenizer is empty |
| Cli.TokenizeQuoted | go/main.go:155-194 | a double-quoted text without quote or backslash is one argument, spaces included |
| Cli.TokenizeUnterminatedQuote | go/main.go:155-194 | an unterminated quote still yields the text after it as the last argument |
| Cli.TrailingBackslashDropped | go/main.go:155-194 | a backslash at the very end of the line adds nothing |
| Cli.EscapedCharacterJoinsWords | go/main.go:155-194 | a backslash-escaped character, even a space, is kept literally and joins the words around it |
| Cli.TokenizeUnquotedIsFields | go/main.go:155-194 | on input without quotes or backslashes the tokenizer splits exactly like an independent whitespace field splitter |
| Cli.FindBestRoute | go/main.go:704-723 | the result is a route of the input; it is the first one-hop route when there is one, and otherwise the earliest route of highest quality |
| Cli.Interpret | go/main.go:226-419 | `receive` is accepted exactly with a decimal port in 1..65535, `send` exactly with a target, an integer port (any value) and a path, `update auto` exactly with `--enable`/`--disable`, and an empty line does nothing |
| Cli.ReceiveRoundTrip | go/main.go:246-270 | `receive` with a port in range and a directory yields that port and directory, with "." as the default directory |
| Cli.SendKeepsAnyPort | go/main.go:272-286 | `send` accepts any integer port, including out-of-range ones, because it has no range check |
| Cli.ReceiveFromCommandLine | go/main.go:155-270 | the typed line `receive <port> <dir>` goes through tokenizer and interpreter to a receiver on that port and directory |
| Cli.StripQuotesAsWritten | go/main.go:580-582 | the quote strip as written fails (a slice panic) exactly on the one-character path `"` |
| Cli.LoneQuotePanics | go/main.go:580-582 | the path `"` makes the quote strip as written panic |
| Cli.StripQuotesOfQuoted | go/main.go:580-582 | the corrected strip removes one pair of surrounding quotes |
| Cli.StripQuotesKeepsUnquoted | go/main.go:580-582 | the corrected strip leaves a path that is not quote-wrapped unchanged |
| Cli.StripQuotesAgrees | go/main.go:580-582 | wherever the code as written answers, it answers like the corrected strip |
| Cli.NetworkModeString | go/main.go:506-517 | the mode text is "Unknown" exactly for codes outside 0..2 |
| Cli.ModeStringsDistinct | go/main.go:506-517 | the three modes have three different, known names |
| LegacyTransfer.ParseHeader | go/internal/transfer/transfer.go:129 | reading `"%s\n%d\n"` as `fmt.Fscanf` does (blanks skipped before each field and before each newline, a newline or the end of the input ends a line): an accepted header has a non-empty, whitespace-free name and an int64 size, and leaves a proper suffix of the stream as content |
| LegacyTransfer.HeaderRoundTrip | go/internal/transfer/transfer.go:54-57 | the receiver parses the sender's header back to the same name, size and content |
| LegacyTransfer.HeaderNeedsNoWhitespace | go/internal/transfer/transfer.go:54-57 | a name survives the round trip only if it holds no whitespace |
| LegacyTransfer.NameWithSpaceFails | go/internal/transfer/transfer.go:129 | a file name with a space inside it breaks the header: the name is cut at the space and the newline of the format then meets the rest of the name |
| LegacyTransfer.NameWithTrailingBlankTrimmed | go/internal/transfer/transfer.go:129 | a name ending in a blank is read back without it, with the same size and content |
| LegacyTransfer.HeaderCutAfterSize | go/internal/transfer/transfer.go:129 | a stream that ends right after the size digits still gives a header, with empty content |
| LegacyTransfer.SendFile | go/internal/transfer/transfer.go:18-69 | the send succeeds exactly when the file exists, opens, stats, is at most 10 GiB and every network step succeeds; the wire then carries the header of the base name and size, followed by the content |
| LegacyTransfer.ReceiveFromConnection | go/internal/transfer/transfer.go:125-182 | the receive succeeds exactly when the header parses, the size is in 1..10 GiB, the name is acceptable, the directory and file are created, and the stream holds `size` content bytes; the file then holds exactly those bytes |
| LegacyTransfer.OutputStaysInDestination | go/internal/transfer/transfer.go:140-153 | every created file is the destination directory itself or a single path element below it |
| LegacyTransfer.BaseIdempotent | go/internal/transfer/transfer.go:153 | taking the base name twice changes nothing |
| LegacyTransfer.SendThenReceive | go/internal/transfer/transfer.go:18-182 | what the sender writes, the receiver stores under the base name with the same content, whatever follows on the stream |
| LegacyTransfer.EmptyFileRefused | go/internal/transfer/transfer.go:135-137 | an empty file is sent but refused by the receiver as an invalid size |
| LegacyTransfer.StreamEndingAfterSize | go/internal/transfer/transfer.go:125-178 | a stream that ends right after the size digits gets past the header checks, creates the output file and then fails reading the content, leaving the file empty |
| LegacyTransfer.ShortStreamFails | go/internal/transfer/transfer.go:171-178 | a stream shorter than the announced size fails the content read |
| ChunkedTransfer.DefaultTransferOptions | go/internal/transfer/chunked_transfer.go:52-67 | 1 MiB chunks, 5 in parallel, 3 retries a second apart, compression and checksums on |
| ChunkedTransfer.ChunkCountIsCeiling | go/internal/transfer/chunked_transfer.go:88-90 | the chunk count is the ceiling of size over chunk size, and zero exactly for an empty file |
| ChunkedTransfer.ChunkBounds | go/internal/transfer/chunked_transfer.go:106-115 | every chunk is non-empty and at most a chunk long; all but the last are full, and the last ends at the file's end |
| ChunkedTransfer.ChunkSizesSumToFileSize | go/internal/transfer/chunked_transfer.go:106-115 | the chunk sizes add up to the file size |
| ChunkedTransfer.ChunksTileFile | go/internal/transfer/chunked_transfer.go:106-115 | every byte of the file lies in exactly one chunk |
| ChunkedTransfer.ChunksReassemble | go/internal/transfer/chunked_transfer.go:106-115 | the chunks concatenated in order give back the file |
| ChunkedTransfer.WorkedExample | go/internal/transfer/chunked_transfer.go:88-115 | a 10,500,000-byte file makes 11 chunks, the last of 14,240 bytes |
| ChunkedTransfer.OpenFile.Read | go/internal/transfer/chunked_transfer.go:201-222 | a read returns the next bytes up to the request, reports the end of the file, or fails at a fault |
| ChunkedTransfer.CalculateChunkChecksum | go/internal/transfer/chunked_transfer.go:189-225 | the checksum is the digest of the file's bytes in the range cut at the file's end, or an error when a read in that range fails |
| ChunkedTransfer.FileTransferInfo.Prepare | go/internal/transfer/chunked_transfer.go:93-104 | a new record holds the base name, size, chunk size and chunk count, status "preparing" and an empty manifest of that length |
| ChunkedTransfer.FileTransferInfo.SetStatus | go/internal/transfer/chunked_transfer.go:135-143 | a status change sets the record's status, appends it to the status history (so the status stays the last entry of the history) and leaves the file facts and the error alone |
| ChunkedTransfer.FileTransferInfo.Fail | go/internal/transfer/chunked_transfer.go:136-140 | a failure sets status "failed", appends it to the status history and records the error |
| ChunkedTransfer.FillManifest | go/internal/transfer/chunked_transfer.go:106-130 | the manifest loop succeeds exactly when no read fails, and then the manifest is the list of chunk offsets, sizes and digests |
| ChunkedTransfer.SendFileChunked | go/internal/transfer/chunked_transfer.go:70-145 | open and stat errors stop the send before any record exists; a checksum error stops it while the record still says "preparing", before any metadata is sent; a metadata error leaves "preparing"; otherwise the record moves to "transferring" and then to "completed" or "failed" with the error (each case states the record's final status and its whole status history), and the metadata sent is the manifest above |
| ChunkedTransfer.ReceiveFileChunked | go/internal/transfer/chunked_transfer.go:148-180 | the destination is the directory joined with the metadata's file name; each failing step (metadata, create, truncate) ends the receive with its own error and no status change; once the file is ready the record says "receiving" and then "failed" with the chunk error or "completed"; the record's status is the last entry of its history before and after |
| ChunkedTransfer.SendThenReceiveChunked | go/internal/transfer/chunked_transfer.go:70-180 | a fault-free file sent and received without errors leaves the record "completed" with no error, after the statuses preparing, transferring, completed, receiving, completed |
| TcpTransport.DecodeEncode | go/internal/p2p/tcp.go:436-440 | decoding the big-endian 32-bit length prefix gives back the length |
| TcpTransport.EncodeDecode | go/internal/p2p/tcp.go:436-440 | encoding a decoded prefix gives back the four bytes |
| TcpTransport.PackMessage | go/internal/p2p/tcp.go:436-440 | a frame is the payload behind its 32-bit length, truncated to 32 bits as `uint32` does |
| TcpTransport.PackMessageRoundTrip | go/internal/p2p/tcp.go:436-440 | a packed frame announces the payload's length and carries the payload |
| TcpTransport.FramesOfPackedMessages | go/internal/p2p/tcp.go:312-373 | a stream of packed messages of 1 byte to 100 MiB is read back as exactly those messages |
| TcpTransport.EmptyFrameSkipped | go/internal/p2p/tcp.go:340-348 | a zero-length frame is skipped and reading goes on |
| TcpTransport.OversizedFrameEndsLoop | go/internal/p2p/tcp.go:340-348 | a frame over 100 MiB ends the connection before its payload is read |
| TcpTransport.ShortPayloadEndsLoop | go/internal/p2p/tcp.go:350-353 | a payload cut short ends the connection |
| TcpTransport.FramesAreValid | go/internal/p2p/tcp.go:340-356 | every message handed on holds 1 byte to 100 MiB |
| TcpTransport.ProcessMessageCases | go/internal/p2p/tcp.go:383-405 | a message not starting with `{`, or one whose JSON does not parse, is binary; only the exact type "PING" gets a pong; the types "DATA_TRANSFER" and "MESH_ROUTE" are routed; JSON of any other type is ignored |
| TcpTransport.PongFrameRoundTrip | go/internal/p2p/tcp.go:408-413 | the pong frame decodes to a JSON object of the right length |
| TcpTransport.RepliesBound | go/internal/p2p/tcp.go:356-372 | at most one reply is sent per message |
| TcpTransport.HandleMessage | go/internal/p2p/tcp.go:383-412 | a PING is answered with one PONG frame and a failed write is the only error; every other message gets no answer |
| TcpTransport.FrameStep | go/internal/p2p/tcp.go:327-357 | one turn of the loop skips a zero length, stops at an oversized length or a cut payload, and otherwise hands on the announced payload |
| TcpTransport.ReadLoop | go/internal/p2p/tcp.go:312-373 | the read loop hands on exactly the frames of the stream, ends for the reason the stream gives, and attempts exactly the pongs the messages ask for (a failed pong write does not end the loop) |
| TcpTransport.TcpManager.Start | go/internal/p2p/tcp.go:62-90 | starting twice is refused; a failed listen leaves the manager stopped; a port of 0 keeps the default port |
| TcpTransport.TcpManager.Stop | go/internal/p2p/tcp.go:93-113 | stopping always succeeds, closes the listener and every peer connection, and keeps the peer table's keys |
| TcpTransport.TcpManager.Connect | go/internal/p2p/tcp.go:226-250 | a successful dial adds the peer under "tcp-address-port"; a failed dial changes nothing |
| TcpTransport.TcpManager.SendData | go/internal/p2p/tcp.go:253-264 | an unknown peer is refused; for a known peer the send succeeds exactly when its connection is open and the write succeeds |
| TcpTransport.StopThenSend | go/internal/p2p/tcp.go:93-264 | after `Stop` has closed every connection, a send to a peer still in the table fails with a write error |
| TcpTransport.TcpManager.HandlePeer | go/internal/p2p/tcp.go:312-373 | the peer's frames are processed as by the read loop, and the peer is removed afterwards |
| TcpTransport.TcpManager.HandleConnection | go/internal/p2p/tcp.go:288-310 | an accepted connection is registered under "tcp-" plus the hex clock, served, and removed afterwards |
| WifiDirect.DefaultConfig | go/internal/p2p/wifi_direct.go:44-58 | group owner, service "BitShare", port 9001, at most 10 connections |
| WifiDirect.AcceptedPeerId | go/internal/p2p/wifi_direct.go:224 | accepted peers get an identifier that starts with "wd-" |
| WifiDirect.WifiDirectManager.Start | go/internal/p2p/wifi_direct.go:61-95 | the start succeeds exactly when not running, the support check says yes, the device is group owner and the listen succeeds; a client start fails as not implemented |
| WifiDirect.WifiDirectManager.Stop | go/internal/p2p/wifi_direct.go:98-118 | stopping always succeeds and closes the listener and every peer connection |
| WifiDirect.WifiDirectManager.Discover | go/internal/p2p/wifi_direct.go:121-153 | discovery returns the two fixed simulated devices with signal strengths within 0..100, stamped with the current time |
| WifiDirect.WifiDirectManager.Connect | go/internal/p2p/wifi_direct.go:156-160 | connecting is a placeholder that always succeeds |
| WifiDirect.WifiDirectManager.SendData | go/internal/p2p/wifi_direct.go:163-174 | an unknown peer is refused; for a known peer the send succeeds exactly when its connection is open and the write succeeds |
| WifiDirect.StopThenSend | go/internal/p2p/wifi_direct.go:98-174 | after `Stop` has closed every connection, a send to a peer still in the table fails with a write error |
| WifiDirect.WifiDirectManager.TouchPeer | go/internal/p2p/wifi_direct.go:250-254 | a read from a known peer refreshes its last-seen time and nothing else |
| WifiDirect.WifiDirectManager.HandleConnection | go/internal/p2p/wifi_direct.go:216-262 | an accepted connection is registered, read until it ends, and removed |
| Bluetooth.PeerIdOf | go/internal/p2p/bluetooth.go:147 | a Bluetooth peer's identifier is "bt-" followed by its MAC address |
| Bluetooth.PeerIdInjective | go/internal/p2p/bluetooth.go:147 | different MAC addresses give different peer identifiers |
| Bluetooth.BluetoothManager.Start | go/internal/p2p/bluetooth.go:48-80 | the start succeeds exactly when not running, supported and initialised; each failure has its own error |
| Bluetooth.BluetoothManager.Stop | go/internal/p2p/bluetooth.go:83-102 | stopping always succeeds and keeps the peer table |
| Bluetooth.BluetoothManager.Discover | go/internal/p2p/bluetooth.go:105-136 | discovery needs a running manager and returns the one simulated device |
| Bluetooth.BluetoothManager.Connect | go/internal/p2p/bluetooth.go:139-160 | connecting records the peer under "bt-" plus the MAC address and always succeeds |
| Bluetooth.BluetoothManager.SendData | go/internal/p2p/bluetooth.go:163-179 | only a connected peer can be sent to |
| Bluetooth.ConnectThenSend | go/internal/p2p/bluetooth.go:139-179 | after connecting to an address, sending to its peer identifier succeeds |
| Discovery.DefaultScanOptions | go/internal/p2p/discovery.go:30-39 | a 30-second scan of all three transports including the cache, within distance 100 |
| Discovery.EnabledScanners | go/internal/p2p/discovery.go:55-95 | between 0 and 3 scanners run, none exactly when all are off, all three exactly when all are on |
| Discovery.GatheredLength | go/internal/p2p/discovery.go:96-110 | the gathered list holds exactly the peers the scanners reported |
| Discovery.ScanForPeersWithOptions | go/internal/p2p/discovery.go:47-133 | the scan returns what the scanners reported in arrival order, plus the cache merge when every scanner finished, or a timeout error with the partial results |
| Discovery.MergeCached | go/internal/p2p/discovery.go:113-130 | the merge loop computes the cache merge |
| Discovery.MergeAppendsFreshCachedPeers | go/internal/p2p/discovery.go:113-130 | the merge keeps the live results as a prefix and appends only cached peers with new identifiers, at signal strength 0 |
| Discovery.MergeCoversCache | go/internal/p2p/discovery.go:113-130 | after the merge every cached peer's identifier is present |
| Discovery.MergeKeepsIdsUnique | go/internal/p2p/discovery.go:113-130 | a merge of duplicate-free live results holds no identifier twice |
| Discovery.TimeoutSkipsCache | go/internal/p2p/discovery.go:96-110 | on a timeout the cache is not consulted and the errors so far are reported |
| Discovery.CompletedScanHasNoError | go/internal/p2p/discovery.go:96-130 | a scan whose scanners all answered reports no error |
| MeshCoordinator.ModeCode | go/internal/mesh/coordinator.go:26-33 | the three network modes are numbered 0 to 2 |
| MeshCoordinator.DecideMode | go/internal/mesh/coordinator.go:361-373 | direct mode exactly without client isolation; mixed mode exactly when isolated with WiFi Direct on and relay off; relay mode otherwise |
| MeshCoordinator.ModeTable | go/internal/mesh/coordinator.go:361-373 | the mode for each combination of isolation, relay and WiFi Direct |
| MeshCoordinator.GeneratedNodeId | go/internal/mesh/coordinator.go:225-228 | generated node identifiers start with "node-" and are longer than that prefix |
| MeshCoordinator.EffectiveConfig | go/internal/mesh/coordinator.go:80-88 | a missing node identifier is generated; relaying without servers gets the default servers; nothing else in the configuration changes |
| MeshCoordinator.MeshNode.DetectNetworkConditions | go/internal/mesh/coordinator.go:344-378 | the probe's isolation, NAT type and public address (when known) are recorded with the check time, and the mode follows from isolation and configuration |
| MeshCoordinator.MeshNode.StartMeshNode | go/internal/mesh/coordinator.go:75-142 | starting twice is refused and changes nothing; otherwise the effective configuration and its node identifier are installed, and the connection information is set as `DetectNetworkConditions` sets it: check time, isolation, NAT type, public address (kept when none is found), mode, and relay availability (asked of the first relay server only when relaying is on) |
| MeshCoordinator.MeshNode.StopMeshNode | go/internal/mesh/coordinator.go:145-159 | stopping clears only the running flag |
| MeshCoordinator.MeshNode.GetKnownPeers | go/internal/mesh/coordinator.go:162-176 | a running node lists every known peer exactly once |
| MeshCoordinator.ListPeers | go/internal/mesh/coordinator.go:168-175 | the listing visits every map entry exactly once and holds exactly the directory's peers |
| MeshCoordinator.MeshNode.FindPeerByIdOrName | go/internal/mesh/coordinator.go:179-223 | an exact identifier wins, then a case-insensitive identifier, then an exact name; otherwise a single case-insensitive name match, an ambiguity error for several, and a not-found error for none |
| MeshCoordinator.FindIdIgnoringCase | go/internal/mesh/coordinator.go:192-197 | the identifier found matches the query ignoring case, and none is found only when no identifier matches |
| MeshCoordinator.FindByName | go/internal/mesh/coordinator.go:199-222 | an exact name match is returned at once; otherwise exactly one case-insensitive name match is an answer |
| MeshCoordinator.ScanNames | go/internal/mesh/coordinator.go:200-214 | the scan stops at a peer with the exact name; otherwise it counts exactly the peers whose names fold to the query and keeps one of them |
| MeshCoordinator.MeshNode.ConnectToPeer | go/internal/mesh/coordinator.go:306-340 | after the peer resolves, direct is tried first, WiFi Direct only when isolated with WiFi Direct on, and relay only when relaying is on; the first success wins, and when all fail the error is the relay's if relaying is on, else the direct one |
| Updater.LessIrreflexive | go/internal/updater/updater.go:223-226 | no version is older than itself |
| Updater.LessTransitive | go/internal/updater/updater.go:223-226 | the version order is transitive |
| Updater.LessTotal | go/internal/updater/updater.go:223-226 | of two different versions one is older |
| Updater.IsNewerIsStrictOrder | go/internal/updater/updater.go:223-226 | "is newer" is a strict order |
| Updater.TenIsNotNewerThanNine | go/internal/updater/updater.go:223-226 | versions compare as text, so 1.10.0 counts as older than 1.9.0 |
| Updater.TrimV | go/internal/updater/updater.go:98 | one leading "v" is removed from a release tag, and other tags are kept |
| Updater.DownloadUrlForCases | go/internal/updater/updater.go:228-250 | the address chosen is that of the first asset naming both platform and architecture, else of the first naming the platform, else empty |
| Updater.FullMatchUrlIsFirst | go/internal/updater/updater.go:233-238 | the first loop returns the address of the first asset whose lower-cased name holds both platform and architecture, and nothing when no asset does |
| Updater.PlatformMatchUrlIsFirst | go/internal/updater/updater.go:241-246 | the second loop returns the address of the first asset whose lower-cased name holds the platform, and nothing when no asset does |
| Updater.FindDownloadUrl | go/internal/updater/updater.go:228-250 | the loops return exactly the address `DownloadUrlFor` chooses |
| Updater.SettingsFile.constructor | go/internal/updater/updater.go:56-74 | a missing settings file is created with the defaults when the save succeeds |
| Updater.SettingsFile.CheckForUpdates | go/internal/updater/updater.go:77-115 | unreadable settings fail; a check within 24 hours (unless forced) reports the stored result; otherwise a newer release sets the update flag and version, and stores the address `DownloadUrlFor` chooses for the platform when it is not empty (an empty one keeps the old address); the check time is saved |
| Updater.SettingsFile.InstallUpdate | go/internal/updater/updater.go:118-150 | installing needs readable settings, an available update with an address, and a successful download, each refusal with its own error; the platform installers are placeholders that always succeed (go/internal/updater/updater.go:272-286), so a successful download means success |
| Updater.SettingsFile.EnableAutoUpdate | go/internal/updater/updater.go:153-161 | only the auto-update flag changes, and only when the save succeeds |
| Updater.SettingsFile.ShouldAutoUpdate | go/internal/updater/updater.go:164-171 | the answer is the stored flag, and false when the settings cannot be read |
| Updater.SameVersionIsNoUpdate | go/internal/updater/updater.go:98-99 | the running version, with or without "v", is never an update |
| Updater.EnableThenCheck | go/internal/updater/updater.go:153-171 | after enabling auto-update successfully, the updater reports that it should auto-update |
| Download.GetDownloadInfo | go/internal/updater/download.go:18-40 | the website and repository addresses, and the release download base followed by the platform's asset |
| Download.AssetMatchesPlatform | go/internal/updater/download.go:18-40 | the offered asset names the system, and the architecture where one is built; zips go exactly to Windows and macOS |
| Download.GetDownloadCommand | go/internal/updater/download.go:61-72 | wget when present, else curl, else a pointer to the website |
| Download.DownloadCommandPriority | go/internal/updater/download.go:61-72 | the command starts with wget exactly when wget exists, with curl exactly when only curl exists, and fetches the offered asset |
| Download.SupportsColorsExactly | go/internal/updater/download.go:131-141 | colours are off exactly on Windows with no TERM, no WT_SESSION and no TERM_PROGRAM |
| Utils.FileExistsAsWritten | go/internal/utils/utils.go:51-57 | the code as written panics exactly on a stat error other than absence, and answers true exactly for a non-directory |
| Utils.StatErrorPanics | go/internal/utils/utils.go:51-57 | a stat error other than absence makes the code as written panic |
| Utils.FileExistsAgrees | go/internal/utils/utils.go:51-57 | wherever the code as written answers, it agrees with the corrected test, and a directory is never an existing file |
| Utils.FormatBytes | go/internal/utils/utils.go:60-71 | a count below 1024 is printed in bytes; otherwise the unit is the power of 1024 that brackets the count, at most exa for every int64, with its letter |
| Utils.ExponentUnique | go/internal/utils/utils.go:60-71 | only one unit brackets a given count |
| Utils.PowMonotone | go/internal/utils/utils.go:63-68 | higher units are larger |
| Utils.FindFileInCommonDirs | go/internal/utils/utils.go:74-94 | without a home directory the search fails; otherwise the result is the file in the first of Downloads, Documents, Desktop that holds it, and not-found exactly when none does |
| Utils.CleanHostName | go/internal/utils/utils.go:97-108 | dots and spaces become dashes and every other character stays in place |
| Utils.GenerateNodeName | go/internal/utils/utils.go:97-108 | the node name keeps the length of the host name it was made from |
| Utils.UnknownHostName | go/internal/utils/utils.go:98-101 | when the host name cannot be read, the node name is "unknown-device" |
| Utils.CleanHostNameKeepsClean | go/internal/utils/utils.go:104-105 | a name with no dot and no space is left unchanged |
| Utils.NodeNameIsClean | go/internal/utils/utils.go:97-108 | a node name holds no dot and no space |
| Utils.CleanHostNameIdempotent | go/internal/utils/utils.go:102-103 | cleaning a cleaned name changes nothing |
| Terminal.CenterText | go/internal/ui/terminal.go:273-280 | text at least as wide as the line is unchanged; shorter text is shifted right by half the free room |
| Terminal.CenterTextLayout | go/internal/ui/terminal.go:273-280 | a centred line is blanks followed by the text, fits the width, and is balanced to within one blank |
| Terminal.TruncateString | go/internal/ui/terminal.go:282-287 | a long string keeps its first `maxLen - 3` characters followed by "..." and has length `maxLen` |
| Terminal.TruncateFitsAndIsIdempotent | go/internal/ui/terminal.go:282-287 | truncation always fits, and truncating twice changes nothing more |
| Terminal.TerminalUI.constructor | go/internal/ui/terminal.go:39-50 | the interface starts stopped on the dashboard, at 80 by 24, refreshing every second |
| Terminal.TerminalUI.Start | go/internal/ui/terminal.go:53-74 | starting twice is refused; a start sets the size reported by the terminal (80 by 24) and marks the interface running |
| Terminal.TerminalUI.Stop | go/internal/ui/terminal.go:77-82 | stopping clears the running flag and nothing else |
| Terminal.TerminalUI.Show | go/internal/ui/terminal.go:85-110 | each screen method selects its screen and changes nothing else |
| Terminal.StartStopStart | go/internal/ui/terminal.go:53-82 | a second start fails, and a stopped interface can be started again |
| Common.DecimalRoundTrip | go/internal/transfer/transfer.go:54-57 | every int64 printed in decimal parses back to itself |

## Left out

- Goroutines, mutexes, channels and timers. Each operation runs alone, so every lock is implied. Discovery's scanner arrivals are an event list; running out of events while scanners are still pending stands for the timer firing.
- Real I/O. Sockets, files, directories, `exec` and the HTTP client are outcome flags or byte streams passed in. Printing to the terminal is not modelled.
- UDP peer discovery in the TCP manager (`Discover`, `startDiscoveryService`, go/internal/p2p/tcp.go:116-223,443-489) and `GetAllLocalIPs`: these are network broadcast I/O with no logic beyond it.
- SHA-256 and JSON parsing are opaque functions passed in. Chunk digests are whatever that function returns.
- Strings are sequences of characters, and their length stands for Go's byte length, which is the same for ASCII. Case folding (`strings.EqualFold` in peer lookup, `strings.ToLower` in the asset search at go/internal/updater/updater.go:234 and 242) covers ASCII only.
- `filepath.Join` is modelled as joining with one slash. The clean-up of `..` and double slashes is not modelled; `OutputStaysInDestination` holds because the received name is a single path element.
- The transfer receiver's check that the copied byte count equals the size (go/internal/transfer/transfer.go:176-178) cannot fail after `io.CopyN` returned no error, so it is not a separate branch.
- ChunkedTransfer.SendFileChunked: the int64 overflow of `fileSize + chunkSize - 1` for sizes near 2^63 is not modelled. Sizes are unbounded naturals.
- ChunkedTransfer.SendFileChunked: `requires options.chunkSize > 0` stands for the division-by-zero panic at go/internal/transfer/chunked_transfer.go:90. The only caller passes `DefaultTransferOptions()` (go/cmd/bitshare/main.go:279), whose chunk size is 1 MiB.
- ChunkedTransfer.SendFileChunked: parallel sending, retries and compression are options the code stores but never uses, so they are not modelled. The metadata and chunk exchange stubs are outcome parameters.
- Utils.FindFileInCommonDirs: the search tests each candidate with the corrected `Utils.FileExists` (see Findings). Go's loop at go/internal/utils/utils.go:88 calls the version that panics, so where Go panics on a stat error other than absence, the model treats that candidate as missing and goes on searching.
- Utils.FormatBytes: the `%.1f` rendering of the quotient is not modelled (floating point). The model states the unit chosen and its divisor.
- The transports' placeholder helpers (`initializeService`, `advertiseService`, `scanForDevices`, the support checks, `startAsClient`) and the coordinator's stubs (`connectDirectly`, `connectViaWiFiDirect`, `connectViaRelay`, `detectClientIsolation`, `getPublicIP`, `detectNATType`, `checkRelayConnectivity`) are outcome parameters.
- The coordinator's background loops (`maintainRoutingTable`, `monitorNetworkConditions`, the protocol handlers and relay connections) and the getters `IsNodeRunning`, `GetNodeName`, `GetNodeID`, `GetConnectionInfo`, `GetNetworkMode`, `IsClientIsolated`: these are goroutines or plain field reads.
- The terminal's `refreshLoop`, the `render*` drawing functions and `UpdateTransferProgress`: these only produce output.
- `OpenDownloadPage` and `ShowDownloadInstructions` (go/internal/updater/download.go): they launch a browser or print text.
- In go/main.go: `handleBuiltinCommand`, the printing done by `startReceiver`/`startMeshNode`, the welcome text and the interactive loop are output and terminal control. In the `send` command, resolving a peer name to an address goes through the coordinator (modelled as `FindPeerByIdOrName`) inside a goroutine; the model covers only the argument checks.
- Cli.Interpret: the printed usage and help texts are represented by action values, not by their wording.

## Findings

| source | as written | input that shows it | evidently intended | confidence | as-written member | corrected member |
|---|---|---|---|---|---|---|
| go/main.go:580-582 | a path that starts and ends with `"` has its first and last character removed by slicing `[1:len-1]` | the one-character path `"`: the slice `[1:0]` panics. `startSender` has no caller, though: the `send` command (go/main.go:272-345) repeats its logic without the quote strip, so the command line cannot reach the panic | remove a pair of surrounding quotes only when the path is at least two characters long | not executed | Cli.StripQuotesAsWritten (shown by Cli.LoneQuotePanics) | Cli.StripQuotes (Cli.StripQuotesOfQuoted, Cli.StripQuotesKeepsUnquoted, Cli.StripQuotesAgrees) |
| go/internal/utils/utils.go:51-57 | only a not-exist error is checked before calling `IsDir()` on the stat result | a stat error other than absence, e.g. permission denied on a parent directory: the file information is nil and `IsDir()` panics | treat any stat error as "no such file" | not executed | Utils.FileExistsAsWritten (shown by Utils.StatErrorPanics) | Utils.FileExists (Utils.FileExistsAgrees) |
