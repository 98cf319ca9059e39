# RatProject remote-administration core, modelled in Dafny

RatProject is a remote-administration tool in two parts:

- **The server** (C#) accepts WebSocket commands such as `list_dir C:\`, `download_file …`, `listApps` and `start_cam 10`. It answers with small hand-built JSON envelopes (`{"trang_thai": …, "thong_bao": …}`) or with typed messages (`file_list`, `file_start`/`file_chunk`/`file_end`, `video_start`/`video_batch`/`video_end`).
- **The browser client** (JavaScript) works in two pages:
  - a login page validates `IP:PORT`, tests the server handshake and scans the LAN;
  - a dashboard connects to `ws://IP:8080/`, dispatches every incoming message to listeners registered by type, lists directories and reassembles downloads from base64 chunks, and plays recorded webcam frames.

This project models that core and proves what each part promises. It models:

- the server's file service;
- its command router;
- the older command handler;
- the webcam recorder and batcher;
- the JSON escaping;
- the client's file manager, webcam player, socket wrapper, login validation and dashboard start-up.

The modules follow the source files:

| module | file | models |
|---|---|---|
| `FileService` | `file_service.dfy` | `Services/FileService.cs` and its older copy `FileManager.cs`, which has the same operations and rules and adds `FileExists`; rows below cite the newer copy. Path resolution under the root, metadata and MIME types, the stream and byte guards, sorted and paged listings, the chunked download producer. |
| `Router` | `router.dfy` | `Core/Router.cs`. The split into verb and argument, the verb table, the synchronous answers, the background producers and the error envelopes. |
| `WebSocketServer` | `websocket_server.dfy` | `WebSocketServer.cs`. `HandleCommand`, the process and application lists built with a string builder, and the unescaped `JsonSuccess`/`JsonError`. |
| `WebcamService` | `webcam_service.dfy` | `Services/WebcamService.cs`. The recording loop over a camera given as input, and the start/batches/end transmission. |
| `JsonResponse` | `json_response.dfy` | `Models/JsonResponse.cs`. The three replacements, a JSON string reader (`Unescape`) that follows section 7 of RFC 8259 in refusing raw control characters, the three envelopes, and the corrected escaping that also writes `\u00hh` for control characters. |
| `Helper` | `helper.dfy` | `Utils/Helper.cs`. |
| `FileManagerClient` | `filemanager.dfy` | `features/filemanager.js`. Path normalisation, parent paths, the download map, and the file_end checks and windowed decoding. The `FileManagerManager` class holds the handlers. |
| `WebcamClient` | `webcam.dfy` | `features/webcam.js`. The player state machine as functions, and the `WebcamManager` class whose methods follow them. |
| `SocketClient` | `websocket.dfy` | `core/websocket.js`. The listener registry and the `WebSocketManager` class. |
| `Login` | `login.dfy` | `login.js`. `validateAddress`, `handleConnect`, the handshake test and the LAN scan. |
| `Dashboard` | `main_app.dfy` | `source/…/main.js`. The server IP from the query string, `isValidIP` and the socket URL. |

Shared modules:

- `Text`: ASCII trimming, case mapping, replacement, decimal digits and `int.TryParse`.
- `Base64`: section 4 of RFC 4648, which both `Convert.ToBase64String` and `atob` follow.
- `Ipv4`: the dotted-quad pattern shared by both pages, and JavaScript's `split`/`join`.
- `Ordering`: directories before files, then by name.
- `Protocol`: the typed messages and envelopes on the wire.
- `Wrappers`: `Option` and `Result`.

The surroundings become inputs:

- **File system**: a `Host` record of directories, files and path canonicalisation.
- **Stream reads**: the number of bytes each read returns, `grant`.
- **Camera**: whether it opens, how many loop checks pass before the timeout, and what each read gives.
- **Process table**: a sequence of records.
- **Server behaviour seen by a probed address**: `answers`.
- **Socket events and parsed JSON**: given directly.

A sender callback becomes the returned list of messages.

## Model

| member | source | states |
|---|---|---|
| FileService.NewService | ServerApp/WebSocketTest/Services/FileService.cs:47-53 | A service exists exactly when the root is not blank and its full path is an existing directory; it keeps that full path and the stream limit |
| FileService.Combine | ServerApp/WebSocketTest/Services/FileService.cs:58 | Path.Combine of root and a relative path starts with the root and ends with the path |
| FileService.ResolveAndValidatePath | ServerApp/WebSocketTest/Services/FileService.cs:55-62 | Blank path ⇔ ArgumentException("path"); a resolved path starts with the root ignoring case and is the full path of the (rooted or combined) input; any other failure is UnauthorizedAccess |
| FileService.ResolvedUnderRoot | ServerApp/WebSocketTest/Services/FileService.cs:57-61 | A non-blank path whose full path lies under the root is always accepted |
| FileService.FileExists | ServerApp/WebSocketTest/FileManager.cs:70-74 | Succeeds exactly when the path resolves, and is then true exactly when the resolved path is a file |
| FileService.Extension | ServerApp/WebSocketTest/Services/FileService.cs:189 | FileInfo.Extension is empty or a dot followed by at least one character, and is a suffix of the path |
| FileService.TrimDots | ServerApp/WebSocketTest/Services/FileService.cs:207 | TrimStart('.') yields a suffix of the input that does not start with a dot |
| FileService.GetMimeType | ServerApp/WebSocketTest/Services/FileService.cs:204-206 | An empty extension gives application/octet-stream |
| FileService.MimeIgnoresCase | ServerApp/WebSocketTest/Services/FileService.cs:207-227 | The MIME type of an extension does not depend on its letter case |
| FileService.MimeIgnoresLeadingDot | ServerApp/WebSocketTest/Services/FileService.cs:207 | A leading dot does not change the MIME type |
| FileService.TrimDotsUpper | ServerApp/WebSocketTest/Services/FileService.cs:207 | Trimming leading dots commutes with upper-casing |
| FileService.JpegAliases | ServerApp/WebSocketTest/Services/FileService.cs:215-226 | "jpg" and ".JPEG" both map to image/jpeg; an unknown extension (exe) maps to application/octet-stream |
| FileService.GetFileMetadata | ServerApp/WebSocketTest/Services/FileService.cs:184-192 | Succeeds exactly when the path resolves to an existing file; the metadata is the file's length and the MIME type of its extension |
| FileService.GetFileStream | ServerApp/WebSocketTest/Services/FileService.cs:164-173 | A stream opens only on a resolved existing file no longer than the limit; TooLarge is reported exactly for a resolved existing file over the limit |
| FileService.StreamGuards | ServerApp/WebSocketTest/FileManager.cs:193-206 | A resolved path that is not a file gives FileNotFound(full); a file over the limit gives TooLarge |
| FileService.GetFileBytes | ServerApp/WebSocketTest/Services/FileService.cs:175-182 | Fails with the path error exactly when resolution fails; otherwise null exactly when the resolved file is missing or longer than maxBytes, and else the file's whole content |
| FileService.BytesAgreeWithStream | ServerApp/WebSocketTest/Services/FileService.cs:164-182 | With the stream limit as maxBytes, the bytes are returned exactly when the stream opens, and are that file's content; null exactly where the stream throws FileNotFound or TooLarge; the same path error otherwise |
| FileService.DirEntries | ServerApp/WebSocketTest/Services/FileService.cs:132-136 | One directory entry per enumerated directory, in order, with size 0 |
| FileService.FileEntries | ServerApp/WebSocketTest/Services/FileService.cs:138-142 | One file entry per enumerated file, in order, with the file's length |
| FileService.CollectEntries | ServerApp/WebSocketTest/Services/FileService.cs:113-143 | The two enumeration loops produce directories then files, one entry per item |
| FileService.ListDirectoryEntries | ServerApp/WebSocketTest/Services/FileService.cs:107-148 | The listing method returns the resolved, checked, collected and sorted entries (ListingOf) |
| FileService.ListingOrder | ServerApp/WebSocketTest/Services/FileService.cs:109-147 | A missing directory gives DirectoryNotFound(full); otherwise the listing is a permutation of the directory's entries with every directory before every file |
| FileService.ListDirectory | ServerApp/WebSocketTest/Services/FileService.cs:64-78 | The file_list message carries the requested path and the sorted listing; listing errors propagate unchanged |
| FileService.Page | ServerApp/WebSocketTest/Services/FileService.cs:159 | Skip(offset).Take(limit): min(limit, what remains after offset) items, negatives counted as zero, each the entry at offset+k; total is the full count |
| FileService.PageWindow | ServerApp/WebSocketTest/Services/FileService.cs:159 | Two consecutive pages together are the page of their combined size |
| FileService.EnumerateDirectoryPaged | ServerApp/WebSocketTest/Services/FileService.cs:150-162 | Fails exactly when the listing fails, with its error; otherwise the page is Page of the ordered listing: exactly the entries from offset on, at most limit of them, with offset, limit and the total |
| FileService.PageIsSubMultiset | ServerApp/WebSocketTest/Services/FileService.cs:159 | A page never holds an entry more often than the listing |
| FileService.ReadSize | ServerApp/WebSocketTest/Services/FileService.cs:94 | A read returns 0 only at the end of the file, and never more than the 64 KiB buffer or the bytes left |
| FileService.ChunkMessages | ServerApp/WebSocketTest/Services/FileService.cs:96-98 | One file_chunk per read |
| FileService.SendChunks | ServerApp/WebSocketTest/Services/FileService.cs:89-101 | The read loop sends file_chunk k with the base64 of the k-th read, and counts the reads |
| FileService.DownloadFile | ServerApp/WebSocketTest/Services/FileService.cs:80-105 | The producer method sends exactly the messages of the download specification and reports the same failure |
| FileService.ReadsConcat | ServerApp/WebSocketTest/Services/FileService.cs:94-101 | The reads, joined, are the file's content from the start position |
| FileService.ReadsBounded | ServerApp/WebSocketTest/Services/FileService.cs:89-94 | Every read holds between 1 and 65536 bytes |
| FileService.FullReadsCount | ServerApp/WebSocketTest/Services/FileService.cs:89-94 | When every read fills the buffer, there are ceil(n/65536) reads and all but the last are full |
| FileService.ChunkMessagesDecode | ServerApp/WebSocketTest/Services/FileService.cs:96 | Decoding the chunks one by one and joining the bytes gives back the file |
| FileService.CompletedDownloadShape | ServerApp/WebSocketTest/Services/FileService.cs:85-104 | A completed download is file_start with size and type, then chunks numbered from 0, each the base64 of 1..65536 bytes, then file_end with the chunk count; the chunks decode to the file |
| FileService.DownloadCompletes | ServerApp/WebSocketTest/Services/FileService.cs:80-105 | When the stream opens, the download sends exactly the completed-download messages and no failure |
| FileService.EmptyFileDownload | ServerApp/WebSocketTest/Services/FileService.cs:94-104 | An empty file gives file_start with size 0 then file_end with 0 chunks |
| FileService.DownloadFailures | ServerApp/WebSocketTest/Services/FileService.cs:82-88 | A metadata error sends nothing; without a sender nothing is sent; a file over the limit fails after file_start only; a failure after sending something is always TooLarge |
| FileService.ExtensionScan | ServerApp/WebSocketTest/Services/FileService.cs:189 | The extension found by the backward scan is empty or a dot and at least one character at the end of the path |
| FileService.Entries | ServerApp/WebSocketTest/Services/FileService.cs:132-142 | The listing holds one entry per directory and per file |
| FileService.JpgType | ServerApp/WebSocketTest/Services/FileService.cs:215 | jpg maps to image/jpeg |
| FileService.JpegType | ServerApp/WebSocketTest/Services/FileService.cs:207-216 | .JPEG maps to image/jpeg |
| FileService.ExeType | ServerApp/WebSocketTest/Services/FileService.cs:226 | An extension outside the table maps to application/octet-stream |
| FileService.DecodeEachEncoded | ServerApp/WebSocketTest/Services/FileService.cs:96 | Decoding each chunk's base64 and joining gives the joined chunks |
| Router.FirstSpace | ServerApp/WebSocketTest/Core/Router.cs:30 | The first space of the message, or none |
| Router.SplitCommand | ServerApp/WebSocketTest/Core/Router.cs:30-32 | The verb is the trimmed text before the first space and the argument the trimmed rest; without a space the argument is empty; the verb holds no space |
| Router.SplitJoin | ServerApp/WebSocketTest/Core/Router.cs:30-32 | A verb without white space and a trimmed argument joined by a space split back into themselves |
| Router.ParseVerb | ServerApp/WebSocketTest/Core/Router.cs:36-143 | A recognised verb is exactly its case label |
| Router.ParseVerbName | ServerApp/WebSocketTest/Core/Router.cs:36-143 | Every case label is recognised as its own verb |
| Router.Sync | ServerApp/WebSocketTest/Core/Router.cs:146-149 | A synchronous verb makes its one call; an exception becomes the error envelope "Lỗi Server: " + message |
| Router.Launch | ServerApp/WebSocketTest/Core/Router.cs:54-81 | A launched producer is acknowledged with an info envelope |
| Router.Handle | ServerApp/WebSocketTest/Core/Router.cs:36-149 | Exactly list_dir, download_file and start_cam with a valid duration launch a producer; a call that throws is answered with the server-error envelope |
| Router.Dispatch | ServerApp/WebSocketTest/Core/Router.cs:28-150 | An unknown verb echoes the message; a known verb is handled with the split argument |
| Router.PingPong | ServerApp/WebSocketTest/Core/Router.cs:138-139 | PING answers PONG whatever the argument |
| Router.KillNeedsNumber | ServerApp/WebSocketTest/Core/Router.cs:49-51 | killProcess answers "PID phải là số" exactly when the argument is not a 32-bit integer, and otherwise kills that pid |
| Router.StartCamValidation | ServerApp/WebSocketTest/Core/Router.cs:107-130 | start_cam launches the camera task exactly for a whole duration from 5 to 300, and otherwise answers the duration error |
| Router.ProducersAcknowledge | ServerApp/WebSocketTest/Core/Router.cs:54-81 | list_dir and download_file always launch their producer with the argument as path |
| Router.HandlerErrorsBecomeReplies | ServerApp/WebSocketTest/Core/Router.cs:146-149 | The reply to a throwing call is the error envelope of "Lỗi Server: " + the exception message, read back as that error exactly when the message has no control character but the line feed |
| Router.SafeLogsOneLine | ServerApp/WebSocketTest/Core/Router.cs:94 | The escaped key log holds no carriage return and no line feed |
| Router.KeylogDataIsOneLine | ServerApp/WebSocketTest/Core/Router.cs:94-96 | The keylog_data message is a single line |
| Router.RunProducer | ServerApp/WebSocketTest/Core/Router.cs:54-81 | Each background task sends its result, then an error envelope in place of a rethrow |
| Router.DownloadFailureReported | ServerApp/WebSocketTest/Core/Router.cs:70-80 | A failed download ends with "Download error: …" and never sends file_end; a metadata failure sends only that error |
| Router.ListDirMissing | ServerApp/WebSocketTest/Core/Router.cs:55-66 | Listing a missing directory sends "List error: " + the full path |
| Router.TrimSubstring | ServerApp/WebSocketTest/Core/Router.cs:31-32 | Trimming adds no character |
| Router.TrimOfTrimmed | ServerApp/WebSocketTest/Core/Router.cs:31-32 | Trimming trimmed text changes nothing |
| Router.ReplaceRemoves | ServerApp/WebSocketTest/Core/Router.cs:94 | Replacing a character by text without it removes it |
| Router.ReplaceKeepsOut | ServerApp/WebSocketTest/Core/Router.cs:94 | Replacing never introduces a character absent from both the text and the replacement |
| Router.KeylogFrameOneLine | ServerApp/WebSocketTest/Core/Router.cs:96 | The keylog_data frame around the log holds no line break |
| WebSocketServer.JsonSuccess | ServerApp/WebSocketTest/WebSocketServer.cs:216-219 | The success head, the message as it is, and the closing quote and brace |
| WebSocketServer.JsonError | ServerApp/WebSocketTest/WebSocketServer.cs:221-224 | The error head, the message as it is, and the closing quote and brace |
| WebSocketServer.PlainMessagesAgree | ServerApp/WebSocketTest/WebSocketServer.cs:216-224 | For messages without backslash, quote or line feed, the unescaped helpers equal JsonResponse.Success/Error |
| WebSocketServer.QuoteBreaksJsonError | ServerApp/WebSocketTest/WebSocketServer.cs:221-224 | A message holding a quote makes JsonError unreadable, while JsonResponse.Error reads back |
| WebSocketServer.ErrorReadOnlyAsError | ServerApp/WebSocketTest/WebSocketServer.cs:221-224 | An error reply is never read as success or info |
| WebSocketServer.StripExe | ServerApp/WebSocketTest/WebSocketServer.cs:196 | A trailing ".exe" is removed once; other names are kept |
| WebSocketServer.StripExeOnce | ServerApp/WebSocketTest/WebSocketServer.cs:196 | Stripping name + ".exe" gives the name back |
| WebSocketServer.StopProcess | ServerApp/WebSocketTest/WebSocketServer.cs:193-206 | A failing lookup gives the caught server error; otherwise no process of the stripped name ⇔ the not-found error, and else all of them are killed and the reply counts them |
| WebSocketServer.StartProcess | ServerApp/WebSocketTest/WebSocketServer.cs:209-213 | A successful start answers "Đã khởi động: " + path and starts it; a failing start answers the caught server error with the exception message and does nothing |
| WebSocketServer.NoStrayComma | ServerApp/WebSocketTest/WebSocketServer.cs:180-188 | A list of objects joined with commas is a bracketed array with no leading or trailing comma |
| WebSocketServer.ProcessEntry | ServerApp/WebSocketTest/WebSocketServer.cs:185 | Each process entry is a braced object |
| WebSocketServer.ProcessEntries | ServerApp/WebSocketTest/WebSocketServer.cs:182-187 | One entry per process, in order |
| WebSocketServer.GetProcessList | ServerApp/WebSocketTest/WebSocketServer.cs:176-190 | A throwing enumeration or property read gives its message; otherwise the builder loop produces the JSON array of all process entries, comma-separated |
| WebSocketServer.EffectiveTitle | ServerApp/WebSocketTest/WebSocketServer.cs:143-155 | A titled process keeps its title; an untitled one gets a title exactly when its name is explorer in any case |
| WebSocketServer.Shown | ServerApp/WebSocketTest/WebSocketServer.cs:159 | Only processes with an effective title are listed |
| WebSocketServer.ShownIff | ServerApp/WebSocketTest/WebSocketServer.cs:141-171 | A process is listed exactly when it is running and has an effective title |
| WebSocketServer.AppEntries | ServerApp/WebSocketTest/WebSocketServer.cs:159-170 | One entry per listed process, in order |
| WebSocketServer.ListsWellFormed | ServerApp/WebSocketTest/WebSocketServer.cs:134-190 | Both lists are bracketed arrays without stray commas |
| WebSocketServer.ListedIff | ServerApp/WebSocketTest/WebSocketServer.cs:148-159 | A single process is listed exactly when titled or named explorer, which then shows "Windows Explorer (Shell/Folder)" |
| WebSocketServer.ShownTitle | ServerApp/WebSocketTest/WebSocketServer.cs:143-155 | The title computation in the loop is the effective title |
| WebSocketServer.GetApplicationList | ServerApp/WebSocketTest/WebSocketServer.cs:134-174 | A throwing enumeration or property read gives its message; otherwise the builder loop with its isFirst flag produces the JSON array of the listed processes' entries |
| WebSocketServer.UnescapeSafeTitle | ServerApp/WebSocketTest/WebSocketServer.cs:164-166 | The escaped title reads back to the title exactly when the title has no control character |
| WebSocketServer.SafeTitleIsEscape | ServerApp/WebSocketTest/WebSocketServer.cs:164-166 | For a title without line feed, the two replacements equal the JsonResponse escape |
| WebSocketServer.HandleCommand | ServerApp/WebSocketTest/WebSocketServer.cs:98-131 | listProcesses and listApps answer their arrays, or the caught server error when a process call throws; stopApp/startApp with an argument are StopProcess/StartProcess, without one their errors; PING answers PONG; other verbs echo the command; only stopApp and startApp with an argument act |
| WebSocketServer.ListFault | ServerApp/WebSocketTest/WebSocketServer.cs:127-130 | A walk over the process table meets no exception exactly when the enumeration does not throw and no listed process's property read throws |
| WebSocketServer.Caught | ServerApp/WebSocketTest/WebSocketServer.cs:127-130 | The catch-all answers the error reply "Lỗi Server: " + the message and takes no action |
| WebSocketServer.ListReply | ServerApp/WebSocketTest/WebSocketServer.cs:127-130 | A list verb answers the caught error when the walk throws, otherwise the array, and takes no action |
| WebSocketServer.HeadLetters | ServerApp/WebSocketTest/WebSocketServer.cs:221-224 | The error, success and info heads differ in their status word |
| WebSocketServer.JoinCommaSnoc | ServerApp/WebSocketTest/WebSocketServer.cs:180-188 | Adding an entry appends a comma and the entry, or the entry alone when the list was empty |
| WebSocketServer.JoinCommaEnds | ServerApp/WebSocketTest/WebSocketServer.cs:180-188 | Objects joined with commas start with '{' and end with '}' |
| WebSocketServer.AppEntryText | ServerApp/WebSocketTest/WebSocketServer.cs:168 | An application entry is a braced object |
| WebSocketServer.AppEntriesAreObjects | ServerApp/WebSocketTest/WebSocketServer.cs:159-170 | Every application entry is a braced object |
| WebSocketServer.AppEntriesOne | ServerApp/WebSocketTest/WebSocketServer.cs:159-170 | A single process gives its entry exactly when it is listed |
| WebSocketServer.AppEntriesAppend | ServerApp/WebSocketTest/WebSocketServer.cs:159-170 | The entries of two process lists are the entries of each, in order |
| WebSocketServer.ShownAppend | ServerApp/WebSocketTest/WebSocketServer.cs:159 | Filtering works piecewise over the process list |
| WebSocketServer.EntriesOfParts | ServerApp/WebSocketTest/WebSocketServer.cs:159-170 | Entries built pointwise over two parts join to the entries of the whole |
| WebSocketServer.SafeTitleChar | ServerApp/WebSocketTest/WebSocketServer.cs:164-166 | The two replacements applied to one character give its title escape |
| WebSocketServer.SafeTitleIsSpec | ServerApp/WebSocketTest/WebSocketServer.cs:164-166 | The two chained replacements equal character-by-character title escaping |
| WebSocketServer.UnescapeTitleSpec | ServerApp/WebSocketTest/WebSocketServer.cs:164-166 | Title escaping reads back to the title exactly when it has no control character |
| WebcamService.Limit | ServerApp/WebSocketTest/Services/WebcamService.cs:58-64 | The loop runs at most 150 iterations and stops at the timeout, whichever comes first |
| WebcamService.Recording | ServerApp/WebSocketTest/Services/WebcamService.cs:41-96 | A recording holds 1 to 150 frames, and none when the camera does not open |
| WebcamService.RecordFrames | ServerApp/WebSocketTest/Services/WebcamService.cs:41-96 | The recording loop returns exactly the recording of the camera |
| WebcamService.SteadyCameraFills | ServerApp/WebSocketTest/Services/WebcamService.cs:64-81 | A camera whose every read encodes keeps one frame per iteration |
| WebcamService.BatchAt | ServerApp/WebSocketTest/Services/WebcamService.cs:28-30 | A batch holds 1 to 30 frames, the frames from its start with their indices |
| WebcamService.CaptureAndSend | ServerApp/WebSocketTest/Services/WebcamService.cs:11-38 | The method sends exactly the transmission of the recording |
| WebcamService.BatchesShape | ServerApp/WebSocketTest/Services/WebcamService.cs:26-34 | Batch k starts at frame 30k; there are ceil((n-start)/30) batches |
| WebcamService.BatchesCarryEveryFrame | ServerApp/WebSocketTest/Services/WebcamService.cs:26-34 | The batches together carry every frame once, in order, with its index |
| WebcamService.Recorded | ServerApp/WebSocketTest/Services/WebcamService.cs:20-37 | A recording is sent as video_start with the count, ceil(n/30) batches of 1 to 30 frames, and video_end; the batches carry all frames numbered from 0 |
| WebcamService.NothingRecorded | ServerApp/WebSocketTest/Services/WebcamService.cs:14-18 | No frames: a single error envelope and no video_start |
| WebcamService.FailedCameraSendsError | ServerApp/WebSocketTest/Services/WebcamService.cs:13-17 | A camera that does not open, or whose first read is blank, sends only the no-frames error |
| WebcamService.Kept | ServerApp/WebSocketTest/Services/WebcamService.cs:64-81 | The frames kept from iteration i on number at most the iterations left |
| WebcamService.Numbered | ServerApp/WebSocketTest/Services/WebcamService.cs:30 | Frames numbered from a start: each keeps its text and gets its position |
| WebcamService.Bracketed | ServerApp/WebSocketTest/Services/WebcamService.cs:21-37 | video_start, the batches and video_end: batches sit between, each 1 to 30 frames, and carry the frames |
| WebcamService.ShiftedBatch | ServerApp/WebSocketTest/Services/WebcamService.cs:26-30 | The k-th batch after the first starts 30k frames on |
| WebcamService.FramesOfAppend | ServerApp/WebSocketTest/Services/WebcamService.cs:26-34 | The frames carried by two runs of messages are those of each, in order |
| JsonResponse.EscapeChar | ServerApp/WebSocketTest/Models/JsonResponse.cs:11-14 | Each character becomes one or two characters, two exactly for backslash, quote and line feed, never a raw line feed |
| JsonResponse.ReplaceChainIsEscapeSpec | ServerApp/WebSocketTest/Models/JsonResponse.cs:13 | The three chained replacements equal character-by-character escaping |
| JsonResponse.Escape | ServerApp/WebSocketTest/Models/JsonResponse.cs:11-14 | null escapes to the empty string; otherwise character-by-character escaping |
| JsonResponse.UnescapeEscape | ServerApp/WebSocketTest/Models/JsonResponse.cs:13 | Unescaping the escaped text recovers the original exactly when it has no control character but the line feed, and fails otherwise |
| JsonResponse.EscapeUnescape | ServerApp/WebSocketTest/Models/JsonResponse.cs:13 | Every text the reader accepts whose reading has no control character but the line feed is the escape of that reading |
| JsonResponse.NoNewlineInEscape | ServerApp/WebSocketTest/Models/JsonResponse.cs:13 | The escaped text holds no raw line feed |
| JsonResponse.EscapeSpecIdentity | ServerApp/WebSocketTest/Models/JsonResponse.cs:13 | Text without special characters is unchanged |
| JsonResponse.EscapeSpecLength | ServerApp/WebSocketTest/Models/JsonResponse.cs:13 | The output grows by one per special character |
| JsonResponse.EnvelopesParse | ServerApp/WebSocketTest/Models/JsonResponse.cs:7-9 | Success, Error and Info read back with their own status word and the message intact exactly when the message has no control character but the line feed; otherwise they are unreadable |
| JsonResponse.ParseReplyOf | ServerApp/WebSocketTest/Models/JsonResponse.cs:7-9 | A reply is never read as another status, and is read as its own exactly for a printable message |
| JsonResponse.ReplaceChainChar | ServerApp/WebSocketTest/Models/JsonResponse.cs:13 | The three replacements applied to one character give its escape |
| JsonResponse.ReplaceChainAppend | ServerApp/WebSocketTest/Models/JsonResponse.cs:13 | The replacements work piecewise over concatenation |
| JsonResponse.UnescapeEscapeSpec | ServerApp/WebSocketTest/Models/JsonResponse.cs:13 | Character-by-character escaping reads back to the original exactly when it has no control character but the line feed |
| JsonResponse.ParseReplyAsOf | ServerApp/WebSocketTest/Models/JsonResponse.cs:7-9 | An envelope reads back under its own status as its message exactly for a printable message |
| JsonResponse.HexDigit | ServerApp/WebSocketTest/Models/JsonResponse.cs:11-14 | The lower-case hexadecimal digit of a value below 16, which reads back as that value |
| JsonResponse.UnicodeEscape | ServerApp/WebSocketTest/Models/JsonResponse.cs:11-14 | A control character's `\u00hh` escape: six characters starting `\u00` |
| JsonResponse.UnicodeEscaped | ServerApp/WebSocketTest/Models/JsonResponse.cs:11-14 | A `\u00hh` escape the reader accepts stands for a control character other than the line feed |
| JsonResponse.ReadsAsOwn | ServerApp/WebSocketTest/Models/JsonResponse.cs:7-9 | A head, a text and the tail read under that head's status as whatever the text unescapes to |
| JsonResponse.OtherHeadsMiss | ServerApp/WebSocketTest/Models/JsonResponse.cs:7-9 | A text starting with one status's head is never read under another status |
| JsonResponse.ReadsOwnStatusOnly | ServerApp/WebSocketTest/Models/JsonResponse.cs:7-9 | The reader that tries each status reads such a text under its own status only |
| JsonResponse.ReadsAs | ServerApp/WebSocketTest/Models/JsonResponse.cs:7-9 | An envelope built on any text reads back as its status and that text's reading, or not at all |
| JsonResponse.EscapeCharStrict | ServerApp/WebSocketTest/Models/JsonResponse.cs:11-14 | The corrected escape of a character holds no control character |
| JsonResponse.UnicodeEscapeRead | ServerApp/WebSocketTest/Models/JsonResponse.cs:11-14 | A control character's `\u00hh` escape reads back as that character |
| JsonResponse.UnescapeEscapeStrict | ServerApp/WebSocketTest/Models/JsonResponse.cs:11-14 | The corrected escaping reads back to the original for every text |
| JsonResponse.EscapeStrictUnescape | ServerApp/WebSocketTest/Models/JsonResponse.cs:11-14 | Every text the reader accepts is the corrected escape of its reading |
| JsonResponse.StrictEnvelopesParse | ServerApp/WebSocketTest/Models/JsonResponse.cs:7-14 | Every corrected envelope reads back with its status and message, whatever the message holds |
| JsonResponse.ControlBreaksReply | ServerApp/WebSocketTest/Models/JsonResponse.cs:8 | The error envelope of "a\r\nb" is unreadable, while its corrected envelope reads back |
| Helper.EscapeJson | ServerApp/WebSocketTest/Utils/Helper.cs:7-10 | null gives the empty string; otherwise character-by-character escaping |
| Helper.EscapeJsonIsEscape | ServerApp/WebSocketTest/Utils/Helper.cs:7-10 | Helper.EscapeJson and JsonResponse's escape agree on every input |
| Helper.EscapeJsonIdentity | ServerApp/WebSocketTest/Utils/Helper.cs:9 | Text without backslash, quote or line feed is unchanged |
| Helper.EscapeJsonLength | ServerApp/WebSocketTest/Utils/Helper.cs:9 | The output grows by one per special character |
| Helper.EscapeJsonRoundTrip | ServerApp/WebSocketTest/Utils/Helper.cs:9 | The escaped text reads back to the original exactly when it has no control character but the line feed |
| Protocol.WireEnvelope | ServerApp/WebSocketTest/Models/JsonResponse.cs:7-9 | An envelope on the wire reads back as its status and message exactly when the message has no control character but the line feed |
| Ordering.SortEntries | ServerApp/WebSocketTest/Services/FileService.cs:145 | The ordered listing is a permutation of the entries, sorted directories first then by name |
| Ordering.InsertSorted | ServerApp/WebSocketTest/Services/FileService.cs:145 | Inserting into a sorted listing keeps it sorted |
| Ordering.DirectoriesFirst | ServerApp/WebSocketTest/Services/FileService.cs:145 | In a sorted listing every directory precedes every file |
| Ordering.GroupInNameOrder | ServerApp/WebSocketTest/Services/FileService.cs:145 | Within each kind, names ascend |
| Ordering.SplitKinds | ClientApp/static/js/features/filemanager.js:106-107 | The folders and the files together are the items |
| Ordering.DisplayOrder | ClientApp/static/js/features/filemanager.js:105-109 | The items shown are a permutation of the received items, folders first, each group by name |
| Ordering.PrecedesTotal | ServerApp/WebSocketTest/Services/FileService.cs:145 | Any two entries are ordered one way or the other |
| Ordering.PrecedesTransitive | ServerApp/WebSocketTest/Services/FileService.cs:145 | The entry order is transitive |
| Ordering.Insert | ServerApp/WebSocketTest/Services/FileService.cs:145 | Insertion adds exactly the one entry |
| Ordering.Directories | ClientApp/static/js/features/filemanager.js:106 | The folders of the listing, drawn from it |
| Ordering.Files | ClientApp/static/js/features/filemanager.js:107 | The files of the listing, drawn from it |
| Ordering.SortedSameKind | ClientApp/static/js/features/filemanager.js:106-107 | Sorting entries of one kind keeps them of that kind |
| Text.TrimStart | ServerApp/WebSocketTest/Core/Router.cs:31-32 | The result is a suffix of the input, the dropped prefix is white space, and it does not start with white space |
| Text.TrimEnd | ServerApp/WebSocketTest/Core/Router.cs:31-32 | The result is a prefix of the input, the dropped suffix is white space, and it does not end with white space |
| Text.ToUpper | ClientApp/static/js/features/filemanager.js:160 | Character-wise upper case of the same length |
| Text.ToLower | ServerApp/WebSocketTest/Services/FileService.cs:207 | Character-wise lower case of the same length |
| Text.ParseInt32 | ServerApp/WebSocketTest/Core/Router.cs:49-51 | int.TryParse yields a value within 32-bit range |
| Text.ParseIntToString | ServerApp/WebSocketTest/Core/Router.cs:49-51 | Every 32-bit integer written in decimal parses back to itself |
| Text.NatToStringValue | ClientApp/static/js/login.js:142 | A number written in decimal reads back as itself |
| Text.UpperChar | ClientApp/static/js/features/filemanager.js:160 | The result is not lower case, and only lower-case letters change |
| Text.LowerChar | ServerApp/WebSocketTest/Services/FileService.cs:207 | The result is not upper case, and only upper-case letters change |
| Text.ReplaceChar | ServerApp/WebSocketTest/Core/Router.cs:94 | Text without the character is unchanged |
| Text.ReplaceCharAppend | ServerApp/WebSocketTest/Core/Router.cs:94 | Replacement works piecewise over concatenation |
| Text.NatToString | ClientApp/static/js/login.js:142 | A non-empty string of digits |
| Text.ParsePositive | ServerApp/WebSocketTest/Core/Router.cs:49-51 | Digits worth at most 2147483647 parse to their value |
| Text.ParseNegative | ServerApp/WebSocketTest/Core/Router.cs:49-51 | A minus sign and digits worth at most 2147483648 parse to the negative value |
| Base64.DecodeEncode | ServerApp/WebSocketTest/Services/FileService.cs:96 | Decoding the base64 of any bytes gives them back |
| Base64.EncodeLength | ServerApp/WebSocketTest/Services/FileService.cs:96 | The base64 of n bytes has 4·ceil(n/3) characters |
| Base64.EncodeShape | ServerApp/WebSocketTest/Services/FileService.cs:96 | The base64 text is alphabet characters followed only by its padding |
| Base64.DecodeAppend | ClientApp/static/js/features/filemanager.js:294-314 | Decoding splits at any whole group of alphabet characters |
| Base64.IndexToChar | ServerApp/WebSocketTest/Services/FileService.cs:96 | Every 6-bit value maps to an alphabet character |
| Base64.CharToIndex | ClientApp/static/js/features/filemanager.js:304 | Every alphabet character maps to a 6-bit value that maps back to it |
| Base64.CharIndexRoundTrip | ServerApp/WebSocketTest/Services/FileService.cs:96 | The alphabet is a bijection: value to character to value is the identity |
| Base64.DecodeGroup | ClientApp/static/js/features/filemanager.js:304 | A group of four alphabet characters decodes to three bytes |
| Base64.DecodeLastGroup | ClientApp/static/js/features/filemanager.js:304 | A final group with padding decodes to one to three bytes, or fails |
| Base64.GroupRoundTrip | ServerApp/WebSocketTest/Services/FileService.cs:96 | Three bytes encode to four alphabet characters that decode back to them |
| Base64.EncodeAppend | ServerApp/WebSocketTest/Services/FileService.cs:96 | Encoding splits at any multiple of three bytes |
| Base64.EncodeShaped | ServerApp/WebSocketTest/Services/FileService.cs:96 | The base64 text ends in exactly the padding its length calls for |
| Base64.EncodeStartsWithAlphabet | ServerApp/WebSocketTest/Services/FileService.cs:96 | The base64 of non-empty bytes starts with an alphabet character |
| FileManagerClient.Backslashed | ClientApp/static/js/features/filemanager.js:158 | Every slash becomes a backslash, nothing else changes |
| FileManagerClient.Collapse | ClientApp/static/js/features/filemanager.js:159 | Runs of backslashes become one; the first character and the other characters are kept |
| FileManagerClient.NormalizePath | ClientApp/static/js/features/filemanager.js:154-161 | The empty path gives the empty key; a key holds no slash, no lower-case letter and no double backslash |
| FileManagerClient.NormalizeIdempotent | ClientApp/static/js/features/filemanager.js:154-161 | Normalising twice is normalising once |
| FileManagerClient.NormalizeForgetsSpelling | ClientApp/static/js/features/filemanager.js:154-161 | Paths differing only in letter case or in slash direction share one key |
| FileManagerClient.Segments | ClientApp/static/js/features/filemanager.js:132 | split('\\').filter(p => p): the non-empty pieces, none holding a backslash |
| FileManagerClient.SegmentsTerminated | ClientApp/static/js/features/filemanager.js:135 | Joining segments with backslashes plus a trailing one splits back into them |
| FileManagerClient.ParentDropsLastSegment | ClientApp/static/js/features/filemanager.js:130-138 | Going back is possible exactly with two or more segments; the parent has the segments minus the last and ends with a backslash |
| FileManagerClient.ValidBase64Iff | ClientApp/static/js/features/filemanager.js:267-273 | isValidBase64 ⇔ non-empty, alphabet characters, then at most two '=' at the very end |
| FileManagerClient.EncodingIsValid | ClientApp/static/js/features/filemanager.js:267-273 | The base64 of any non-empty byte string passes isValidBase64 |
| FileManagerClient.EncodingIsChunkText | ClientApp/static/js/features/filemanager.js:205 | Every server chunk passes the per-chunk character check |
| FileManagerClient.Put | ClientApp/static/js/features/filemanager.js:211 | Storing at an index grows the array to that index with holes and changes only that slot |
| FileManagerClient.Missing | ClientApp/static/js/features/filemanager.js:230-236 | The missing indices are ascending and each names an empty slot |
| FileManagerClient.MissingComplete | ClientApp/static/js/features/filemanager.js:230-236 | Every empty slot is reported missing |
| FileManagerClient.NoGapsReceivesAll | ClientApp/static/js/features/filemanager.js:230-236 | With nothing missing, every slot's text is collected in order |
| FileManagerClient.Padded | ClientApp/static/js/features/filemanager.js:298-301 | Padding appends fewer than four '=' to reach a multiple of four |
| FileManagerClient.WindowAt | ClientApp/static/js/features/filemanager.js:295 | substring(i, i + 1 MiB) is a full window or the remainder |
| FileManagerClient.ScanChunks | ClientApp/static/js/features/filemanager.js:227-236 | The loop collects exactly the received texts and the missing indices |
| FileManagerClient.PadToQuad | ClientApp/static/js/features/filemanager.js:298-301 | The padding loop yields the padded text |
| FileManagerClient.DecodeWindows | ClientApp/static/js/features/filemanager.js:294-314 | The window loop decodes each padded window, failing as soon as one fails |
| FileManagerClient.SetAt | ClientApp/static/js/features/filemanager.js:321 | Uint8Array.set writes the source at the offset and leaves the rest of the array unchanged |
| FileManagerClient.MergeParts | ClientApp/static/js/features/filemanager.js:317-323 | The merged array is the parts, one after the other |
| FileManagerClient.DownloadFileFromChunks | ClientApp/static/js/features/filemanager.js:275-346 | Decoding joins the chunks and decodes whole or in windows, as DecodeDownload |
| FileManagerClient.WindowsAgree | ClientApp/static/js/features/filemanager.js:291-325 | Window-by-window decoding of a well-formed text equals decoding it whole |
| FileManagerClient.DecodeDownloadWhole | ClientApp/static/js/features/filemanager.js:287-336 | For a text of whole groups, the two decoding paths agree |
| FileManagerClient.DecodeDownloadEncoding | ClientApp/static/js/features/filemanager.js:275-336 | The base64 of any non-empty bytes decodes back to them |
| FileManagerClient.FileManagerManager.constructor | ClientApp/static/js/features/filemanager.js:2-10 | Starts at C:\ with no downloads and nothing sent |
| FileManagerClient.FileManagerManager.ListDirectory | ClientApp/static/js/features/filemanager.js:70-73 | Sends "list_dir " + path and changes nothing else |
| FileManagerClient.FileManagerManager.OpenPath | ClientApp/static/js/features/filemanager.js:53-64 | An input that trims to empty does nothing; otherwise the trimmed path becomes current and is listed |
| FileManagerClient.FileManagerManager.RefreshCurrentPath | ClientApp/static/js/features/filemanager.js:66-68 | Lists the current path again |
| FileManagerClient.FileManagerManager.OnFileListReceived | ClientApp/static/js/features/filemanager.js:75-128 | The listed path becomes current; the back entry shows exactly off a drive root; items are shown folders first, each group by name |
| FileManagerClient.FileManagerManager.GoBack | ClientApp/static/js/features/filemanager.js:130-138 | Lists the parent when there is one, and otherwise sends nothing |
| FileManagerClient.FileManagerManager.DownloadFile | ClientApp/static/js/features/filemanager.js:140-152 | Registers an empty entry under the normalised path and sends "download_file " + path |
| FileManagerClient.FileManagerManager.OnFileDownloadStart | ClientApp/static/js/features/filemanager.js:163-179 | Records size and type only for a registered download |
| FileManagerClient.FileManagerManager.OnFileChunkReceived | ClientApp/static/js/features/filemanager.js:181-212 | Stores a clean chunk at its index only for a registered download |
| FileManagerClient.FileManagerManager.OnFileDownloadEnd | ClientApp/static/js/features/filemanager.js:214-264 | Unknown, gapped, empty or invalid downloads stay; otherwise the text is decoded and the entry removed |
| FileManagerClient.EndIgnoresTotal | ClientApp/static/js/features/filemanager.js:214-216 | file_end's chunk count plays no part |
| FileManagerClient.StoredAppends | ClientApp/static/js/features/filemanager.js:211 | A chunk at the next index appends to the entry's chunks |
| FileManagerClient.ChunksArrive | ClientApp/static/js/features/filemanager.js:163-212 | file_start then chunks 0..k-1 leave the entry filled with size, type and those k texts |
| FileManagerClient.DeliverRun | ClientApp/static/js/features/filemanager.js:163-264 | A whole download run ends in the file_end step on the filled entry |
| FileManagerClient.EndedWhole | ClientApp/static/js/features/filemanager.js:226-264 | With every chunk present, the download is saved exactly when the joined text passes isValidBase64 |
| FileManagerClient.SingleChunkRoundTrip | ClientApp/static/js/features/filemanager.js:163-264 | A download of one chunk is saved with exactly the file's bytes and leaves the map |
| FileManagerClient.FullReadOneChunk | ServerApp/WebSocketTest/Services/FileService.cs:89-101 | A non-empty file up to 64 KiB read in full is one chunk |
| FileManagerClient.EmptyFileStaysPending | ClientApp/static/js/features/filemanager.js:248-251 | An empty file reports no chunks, and its entry stays in the map |
| FileManagerClient.PaddingInsideIsInvalid | ClientApp/static/js/features/filemanager.js:271 | A '=' followed by an alphabet character fails isValidBase64 |
| FileManagerClient.MultiChunkRejected | ClientApp/static/js/features/filemanager.js:254-260 | A file over 64 KiB read in full is rejected as invalid base64 and stays in the map |
| FileManagerClient.FirstTwoChunks | ClientApp/static/js/features/filemanager.js:254-255 | The joined text of such a download has padding inside it |
| FileManagerClient.PerChunkRoundTrip | ClientApp/static/js/features/filemanager.js:214-264 | Corrected end step: every non-empty download is saved with exactly the file's bytes, whatever the read sizes |
| FileManagerClient.PerChunkDecodes | ClientApp/static/js/features/filemanager.js:254-262 | Decoding the received chunks one by one gives back the file |
| FileManagerClient.AlphabetPrefix | ClientApp/static/js/features/filemanager.js:271 | The longest prefix of alphabet characters: the next character, if any, is not one |
| FileManagerClient.CollapseKeeps | ClientApp/static/js/features/filemanager.js:159 | A path without a double backslash is left alone |
| FileManagerClient.CollapseUpper | ClientApp/static/js/features/filemanager.js:159-160 | Collapsing and upper-casing commute |
| FileManagerClient.WordLength | ClientApp/static/js/features/filemanager.js:132 | The first piece before a backslash: no backslash in it, a backslash or the end after it |
| FileManagerClient.Received | ClientApp/static/js/features/filemanager.js:228-235 | At most one collected text per slot |
| FileManagerClient.AllArrived | ClientApp/static/js/features/filemanager.js:227-236 | When every chunk arrived non-empty, nothing is missing and every text is collected |
| FileManagerClient.Slots | ClientApp/static/js/features/filemanager.js:211 | Chunks stored at indices 0..k-1 fill every slot, in order |
| FileManagerClient.Encodings | ServerApp/WebSocketTest/Services/FileService.cs:96 | Each read is sent as its base64 |
| FileManagerClient.EncodingsNonEmpty | ServerApp/WebSocketTest/Services/FileService.cs:94-96 | No chunk the server sends is empty |
| FileManagerClient.ChunkMessagesCarry | ServerApp/WebSocketTest/Services/FileService.cs:96-98 | Chunk k carries the index k, the path and a text that passes the chunk check |
| FileManagerClient.BeforeEnd | ClientApp/static/js/features/filemanager.js:163-212 | A whole download up to file_end leaves the registered entry filled with the size, the type and every chunk text |
| FileManagerClient.OneChunkIsFile | ServerApp/WebSocketTest/Services/FileService.cs:94-101 | A download sent as one chunk carries the whole non-empty file |
| FileManagerClient.EncodingEndsPadded | ServerApp/WebSocketTest/Services/FileService.cs:96 | The base64 of a full 65536-byte read ends in '=' |
| FileManagerClient.JoinedPaddingInside | ClientApp/static/js/features/filemanager.js:254-255 | Joining a text that ends in '=' with one starting with an alphabet character fails the check |
| FileManagerClient.EndedPerChunkWhole | ClientApp/static/js/features/filemanager.js:214-264 | Corrected end step: a complete download is saved with its chunks decoded one by one and leaves the map |
| FileManagerClient.PerChunkEntry | ClientApp/static/js/features/filemanager.js:214-264 | Corrected end step: a download filled with the server's chunks is saved with exactly the file's bytes |
| FileManagerClient.TotalLength | ClientApp/static/js/features/filemanager.js:317 | The merged length is the sum of the parts' lengths |
| WebcamClient.Datas | ClientApp/static/js/features/webcam.js:65-67 | The frame texts of a batch, in order |
| WebcamClient.ValidKept | ClientApp/static/js/features/webcam.js:54-134 | Every handler keeps the player's index invariant |
| WebcamClient.IdleValid | ClientApp/static/js/features/webcam.js:5-7 | The initial player satisfies the invariant |
| WebcamClient.PlayWithoutFramesOvershoots | ClientApp/static/js/features/webcam.js:110-127 | Playing with no frames and ticking once leaves index 1 past an empty list, paused, with the replay overlay |
| WebcamClient.TicksAdvance | ClientApp/static/js/features/webcam.js:120-127 | While frames remain, k ticks advance the index by k and show that frame |
| WebcamClient.PlaysToTheEnd | ClientApp/static/js/features/webcam.js:120-127 | Playback reaches the last frame, and one tick later pauses with the replay overlay |
| WebcamClient.TicksSplit | ClientApp/static/js/features/webcam.js:120-128 | k+1 ticks are k ticks then one |
| WebcamClient.SeekPauses | ClientApp/static/js/features/webcam.js:48-51 | Seeking pauses and shows the frame when in range, and otherwise keeps the index and screen |
| WebcamClient.PlayIdempotent | ClientApp/static/js/features/webcam.js:110-111 | play() on a playing player changes nothing |
| WebcamClient.BatchesAppend | ClientApp/static/js/features/webcam.js:63-70 | A run of video_batch messages appends their frame texts in order |
| WebcamClient.ReceivesRecording | ClientApp/static/js/features/webcam.js:54-98 | Receiving a whole transmission leaves exactly the recorded frames, showing frame 0, seeker max n-1, playing |
| WebcamClient.DeliverAppend | ClientApp/static/js/features/webcam.js:53-82 | Messages are handled one after another |
| WebcamClient.WebcamManager.constructor | ClientApp/static/js/features/webcam.js:2-9 | No frames, index 0, not playing |
| WebcamClient.WebcamManager.ShowFrame | ClientApp/static/js/features/webcam.js:100-108 | Shows the frame only when frames exist and the index is in range |
| WebcamClient.WebcamManager.Play | ClientApp/static/js/features/webcam.js:110-119 | Starts playing, rewinding at or after the last frame; no effect when playing |
| WebcamClient.WebcamManager.Tick | ClientApp/static/js/features/webcam.js:120-128 | One interval step: next frame, or pause with the replay overlay past the end |
| WebcamClient.WebcamManager.Pause | ClientApp/static/js/features/webcam.js:131-134 | Stops playing |
| WebcamClient.WebcamManager.OnSeek | ClientApp/static/js/features/webcam.js:48-51 | Pause then show the chosen frame |
| WebcamClient.WebcamManager.LoadPlayer | ClientApp/static/js/features/webcam.js:91-98 | Index 0, seeker max len-1, show frame 0, play |
| WebcamClient.WebcamManager.OnVideoStart | ClientApp/static/js/features/webcam.js:54-61 | Clears the frames and resets the index |
| WebcamClient.WebcamManager.OnVideoBatch | ClientApp/static/js/features/webcam.js:63-70 | Appends the batch's frame texts, in order |
| WebcamClient.WebcamManager.OnVideoEnd | ClientApp/static/js/features/webcam.js:72-82 | Loads the player exactly when frames were received |
| WebcamClient.ShowingValid | ClientApp/static/js/features/webcam.js:100-108 | Showing a frame keeps the player invariant |
| WebcamClient.DatasNumbered | ClientApp/static/js/features/webcam.js:65-67 | The texts of numbered frames are the frames |
| WebcamClient.DatasAppend | ClientApp/static/js/features/webcam.js:65-67 | Frame texts work piecewise over concatenation |
| WebcamClient.LastBatch | ClientApp/static/js/features/webcam.js:63-70 | A last video_batch appends its frames to the state before it |
| WebcamClient.StartThenBatches | ClientApp/static/js/features/webcam.js:54-70 | video_start clears, and then the batches are handled |
| WebcamClient.EndDelivered | ClientApp/static/js/features/webcam.js:72-82 | video_end is handled after the messages before it |
| SocketClient.Calls | source/ClientApp/static/js/core/websocket.js:54-57 | Each callback is called once with the data, in list order |
| SocketClient.RegisteringKeeps | source/ClientApp/static/js/core/websocket.js:47-52 | on() appends to its own type's list and leaves the other types alone |
| SocketClient.RegistrationOrder | source/ClientApp/static/js/core/websocket.js:47-52 | Callbacks are kept in registration order |
| SocketClient.EmitUnregistered | source/ClientApp/static/js/core/websocket.js:55 | Emitting an unregistered type calls nothing |
| SocketClient.DispatchOrder | source/ClientApp/static/js/core/websocket.js:15-27 | A parsed message goes to the 'message' callbacks and then, when its type is set, to that type's; unparsable text goes only to 'error' with "Parse error: " + text |
| SocketClient.WebSocketManager.constructor | source/ClientApp/static/js/core/websocket.js:2-6 | Keeps the URL, with no socket and no listeners |
| SocketClient.WebSocketManager.Connect | source/ClientApp/static/js/core/websocket.js:8-9 | A new socket in the connecting state, listeners kept |
| SocketClient.WebSocketManager.On | source/ClientApp/static/js/core/websocket.js:47-52 | The registry after registering the callback |
| SocketClient.WebSocketManager.Emit | source/ClientApp/static/js/core/websocket.js:54-57 | Calls the type's callbacks in order with the data |
| SocketClient.WebSocketManager.OnMessage | source/ClientApp/static/js/core/websocket.js:15-27 | The calls of the message dispatch |
| SocketClient.WebSocketManager.OnOpen | source/ClientApp/static/js/core/websocket.js:11-13 | Emits 'connected' |
| SocketClient.WebSocketManager.OnClose | source/ClientApp/static/js/core/websocket.js:29-32 | Emits 'disconnected' |
| SocketClient.WebSocketManager.OnError | source/ClientApp/static/js/core/websocket.js:34-36 | Emits 'error' with the socket error |
| SocketClient.WebSocketManager.Send | source/ClientApp/static/js/core/websocket.js:39-45 | Sends and answers true exactly when the socket is open; otherwise sends nothing and answers false |
| Ipv4.JoinSplit | ClientApp/static/js/login.js:108 | Joining the pieces of a split gives the string back |
| Ipv4.SplitJoin | ClientApp/static/js/login.js:108 | Pieces without the separator split back out of their join |
| Ipv4.OctetIff | ClientApp/static/js/login.js:22 | The octet pattern accepts exactly one to three digits worth at most 255 |
| Ipv4.QuadOfOctets | source/ClientApp/static/js/main.js:66-69 | Four octets joined by dots match the address pattern |
| Ipv4.QuadIsOctets | source/ClientApp/static/js/main.js:66-69 | A matching address is its four octets joined by dots, digits and dots only |
| Ipv4.QuadHasNoColon | ClientApp/static/js/login.js:108 | A matching host holds no ':' |
| Ipv4.Split | ClientApp/static/js/login.js:108 | split always gives at least one piece |
| Ipv4.SplitFront | ClientApp/static/js/login.js:108 | A split stops at the first separator |
| Ipv4.SplitWhole | ClientApp/static/js/login.js:108 | A string without the separator splits into itself |
| Ipv4.ThreeDigits | ClientApp/static/js/login.js:22 | The decimal value of one to three digits |
| Ipv4.JoinDigits | ClientApp/static/js/login.js:22 | Digit pieces joined by dots hold only digits and dots |
| Login.AddressMatches | ClientApp/static/js/login.js:22-24 | A dotted quad, ':' and one to five digits match, capturing the port |
| Login.MatchIsHostAndPort | ClientApp/static/js/login.js:22-24 | A match is exactly a dotted quad, ':' and the captured port |
| Login.ValidateAddressIff | ClientApp/static/js/login.js:21-30 | A well-formed address is accepted exactly when its port is 1 to 65535, and is returned unchanged |
| Login.ValidatedShape | ClientApp/static/js/login.js:21-30 | An accepted address is a dotted-quad host, ':' and a port from 1 to 65535 |
| Login.RedirectKeepsHost | ClientApp/static/js/login.js:108 | split(':')[0] of a valid address is its host |
| Login.ConnectGuard | ClientApp/static/js/login.js:88-116 | The trimmed input is rejected exactly when it fails validation; a redirect goes to /?server= plus the host only |
| Login.HandshakeIff | ClientApp/static/js/login.js:40-85 | The test succeeds exactly when a handshake from RAT_SERVER_V1.0 arrives before any error, close or timeout |
| Login.LastIndexOf | ClientApp/static/js/login.js:129 | The last position of the character, or -1 |
| Login.LeadingDigits | ClientApp/static/js/login.js:135 | parseInt reads the longest digit prefix |
| Login.ScanBounds | ClientApp/static/js/login.js:135-139 | At most 21 consecutive hosts, each from 1 to 254 and within 10 of the local host |
| Login.AtHostPort | ClientApp/static/js/login.js:140-142 | Each host is tried on 8080, 8081 and 9000, in that order |
| Login.FilterSound | ClientApp/static/js/login.js:141-150 | Every address found was tried and answered the handshake |
| Login.FilterKeeps | ClientApp/static/js/login.js:141-150 | Every tried address that answers is found |
| Login.Discover | ClientApp/static/js/login.js:126-152 | The scan loop finds exactly the answering candidates, in scan order |
| Login.TryPorts | ClientApp/static/js/login.js:140-151 | The port loop appends exactly the answering addresses of one host |
| Login.DiscoveryTriesValidAddresses | ClientApp/static/js/login.js:129-152 | From a dotted-quad local IP, three addresses per host are tried, every one passes validateAddress, and every found address is valid and answered |
| Login.AtHost | ClientApp/static/js/login.js:140-142 | One address per common port |
| Login.HostsFrom | ClientApp/static/js/login.js:135-139 | The scan runs over the hosts from start to end |
| Login.ScanStep | ClientApp/static/js/login.js:139-152 | One host of the scan appends that host's answering addresses |
| Login.ScanDone | ClientApp/static/js/login.js:139-152 | After the last host the found addresses are the answering candidates |
| Login.TryStep | ClientApp/static/js/login.js:140-150 | One port try appends the address exactly when it answers |
| Login.FilterAppend | ClientApp/static/js/login.js:141-150 | Finding works piecewise over the candidates |
| Login.HostIsOctet | ClientApp/static/js/login.js:142 | A host from 1 to 254 written in decimal is an octet worth itself |
| Login.ShortDecimal | ClientApp/static/js/login.js:142 | Hosts have at most three digits and ports at most five |
| Login.LastSeparator | ClientApp/static/js/login.js:129 | lastIndexOf finds the last dot |
| Login.SubnetOfQuad | ClientApp/static/js/login.js:129 | The subnet of a dotted quad is three octets |
| Login.TriedAddressValid | ClientApp/static/js/login.js:142 | Every address the scan tries passes validateAddress |
| Login.CandidatesValid | ClientApp/static/js/login.js:139-152 | Three candidates per host, all valid |
| Dashboard.StartIff | source/ClientApp/static/js/main.js:18-40 | The dashboard connects exactly when the IP is localhost (also the fallback) or a dotted quad, to ws://IP:8080/ |
| Dashboard.LocalhostIsNotQuad | source/ClientApp/static/js/main.js:33 | localhost passes only through its exception |
| Dashboard.LoginHandOff | source/ClientApp/static/js/main.js:18-40 | The host the login page hands over is accepted, and the dashboard connects to port 8080 whatever port was validated |

## Left out

- Real I/O is left out: the HTTP listener, socket framing, UTF-8 decoding, DOM updates, logs, alerts and status texts. Producers return their messages; the client records its outgoing commands.
- Concurrency is left out. `Task.Run` producers run to completion in sequence; the interleaving of background messages with replies is not modelled.
- Real time is left out: `setInterval` playback is an explicit `Tick`; the 5 s handshake timeout and the 3 s reconnect timer are events or are not modelled.
- JSON serialisation of typed messages is left out. They are datatypes; `JSON.parse` on the client is an input (the parsed message, or none).
- Culture-aware string comparison is an abstract total preorder `before`. Case mapping and white space are ASCII only.
- `Path.GetFullPath`, `Path.IsPathRooted` and the directory and file tables are inputs of the `Host` record.
- Last-write times are opaque integers.
- The search pattern and recursive listing of `ListOptions` are left out; the model lists one directory level with pattern `*`.
- `CalculateHashAsync` (SHA-256) and `includeHash` are left out: hashing is not part of the transfer.
- JsonResponse.Unescape reads a subset of the string grammar of section 7 of RFC 8259. It accepts the escapes `\\`, `\"`, `\n` and a lower-case `\u00hh` for a control character other than the line feed. It refuses `\/`, `\b`, `\f`, `\r`, `\t`, other `\u` escapes and upper-case hex digits. The server's escaping, as written or corrected, writes none of them.
- WebSocketServer.ListFault: one message stands for any failing `ProcessName` or `MainWindowTitle` read. Which process failed is not recorded; the partial array is dropped in the source as well. Both list commands see the same read failure.
- The title escaping of the application list copies every control character raw, the line feed included. A window title holding one makes that entry of the list unreadable JSON. `UnescapeSafeTitle` states this; the model does not correct the title escaping.
- Ordering.SortEntries: LINQ's `OrderByDescending(...).ThenBy(...)` is stable, but no contract states stability. Insertion puts a new entry in front of its equals, which keeps the input order; this is not proved.
- `atob` is modelled as a strict RFC 4648 decoder: the length must be a multiple of four and padding may appear only in the last group. Browsers also accept some unpadded input.
- The webcam service's `StartRecordingAsync` and `StopRecording` are not part of WebcamService.cs. The router's camera task takes the recording as an input.
- `record()`/`get_cam` and `exportAndDownload` in webcam.js are left out. The first only sends a command; the second builds a video file in the browser.
- `formatSize`, `triggerDownload` and `renderFileList`'s markup are presentation only.
- The remaining services (process killing by pid, screen capture, key logger, shutdown) are calls whose results are inputs.
- websocket.js: a callback that throws inside `emit` during `onmessage` would also reach the error listeners. A callback that registers listeners during `emit` is also left out. Callbacks are identities and have no effects.
- websocket.js: a non-string `type` field is left out (JavaScript would emit under its string form). The type is an optional string.
- login.js: `parseInt`'s sign and leading white space are not modelled for `localIP.split('.')[3]`, whose text comes from the server's local-IP endpoint. A missing fourth piece gives no host (NaN), as in the source.
- FileService.GetMimeType: its contract states only the empty-extension case. The table is covered by the lemmas `MimeIgnoresCase`, `MimeIgnoresLeadingDot` and `JpegAliases`.
- FileService.JpegAliases: checks three fixed extensions rather than every row of the table.
- WebcamClient.Valid: states `index ≤ frames` only when frames exist. When `play()` runs with no frames and ticks once, the index becomes 1 past an empty list (`PlayWithoutFramesOvershoots`), so the stronger invariant `0 ≤ index ≤ length` does not hold in the source.
- FileManagerClient.FileManagerManager.OnFileDownloadEnd: follows the source as written, including the multi-chunk rejection below; the corrected step is `EndedPerChunk`.

The login page keeps only the host of the validated `IP:PORT` (login.js:108), and the dashboard always connects to port 8080 (main.js:40). A server found on 8081 or 9000 is therefore reached on 8080 after login (`Dashboard.LoginHandOff`). This is modelled as the source behaves.

## Findings

| source | as written | input that shows it | evidently intended | confidence | as-written member | corrected member |
|---|---|---|---|---|---|---|
| ClientApp/static/js/features/filemanager.js:254-260 | file_end joins the chunk texts and requires the whole to match `^[A-Za-z0-9+/]*={0,2}$` | any file over 65536 bytes whose reads fill the 64 KiB buffer: chunk 0 encodes 65536 bytes and ends in "=", and chunk 1 starts with an alphabet character, so the joined text has padding inside and the download is refused | every download that arrives complete is saved with the file's bytes | not executed | FileManagerClient.MultiChunkRejected | FileManagerClient.PerChunkRoundTrip |
| ServerApp/WebSocketTest/WebSocketServer.cs:221-224 | JsonError inserts the message without escaping | a message holding a quote, `"`, such as an exception text quoting a path: the reply is no longer readable JSON | the message is escaped as JsonResponse.Error does | not executed | WebSocketServer.QuoteBreaksJsonError | WebSocketServer.PlainMessagesAgree |
| ServerApp/WebSocketTest/Models/JsonResponse.cs:11-14 | Escape replaces only the backslash, the quote and the line feed; every other control character is copied raw | a message holding a carriage return or a tab, such as the two-line text `"a\r\nb"` of an exception message: `Error` gives a string with a raw U+000D, which section 7 of RFC 8259 forbids, so the reply is not readable JSON | every control character U+0000 to U+001F is escaped, the others as `\u00hh` | not executed | JsonResponse.ControlBreaksReply | JsonResponse.StrictEnvelopesParse |
