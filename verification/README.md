# Remote debugger: verified model

A model in Dafny of the parts of the remote debugger daemon where several functions have to agree, with proofs of
what they achieve together. `dafny verify dfyconfig.toml` checks all of it.

**The archive.** `Bytes`, `Octal`, `UstarHeader` and `Archive` follow `src/rrd_archive.c`: a ustar writer (the "ustar
Interchange Format" of the `pax` utility, POSIX.1) with octal fields, a checksum over its own header, 512-byte blocks
and a recursive walk. The file system is a tree whose nodes may refuse to open, vanish, or deliver other than the
announced number of bytes; the gzip stream is an object that grows. `ArchiveReader` is an independent reader, and the
main result says exactly when it recovers the tree; `TreePaths` says the same place by place, in terms of what lstat
and the reads gave.

**Issues, downloads and the pending cache.** `PendingCache` is the doubly linked list of `src/rrdRunCmdThread.c` as a
class, tied to a newest-first sequence. `Protocol` is a transition system over the message queue, the cache, the
receiver and the install event handler: a request (`rbus_set`) and its recording are separate steps, and so are the
handler's lookup, delivery and removal, so every interleaving the mutex allows is a run. Each token received from
outside gets a label, which ghost logs follow through requests, cache entries and follow-up messages.
`ProtocolSafety` proves the invariant and the results about all runs. `Handlers` holds the same operations as they
run, on objects whose fields they change, and `HandlerSteps` proves that every section of a handler between two points
where the other thread may run is a step of the protocol, from any state, and that a whole message or install event is
the sequence of its steps. `Daemon` puts both threads together: any schedule of their sections, on the real queue and
the real list, is a run of the protocol. `MessageLaws` says in plain values which messages, tokens,
commands and requests these are, and `IssueRun` follows a web configuration from its array to its commands.

**Text.** `CString`, `IssueText`, `IssueList` and `IssueName` cover the issue list: joining a msgpack array, taking the
append tag off, splitting, taking tokens apart, sanitizing and naming. `Profile` looks issues up and selects commands.
`Commands` holds the command stages as loops over character buffers, each proved equal to a function;
`CommandMeaning` and `CommandFilter` prove what the composed functions mean (the text that reaches the shell, and for
which patterns and directories the verdict of the filter holds up to there), and `CommandRun` puts the stages together
from the profiles to the shell.

## Where the code does not do what it seems to

The model follows the code. These are proved as exact conditions:

- Names of 100 to 255 bytes are accepted but never survive (`UstarHeader.NameReadsBack`). The comments in the code
  present the split as supporting long names.
- Numbers too wide for their octal field are cut on the right and read back smaller (`Octal.FieldReadsBack`); times
  before 1970 never read back (`UstarHeader.TimeReadsBack`).
- An archive whose file contents changed in length while being written does not read back, though its creation
  reports success (`ArchiveReader.ArchiveRoundTrip`).
- A directory that cannot be opened leaves a stray regular-file header, and success is reported. Such an archive never
  reads back as the tree (`ArchiveReader.ArchiveRoundTrip`). Unless the directory has size 0, the bytes behind the
  header, as many as that size takes with its padding, are read as the contents of a file, so that what is read is not
  what was written either (`ArchiveReader.ClosedDirectoryBreaks`).
- When the last string of a web configuration array ends in `_apnd`, it loses the tag and all the strings are taken
  for append requests; a tag on any other string is kept as part of it (`IssueList.JoinSplitRoundTrip`,
  `Handlers.PushWebConfig`).
- A backslash or control character in a configured command reaches the shell in its printed form, not as written
  (`CommandMeaning.SingleRunMeaning`).
- A listed pattern that overlaps the output directory can reach the shell past the filter, since the directory takes
  the place of the macro after the check (`CommandFilter.FilterExact`, `CommandFilter.FilterFailure`).
- In an append request each command is checked against the list of its own profile only: a pattern stays out of the
  result exactly when both lists catch it (`CommandFilter.AppendListsExact`).
- An append request reads through a null pointer when a profile lists the issue without a usable command
  (`CommandRun.RunAppend` has the exact condition); so does any append request for a whole category that the installed
  profile lists (`Handlers.CategoryAppendFaults`).
- An issue with a dot but fewer than two parts, or no part at all, makes the receiver read an array slot that was never
  set (`IssueName.GetIssueInfo`).
- A merged command can hold `&;` again (`CommandFilter.MergedBackground`).

## Assumptions

- Allocation, `gzwrite` and queue operations succeed. The IARM build is the one modelled.
- File names have no NUL byte and are not empty; `.` and `..` are skipped. They have at most 255 bytes; as the
  walk enters no directory below the root whose path is over 254 bytes, its path buffers truncate nothing.
- A directory's second `lstat`, after a failed `opendir`, gives what the first one gave.
- RBUS, IARM, msgpack, base64, JSON parsing, zlib, the user database and the clock are foreign: they appear as
  events, as arrays of strings and other items, as parsed or printed values, and as parameters.
- The text of a command is short enough for its lengths to fit `size_t`.


## Model

| member | source | states |
|---|---|---|
| `ArchiveReader.ArchiveRoundTrip` | src/rrd_archive.c:302-374 | For every tree whose archive is created: when every directory opened, a ustar reader that checks magic, version, checksum and every number, and stops at two zero blocks, recovers exactly the pre-order list of directories and regular files with metadata and contents **if and only if** every entry fits the header bounds and its reads gave as many bytes as lstat announced; when some directory did not open, it never does (no path being both a directory and a file). |
| `TreePaths.TreeRecovered` | src/rrd_archive.c:302-374 | The round trip place by place, in terms of the stats only: when every directory opened, the reader finds for each place of the tree, in order, an entry with the path to that place, the kind, permission bits, uid, gid, size, mtime, owner names and contents of the node there, **if and only if** every node of the tree fits the format (paths of at most 98 bytes for directories and 99 for files, 7 and 11 digits, owner names of at most 31 bytes, as many bytes read as lstat announced). |
| `TreePaths.FileRecovered` | src/rrd_archive.c:302-374 | The same for the archive of a single file: one entry, under the last part of its path. |
| `TreePaths.ArchivedWhen` | src/rrd_archive.c:200-300 | The walk of a directory succeeds **if and only if** its path leaves room in the buffers and, at every place below, nothing has vanished, every file can be read, and no path is too long, for a header or for the buffers. |
| `TreePaths.ListingListsTree` | src/rrd_archive.c:200-300 | The pre-order list names every place of the tree, with its path from the root and what lstat and the reads gave there. |
| `TreePaths.PlacesComplete` | src/rrd_archive.c:200-300 | Every directory and regular file that can be reached by its positions is among the places. |
| `TreePaths.PlacesInOrder` | src/rrd_archive.c:200-300 | The places come in pre-order: each before what is below it and before its later siblings, none twice. |
| `ArchiveReader.ArchiveContents` | src/rrd_archive.c:302-374 | For every tree, closed directories and a closed root included: the reader finds exactly the records that were written, the stray headers among them, **if and only if** all are representable. |
| `ArchiveReader.ClosedDirectoryBreaks` | src/rrd_archive.c:214-226 | A directory of nonzero size that does not open breaks the archive: the reader does not find the records that were written either. |
| `ArchiveReader.ClosedDirectoryHeader` | src/rrd_archive.c:214-226 | The one header: a directory that cannot be opened leaves a second header, of type regular file, with its size and no contents; a reader keeps its place after it exactly when that size is zero and the fields are in bounds. |
| `ArchiveReader.FirstBreak` | src/rrd_archive.c:200-300 | In a tree with a closed directory there is a first place where the written records and the listing part: right behind the header of that directory, with everything before it the same. |
| `ArchiveReader.BreakShows` | src/rrd_archive.c:200-300 | Whatever follows such a place, the archive is not read as a list that goes on with anything but a file at the path of that directory. |
| `ArchiveReader.EncodingReadsBack` | src/rrd_archive.c:302-374 | Any list of records followed by the trailer reads back as its entries exactly when each entry is representable; no record is ever taken for the trailer. |
| `ArchiveReader.MemberReadsBack` | src/rrd_archive.c:90-198 | In front of any bytes, a member reads back as its entry with the reader at the next header when it is representable, and as something else or nothing when it is not. |
| `ArchiveReader.RootEncodesRecords` | src/rrd_archive.c:200-374 | The bytes of the recursive walk, in readdir order with relative paths put together on the way down, are the encodings of the pre-order records one after the other, other node kinds contributing nothing and closed directories one bare header. |
| `ArchiveReader.ArchiveLength` | src/rrd_archive.c:335-355 | For every tree whose reads match its sizes, the stream before the trailer is a multiple of 512 and equals 512 plus the rounded-up size per file, 512 per directory and 512 more per directory that did not open, whatever the read chunks were. |
| `UstarHeader.ChecksumReadsBack` | src/rrd_archive.c:60-64 | The sum of any 512 bytes is below 8^6, so it has at most six octal digits, and the printed field with its blank and NUL decodes to it. |
| `Archive.WriteZeros` | src/rrd_archive.c:76-88 | The chunked loop appends exactly the given number of zero bytes. |
| `Archive.WriteFileContents` | src/rrd_archive.c:153-198 | Whatever positive chunk sizes the reads return, the contents and the zeros up to the block boundary of st_size are appended; -1 exactly when the file cannot be opened or read to its end, and then a beginning of those bytes. |
| `Archive.ArchivePathRecursive` | src/rrd_archive.c:200-300 | The walk reports success exactly when no path is too long, nothing has vanished and every file could be read, and then has appended the bytes of the directory; on every failure it has appended a beginning of them. |
| `Archive.CreateArchive` | src/rrd_archive.c:302-374 | -1 exactly for a missing name, then -2 exactly when the output does not open or the root is neither a directory nor a file, then -3 exactly when the finished file is missing or empty, else 0 exactly when the root is archivable; on 0 the bytes of the root and 1024 zeros are written, for a root that is not archivable a beginning of its bytes. |
| `UstarHeader.HeaderRoundTrip` | src/rrd_archive.c:90-151 | A written header reads back as the entry it was meant for **exactly** within the bounds: name of at most 99 bytes, mode/uid/gid below 8^7, size and mtime in 0..8^11-1, owner names of at most 31 bytes. |
| `UstarHeader.NameReadsBack` | src/rrd_archive.c:94-114 | For every name the writer accepts, prefix and name field joined give the name back exactly when it has at most 99 bytes: 100 bytes lose the last, the split of a longer name drops the byte between its parts. |
| `UstarHeader.ChecksumAgrees` | src/rrd_archive.c:135-141 | For every header, however its other fields were truncated, the stored checksum decodes to the sum of the 512 bytes with the checksum field read as spaces. |
| `UstarHeader.HeaderReads` | src/rrd_archive.c:90-151 | Every written header is a valid one; the entry a reader finds in it is given field by field. |
| `UstarHeader.TimeReadsBack` | src/rrd_archive.c:120 | A modification time, printed as an unsigned 64-bit number, survives exactly in 0..8^11-1; negative times do not. |
| `UstarHeader.OwnerReadsBack` | src/rrd_archive.c:125-134 | A user or group name survives exactly when it has at most 31 bytes. |
| `Octal.FieldReadsBack` | src/rrd_archive.c:116-120 | A zero-padded octal field of w+1 bytes always decodes to some number below 8^w, and to the number printed exactly when that is below 8^w; a longer number loses its right-hand digits. |
| `UstarHeader.CalculateChecksum` | src/rrd_archive.c:60-64 | The loop returns the sum of the bytes; 32 bits never overflow on a header. |
| `UstarHeader.FillHeader` | src/rrd_archive.c:90-141 | Filling the struct in the order of the source gives the header the laws above are about, and the block says of the path, at absolute offsets, what the stat says: mode, uid, gid, size (0 for a directory), mtime, type, user and group name; it fails exactly for names over 255 bytes. |
| `UstarHeader.HeaderSays` | src/rrd_archive.c:90-151 | For every name the writer accepts and every stat, byte range by byte range of the 512 and without the reader: the octal numbers in [100..108], [108..116], [116..124], [124..136], [136..148] are the permission bits, st_uid, st_gid, the size (0 for a directory) and st_mtime when they fit; [148..156] is the sum of the other bytes plus 256; [156] is the type; the names at 0, 265 and 297 are the path, the user and the group; magic and version are fixed and the rest is zero. |
| `UstarHeader.ReaderIsStrict` | src/rrd_archive.c:90-151 | The reader accepts a block **if and only if** magic and version stand at [257..265], the number at [148..156] is the sum of the other bytes plus 256, and every other numeric field is octal. |
| `Archive.WriteTarHeader` | src/rrd_archive.c:90-151 | What is appended to the stream is a block that says of the path what its stat says; nothing is appended, and -1 returned, exactly for names over 255 bytes. |
| `Archive.PadIsLeast` | src/rrd_archive.c:178-197 | The padding behind contents is the least number of bytes that ends a block. |
| `Bytes.SumConcat` | src/rrd_archive.c:60-64 | The sum is additive over concatenation and that of one byte is the byte, which no other function is. |
| `Octal.ValueConcat` | src/rrd_archive.c:116-120 | Octal digits behind others: places of value 8. |
| `IssueName.GenerateFilename` | src/rrd_archive.c:377-389 | Succeeds exactly when the buffer has at least 128 bytes and the name fits, and then holds the whole name. |
| `IssueName.ArchiveNameInjective` | src/rrd_archive.c:377-389 | Two archives have the same name only for the same MAC address, issue and timestamp, when MAC and timestamp hold no underscore (the issue may). |
| `IssueName.ArchiveNameParts` | src/rrd_archive.c:377-389 | MAC address, issue, timestamp and the fixed ending, in this order with underscores between them. |
| `PendingCache.Cache.AppendItem` | src/rrdRunCmdThread.c:113-142 | The new node becomes the head of the doubly linked list; all other nodes stay, in order, and all links stay mutual. |
| `PendingCache.NewestReverses` | src/rrdRunCmdThread.c:113-142 | What is appended one after the other is in the list newest first. |
| `PendingCache.Cache.FindPresentInCache` | src/rrdRunCmdThread.c:150-174 | Returns the newest node for the package, or null when there is none. |
| `PendingCache.Cache.RemoveItem` | src/rrdRunCmdThread.c:182-222 | Unlinks exactly the given node, at the head, in the middle or at the end; the list stays mutually linked and the other nodes keep their order. |
| `PendingCache.Cache.FindThenRemove` | src/rrdIarmEvents.c:294-366 | A lookup, then any number of appends by the other thread, then the removal: exactly the node that was found (the newest match then) is gone, and the appended items are all there in front. |
| `ProtocolSafety.AtMostOneDownload` | src/rrdEventProcess.c:193-389 | In every run of the two threads, a token that was not an append request causes at most one download request, deep-sleep tokens included; an append request at most one more than it had completions. |
| `ProtocolSafety.TotalRequests` | src/rrdDynamic.c:176-303 | In every run, requests never exceed tokens received (deep-sleep initiations among them) plus append-mode completions. |
| `ProtocolSafety.Conservation` | src/rrdIarmEvents.c:294-366 | In every reachable state, as multisets of the tokens they go back to: requests = recorded + failed + the one not yet recorded, and recorded = pending + delivered + dropped (an entry in the handler's hand counted once). |
| `ProtocolSafety.AppendFlagSurvives` | src/rrdInterface.c:209-227 | In every reachable state a cached issue string ends in "_apnd" exactly when its request was an append request, stripping it gives the base of the request, every queued message carries the flag and bases of the tokens it goes back to, and no message is both inDynamic and appendMode. |
| `ProtocolSafety.InstallEpisode` | src/rrdIarmEvents.c:294-366 | An install event for a cached package, with any actions of the receiver and the outside in between: exactly the newest matching entry leaves the cache, everything recorded meanwhile stays, and exactly one message with the issue of that entry is queued if the status is complete, none otherwise. |
| `ProtocolSafety.RunKeepsInv` | src/rrdMain.c:51-94 | The inductive invariant behind these results (labels, distinct nodes, request authority, balance) holds after every run from the empty start. |
| `ProtocolSafety.StepKeepsInv` | src/rrdMain.c:51-94 | Each of the eight steps of the two threads keeps the invariant. |
| `ProtocolSafety.DownloadsAreAllowed` | src/rrdEventProcess.c:193-389 | Only an append request, or a message not marked inDynamic, is ever routed to a download, whatever the profiles are. |
| `ProtocolSafety.FollowUpLabels` | src/rrdIarmEvents.c:301-349 | The follow-up of a cached entry has the base and append flag of the request the entry was made by, and may ask for a download again exactly when it is an append request. |
| `ProtocolSafety.ConcurrentSteps` | src/rrdRunCmdThread.c:113-142 | While an event is handled, any number of steps of the receiver and the outside only add entries at the front of the cache, and deliver and drop nothing. |
| `Handlers.GetProfileStringLength` | src/rrdDynamic.c:124-163 | -1 for a missing node or one over 34 bytes; otherwise exactly the length of the package name with its terminator, on all branches. |
| `Handlers.RdmManagerEvent` | src/rrdIarmEvents.c:278-378 | The handler on the real list and queue: the newest entry for the package is consumed, one message is queued exactly when the status is complete, nothing changes for an unknown package. |
| `Handlers.EnqueueInstalled` | src/rrdIarmEvents.c:301-352 | The message built field by field is the follow-up message of the protocol: deep-sleep type for the deep-sleep string, tag stripped, inDynamic and appendMode exclusive. |
| `Handlers.PwrManagerEvent` | src/rrdIarmEvents.c:144-192 | One deep-sleep message is queued exactly on leaving deep sleep with the forced sync set. |
| `Handlers.PushIssueTypesToMsgQueue` | src/rrdInterface.c:524-545 | Queues one message with the text stripped of its tag and appendMode telling whether it had one. |
| `Handlers.ProcessIssueTypeEvent` | src/rrdEventProcess.c:64-184 | Every token of the text becomes one command with the flags of the message, a path only when dynamic, its sanitized base and its suffix; tokens with nothing left are skipped. |
| `HandlerSteps.PushIssues` | src/rrdInterface.c:524-545 | Refinement: pushing a received text is the protocol step for it. |
| `HandlerSteps.LeaveDeepSleep` | src/rrdIarmEvents.c:144-192 | Refinement: waking up is the protocol step for it. |
| `IssueText.StartsCountRuns` | src/rrdEventProcess.c:784-822 | For every string the look-ahead count of the first pass is the number of maximal delimiter-free runs. |
| `IssueText.IssueTypeSplitter` | src/rrdEventProcess.c:784-822 | The two passes agree: the result is exactly the maximal runs in order, or one empty token; every read is within the terminated buffer. |
| `IssueText.CountTokens` | src/rrdEventProcess.c:789-799 | The counting pass gives the number of tokens the emission pass fills. |
| `IssueList.JoinSplitRoundTrip` | src/rrdMsgPackDecoder.c:321-370 | For every array: splitting the queued text gives back the strings of the array in order **if and only if** there is one, all are nonempty, comma- and NUL-free and the last item is not a tagged string, or the only string is empty; other items may be anywhere. |
| `IssueList.PlainRoundTrip` | src/rrdMsgPackDecoder.c:321-370 | For arrays whose strings are all plain it comes down to the tag on the last item. |
| `IssueList.RunsConcat` | src/rrdEventProcess.c:784-822 | Splitting distributes over concatenation at a delimiter. |
| `IssueList.BuildCommandList` | src/rrdMsgPackDecoder.c:321-370 | The joining loop stays within the computed size and leaves the joined text, terminated. |
| `IssueList.GetReqTotalSize` | src/rrdMsgPackDecoder.c:301-312 | The summing loop: the bytes of the string items plus one for each item and the terminator. |
| `IssueList.JoinedFits` | src/rrdMsgPackDecoder.c:301-312 | After any number of items the joined text is shorter than that size. |
| `IssueList.CheckAppendRequest` | src/rrdInterface.c:209-227 | True exactly for a text ending in "_apnd", which is cut off in place. |
| `IssueName.SplitIssueTypeLaws` | src/rrdJsonParser.c:84-147 | The base has no underscore; the suffix has at most nine safe characters and begins with an underscore unless empty; base and suffix make up the token **exactly** when the base fits and the suffix is short and safe. |
| `IssueName.SplitIssueType` | src/rrdJsonParser.c:84-147 | Both buffers are terminated and hold base and suffix, whatever their sizes. |
| `IssueName.CopySuffix` | src/rrdJsonParser.c:124-142 | The sanitizing loop keeps the safe characters in order, as far as the buffer holds them. |
| `IssueName.RunsWithinDots` | src/rrdJsonParser.c:265-308 | A string never has more tokens than dots plus one, nor more than dots when it begins with one. |
| `IssueName.RemoveSpecialCharacters` | src/rrdEventProcess.c:758-773 | In place, exactly the letters, digits, commas and dots remain, in order. |
| `IssueName.IssueBaseStable` | src/rrdEventProcess.c:64-184 | Processing is stable: a processed base is its own base, holds only issue characters, and is the only token of the text it makes up, so a cached issue comes back as one token. |
| `IssueName.CacheStringReadsBack` | src/rrdDynamic.c:254-266 | For a base without underscore, the tag tells whether it was added and stripping gives the base back. |
| `IssueName.ConvertIssueType` | src/rrd_logproc.c:97-132 | Fails exactly when the input does not fit and then writes nothing; otherwise the output is the converted name. |
| `IssueName.ConversionIdempotent` | src/rrd_logproc.c:97-132 | Converting twice is converting once. |
| `IssueName.ConversionOfNormalized` | src/rrdExecuteScript.c:72-84 | Normalizing a name before converting it changes nothing. |
| `IssueName.ConvertedOne` | src/rrd_logproc.c:97-132 | A letter or digit becomes its capital, a dot or underscore an underscore, a dash stays, anything else goes. |
| `IssueName.ConvertedConcat` | src/rrd_logproc.c:97-132 | Conversion works character by character. |
| `IssueName.NormalizeIssueName` | src/rrdExecuteScript.c:72-84 | In place, every dot becomes an underscore and nothing else changes. |
| `CommandMeaning.AppendRunMeaning` | src/rrdEventProcess.c:275-323 | For all static and dynamic commands: what an append request gives the shell is the background fix and macro substitution of each, on its own, joined by a semicolon, **if and only if** neither holds a backslash or a control character (directory free of quotes, backslashes and control characters). |
| `CommandMeaning.SingleRunMeaning` | src/rrdRunCmdThread.c:318-381 | The same for one command. |
| `CommandMeaning.UnquotingUndoesPrinting` | src/rrdRunCmdThread.c:251-270 | removeQuotes takes the JSON-printed form of a string (section 7 of RFC 8259) back to the string exactly when it holds no backslash and no control character. |
| `CommandMeaning.PrintedForm` | src/rrdJsonParser.c:418-440 | The printed form character by character: quote and backslash escaped, control characters named or numbered, any other as it is. |
| `CommandMeaning.BackgroundPrinted` | src/rrdCommandSanity.c:30-51 | The background fix and printing commute, for all strings. |
| `CommandMeaning.MergedPrinted` | src/rrdEventProcess.c:275-323 | Merging two printed commands gives the printed form of the two joined by a semicolon, for all strings. |
| `CommandMeaning.ReplacedPrinted` | src/rrdCommandSanity.c:61-109 | Macro substitution and printing commute, for all strings. |
| `CommandMeaning.ReplacedSeam` | src/rrdCommandSanity.c:61-109 | No macro forms across a character foreign to it: substitution works on both sides on its own. |
| `CommandFilter.BackgroundFree` | src/rrdCommandSanity.c:30-51 | The background fix brings in no pattern without an ampersand that does not begin with a blank. |
| `CommandFilter.UnescapedFree` | src/rrdRunCmdThread.c:251-270 | Unquoting brings no pattern without a quote in. |
| `CommandFilter.MergedBackground` | src/rrdEventProcess.c:275-323 | The merged command of an append request holds "&;" exactly when the static command ends in an ampersand: the fix runs before the merge. |
| `Commands.RemoveQuotes` | src/rrdRunCmdThread.c:251-270 | In place and with a decreasing length, the outer quotes and every backslash before a quote go. |
| `Commands.UpdateBackgroundCmd` | src/rrdCommandSanity.c:30-51 | In place, the fixed text. |
| `Commands.BackgroundAt` | src/rrdCommandSanity.c:30-51 | Character by character: a semicolon right behind an ampersand becomes a blank, nothing else changes. |
| `Commands.IsCommandsValid` | src/rrdCommandSanity.c:119-173 | The loop over the list and its string work: 1 exactly when one of the patterns the entries stand for occurs in the command, which is then untouched; otherwise 0 and the fixed command. |
| `CommandFilter.PatternOfPrinted` | src/rrdCommandSanity.c:132-147 | The printed form of a plain, quote-free string that does not end in a blank, with any blanks behind it, stands for exactly that string. |
| `CommandFilter.HarmfulExact` | src/rrdCommandSanity.c:119-173 | For every list of such strings: a command is refused **if and only if** one of the strings occurs in it. |
| `CommandFilter.CheckAgainst` | src/rrdCommandSanity.c:119-173 | The check itself, on the buffer: 1 **if and only if** one of the listed strings occurs in the command; and when none does, every semicolon right behind an ampersand becomes a blank, and no other character changes. |
| `Commands.ReplaceRRDLocation` | src/rrdCommandSanity.c:61-109 | The buffer of the computed wrapping length is filled exactly, by the leftmost replacement of every macro. |
| `Commands.WrappedLength` | src/rrdCommandSanity.c:83 | The wrapping unsigned expression is the true length, also when the directory is shorter than the macro. |
| `Commands.ReplacedLength` | src/rrdCommandSanity.c:71-83 | The result is longer than the command by the count times the difference of the lengths. |
| `Commands.CountMacros` | src/rrdCommandSanity.c:74-80 | The counting pass counts the macros that are replaced. |
| `Commands.CopyReplacing` | src/rrdCommandSanity.c:85-102 | The copying pass meets the same macros and writes exactly the replaced text. |
| `Commands.AppendCommand` | src/rrdEventProcess.c:275-323 | The merge in the command buffers: closing quote off, opening quote turned into the delimiter, concatenation. |
| `Commands.PrepareCommand` | src/rrdRunCmdThread.c:318-381 | What the shell gets is the unquoted substituted command. |
| `CommandRun.RunSingle` | src/rrdJsonParser.c:487-596 | The same for the command of one profile and the patterns it lists. |
| `Profile.GetIssueCommandInfo` | src/rrdJsonParser.c:390-476 | No command exactly when the entry of the issue has no string or its last one, printed, holds a listed pattern; otherwise that string, printed, with the background fix, and the last number as timeout, 90 in place of 0. |
| `Profile.EntryIs` | src/rrdJsonParser.c:400-417 | On the profile itself: when the first member named like the category is an object whose first member named like the type is an object or array, the profile lists the issue and the entry is the children of that member, in order. |
| `Profile.ListsExact` | src/rrdJsonParser.c:317-382 | A profile lists an issue with a type **if and only if** its first member named like the category is an object with a member named like the type; an issue without one if and only if there is such a first member. |
| `Profile.ChosenExact` | src/rrdJsonParser.c:418-460 | The command is the last string of that entry, none when it holds no string or the check refuses it. |
| `Profile.TimeoutExact` | src/rrdJsonParser.c:418-476 | The timeout is the last number of that entry, 90 when that is 0 or there is none. |
| `Profile.NamesExact` | src/rrdJsonParser.c:317-382 | Names are compared up to the case of letters and nothing else. |
| `Profile.ReadEntry` | src/rrdJsonParser.c:418-440 | The loop over an entry: the last string and the last number win. |
| `Profile.FindIssueInParsedJSON` | src/rrdJsonParser.c:317-382 | True exactly when the profile has a member of the name of the category, in any case, and the first such member has one of the name of the type if the issue names one. |
| `Handlers.InStaticProfile` | src/rrdEventProcess.c:458-528 | A non-dynamic issue is executed when the static profile or that of the installed package lists it, and downloaded when neither does, whichever of the two can be read. |
| `Handlers.PushWebConfig` | src/rrdMsgPackDecoder.c:543-560 | The queued text is the one the join/split round trip is about, and the message is an append request **if and only if** the last item of the array is a string that, as far as it is copied, ends in "_apnd". |
| `IssueList.JoinedTagged` | src/rrdMsgPackDecoder.c:321-370 | The joined text ends in the tag exactly when its last item is such a string; tags on other items do not count. |
| `Handlers.RequestPackage` | src/rrdDynamic.c:176-253 | For every node, profile name and mode: a node of at most 34 bytes gives a request for "RDK-RRD-", the node and ":1.0", or for "RDK-RRD-", the device profile with a dash and "DEEPSLEEP" in deep sleep, untruncated by any of the computed buffers; a longer or missing one gives none; key and (tagged) issue string are to be recorded exactly when the request was set. |
| `Handlers.DownloadRequest` | src/rrdDynamic.c:176-303 | With the recording: the key and the tagged issue string become the newest entry exactly when the request was set. |
| `IssueName.GetIssueInfo` | src/rrdJsonParser.c:265-308 | For every issue: category and type are the first two dot-separated parts; a slot that was never set is read exactly when there is no part, or a dot and fewer than two parts; the array sized by the dots holds every token strtok returns. |
| `IssueName.NodesOfIssue` | src/rrdJsonParser.c:265-308 | The first part is the category, the second the type, whatever follows; an issue of one part has no type. |
| `IssueName.BaseOfToken` | src/rrdEventProcess.c:64-184 | What is left of a token: the letters, digits, commas and dots in front of its first underscore. |
| `IssueName.SuffixOfToken` | src/rrdJsonParser.c:84-147 | Its suffix: everything from the underscore on when at most eight safe characters follow it, and nothing when more than eight characters do. |
| `IssueName.SanitizedConcat` | src/rrdEventProcess.c:758-773 | Sanitizing works character by character and keeps exactly letters, digits, commas and dots. |
| `HandlerSteps.FindEntry` | src/rrdIarmEvents.c:294-295 | Refinement, from any state: the lookup under the mutex is the first step of an install event, and the node it returns is the one of the entry the step takes in hand. |
| `HandlerSteps.ActOnEntry` | src/rrdIarmEvents.c:296-366 | Refinement, from any state in which the node in hand is that of the entry, whatever happened since the lookup: building and queueing the follow-up, or not, is the second step. |
| `HandlerSteps.ForgetEntry` | src/rrdIarmEvents.c:294-366 | Refinement, from any such state: unlinking the node is the third step, which removes the entry of that address and no other. |
| `HandlerSteps.RecordEntry` | src/rrdDynamic.c:254-267 | Refinement, from any state: the recording is the step that follows, and a node the install handler has in hand meanwhile stays the node of its entry. |
| `HandlerSteps.InstallState` | src/rrdIarmEvents.c:294-366 | The three handler steps with nothing in between remove the newest matching item and add the one message. |
| `CommandFilter.FilterExact` | src/rrdCommandSanity.c:119-173 | For every macro-free output directory whose end characters are not in RRD_LOCATION, and every plain pattern: **every** command that passes the check is free of the pattern at the shell **if and only if** directory and pattern are apart (neither in the other, no end of one a beginning of the other), or the pattern is part of the macro, or holds it. |
| `CommandFilter.FilterExactForAppend` | src/rrdCommandSanity.c:119-173 | The same condition is exact for append requests, over all pairs of commands. |
| `CommandFilter.Evasion` | src/rrdCommandSanity.c:119-173 | When the condition fails, a command that passes the check and brings the pattern to the shell, put together from the pattern and the macro. |
| `CommandFilter.FilterFailure` | src/rrdCommandSanity.c:119-173 | An instance: "rm RRD_LOCATION" passes for the pattern "rm /" and holds it at the shell in the directory "/t1". |
| `CommandFilter.FilterHoldsForAppend` | src/rrdCommandSanity.c:119-173 | The sound direction for every plain directory: a pattern found absent from both printed commands is absent from what the shell gets after fix, merge, substitution and unquoting. |
| `CommandFilter.FilterHoldsForSingle` | src/rrdCommandSanity.c:119-173 | The same for one command. |
| `CommandFilter.ForeignEndsApart` | src/rrdCommandSanity.c:85-102 | A directory without the pattern whose first and last characters are not in it is apart from it. |
| `CommandFilter.ReplacedFree` | src/rrdCommandSanity.c:85-102 | Substituting a directory that is apart from a pattern brings the pattern in nowhere. |
| `CommandFilter.OccursBetween` | src/rrdCommandSanity.c:85-102 | A pattern apart from an inserted text occurs in the result only if it occurs before or behind it. |
| `Daemon.RunSchedule` | src/rrdMain.c:51-94 | Refinement of everything: for every schedule of the uninterrupted sections of both threads and the outside world, run on the real queue and the real list, the objects hold what the protocol says after the same sections, until the receiver fails; and it fails exactly when the protocol has no step for its token. |
| `Daemon.SectionsDo` | src/rrdMain.c:51-94 | What each section does to queue, cache and the entry in hand when its turn has come, in plain terms: texts and wake-ups go to the end of the queue, a lookup takes the newest match in hand, acting queues the follow-up of the entry exactly on completion, forgetting removes that entry and no other. |
| `Daemon.ScheduleIsRun` | src/rrdMain.c:51-94 | What a schedule leads to, sections out of turn doing nothing, is the state of a run of the protocol, so every result about runs holds for it. |
| `Daemon.ScheduleSafe` | src/rrdDynamic.c:248-267 | For instance: under every schedule a token that was not an append request is asked for at most once, and while no event is being handled the items of the list, the delivered and the dropped are as many as the recorded. |
| `HandlerSteps.RequestToken` | src/rrdEventProcess.c:64-184 | Refinement, from any state and for every token: taking it apart, looking it up, and requesting the package is the protocol step for the token, and what is left to record is what the state says is out; it fails exactly when there is no such step, by a slot that was never set or a null pointer. |
| `HandlerSteps.HandleMessage` | src/rrdMain.c:51-94 | Refinement of a whole message: taking it off the queue, dispatching on its type and working through all its tokens, with profiles and request results that may differ from token to token, is the receive step followed by the steps of every token in order, and fails exactly when one of them is undefined; the commands of an issue message are those of all the parts between its commas, in order. |
| `IssueRun.RunWebConfig` | src/rrdMsgPackDecoder.c:321-370 | End to end: a web configuration array of plain strings without a tag at its end is joined, queued, received, split and worked through; unless the receiver fails at one of them, the commands are those of the strings of the array, in order, none an append request, and one for one when something is left of each. |
| `IssueRun.StringsConcat` | src/rrdMsgPackDecoder.c:321-370 | The strings of an array are those of its parts, one for each string item and none for any other. |
| `MessageLaws.TokensAre` | src/rrdMain.c:51-94 | An issue message has as tokens all the parts between its commas, a deep-sleep message one, a web configuration message none. |
| `MessageLaws.CommandOfToken` | src/rrdEventProcess.c:64-184 | A token gives one command with its base, its suffix and the flags of its message, a path only when dynamic; one with nothing left gives none. |
| `MessageLaws.CommandsConcat` | src/rrdEventProcess.c:64-184 | The commands of a message come token by token, in order. |
| `MessageLaws.IssueAsks` | src/rrdEventProcess.c:193-389 | A token asks for a package **if and only if** something is left of it, its category has at most 34 bytes, the request can be set, and either it is an append request and no profile is installed, or it is not dynamic and neither the static nor the installed profile lists it; the package is named after its category and recorded with the base, tagged for an append request. |
| `MessageLaws.WakeAsks` | src/rrdEventProcess.c:193-389 | A deep-sleep message asks for the deep-sleep package, named with the device profile when there is one, exactly on waking up. |
| `MessageLaws.RequestsLogged` | src/rrdDynamic.c:176-303 | A request that goes out is logged once for its token, and as failed exactly when it could not be set. |
| `MessageLaws.IssueMessageSays` | src/rrdInterface.c:209-227 | A queued text keeps everything but its tag, which becomes the append flag; nothing else is set. |
| `MessageLaws.InstalledMessageSays` | src/rrdIarmEvents.c:301-352 | The follow-up of an installation names the profile inside the installed package, and has either the append or the dynamic flag. |
| `MessageLaws.PathReachesCommand` | src/rrdIarmEvents.c:301-352 | The path of an installed package goes with the command of the issue that asked for it, and of an append request not at all. |
| `CommandRun.RunAppend` | src/rrdEventProcess.c:193-389 | From the routing of an append request to the shell, through all the buffers. A null pointer is read **if and only if** the installed profile lists the issue without a usable command, or has a usable one and the static profile lists it without. There is a text **if and only if** both have a usable one; it is what each command alone would give, joined by a semicolon, each half free of what the list of its own profile catches, and equal to the two meanings joined **if and only if** both commands are plain. |
| `Handlers.ProcessIssueType` | src/rrdEventProcess.c:193-389 | For every message, issue and contents of the three profile files, each outcome has its exact condition in terms of the files: a package is asked for **if and only if** it is an append request and no profile is installed, or a message that is neither append nor dynamic and neither the static nor the installed profile lists the issue; likewise for executing, executing the merged command (that of the two commands chosen), doing nothing, and the null read of an append request. |
| `Handlers.CategoryAppendFaults` | src/rrdEventProcess.c:530-592 | An append request for a whole category reads through a null pointer exactly when the installed profile lists the category. |
| `Handlers.DeviceAppendFaults` | src/rrdEventProcess.c:530-592 | An instance, from the received text: "Device_apnd". |
| `CommandMeaning.AppendIsTwoSingles` | src/rrdEventProcess.c:275-323 | For all commands: an append request hands the shell what requests for its two commands would hand it, joined by a semicolon. |
| `CommandMeaning.UnescapedSeam` | src/rrdRunCmdThread.c:251-270 | Unquoting works on both sides of a character that is neither quote nor backslash on its own. |
| `CommandFilter.AppendListsExact` | src/rrdCommandSanity.c:119-173 | The two lists of an append request, of patterns whose verdicts hold up to the shell: a plain pattern without macro stays out of the result, over all pairs of commands that pass, **if and only if** both lists catch it. |
| `CommandFilter.ListedByOne` | src/rrdCommandSanity.c:119-173 | A pattern used as either command is in the result, next to an empty command that every list passes. |
| `CommandFilter.NoMacroLeftExact` | src/rrdCommandSanity.c:85-102 | For every directory: the output of the substitution never holds a macro, across seams included, **if and only if** directory and macro are apart. |

## Left out

- Gzip compression and failing writes: the stream is the bytes given to it.
- `ArchiveReader.ArchiveRoundTrip`: its part about directories that do not open takes from the file system that no path
  is both a directory and a file.
- `CommandFilter.FilterExact`: is about patterns without backslash, control character, quote, ampersand and semicolon
  that do not begin with a blank; for others the stages themselves add or remove text. The sound direction needs only
  the last four.
- `CommandFilter.AppendListsExact`: is about lists whose patterns all are of the kind `CommandFilter.FilterExact` finds
  sound for the directory.
- `CommandFilter.HarmfulExact`: is about listed strings without backslash, control character and quote; any other
  listed string is looked for in its printed form.
- `IssueRun.RunWebConfig`: begins with an empty queue and an idle receiver, for arrays of plain strings without a tag at
  the end; any queue, message and interleaving is the matter of `Daemon.RunSchedule`.
- `ProtocolSafety.Conservation`: does not say that every request is eventually answered; an install event that arrives
  between the request and its recording finds no entry, and that request stays in the cache.
- `ProtocolSafety.AtMostOneDownload`: bounds append requests by their completions only, since a completed append
  request may ask again when its profile is still unreadable.
- `HandlerSteps.HandleToken`: runs request and recording without a pause; what may come between them is covered by
  `HandlerSteps.RequestToken` and `HandlerSteps.RecordEntry`, which hold from any state, and by `Daemon.RunSchedule`.
- `HandlerSteps.InstallPackage`: runs the three sections without a pause; `HandlerSteps.FindEntry`,
  `HandlerSteps.ActOnEntry` and `HandlerSteps.ForgetEntry` hold from any state, and `Daemon.RunSchedule` interleaves them.
- `HandlerSteps.HandleMessage`: runs the tokens of a message without a pause, as above. What the code does after reading
  a slot that was never set, or through a null pointer, is undefined, and so are the steps.
- Handlers of one event source running at the same time as each other: the model has one install event handler.
- The receive loop as a method: it never ends, so its body is one message.
- The comparison of a category's printed value with the bare deep-sleep name in the profile lookup: a printed value is
  never a bare word, so the branch is never taken.
- Commands of a whole category, and of the deep-sleep metrics: loops over the same selection and execution.
- The map loop around the IssueType array of a web configuration document, base64 and document bookkeeping.
- The handler variant for download events that reads the current parameter value again, and the no-op web configuration
  event.
- Executing the commands, output directories, systemd services, log files and the upload itself.
- The profile path buffers: which profile a path leads to is what reading it gives.
- Logging, tracing, profile category get and set, CPU and priority checks, locks of other daemons.
- Ownership and freeing of buffers.
