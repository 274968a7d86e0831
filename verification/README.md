# Verified models of the hand-written protocol code in kio-extras

The repository holds KDE's extra KIO workers. Five of them contain logic of their own instead of
wrapping a library, and this project models those five and proves what they promise:

- **FISH** (`fish/`): an asynchronous client of a shell-based file protocol. `received` reads a byte
  stream that switches between lines and counted data, `manageConnection` is the reply state machine,
  a queue of commands is worked off one reply at a time, and an output pump interleaves commands with
  raw uploads. The server script is modelled too, so that whole uploads can be followed.
- **NFS** (`nfs/`): a cache from paths to file handles filled by mutual recursion, the tree of virtual
  directories above the exports, a resumable copy through part files, short writes, paging, and the XDR
  codec.
- **man** (`man/`): man2html's expression evaluator, argument splitter, link inserter and markup state.
- **filename search** (`filenamesearch/`): the two-pass word-list parser.
- **archive** (`archive/`): the archive kept open between requests.

Code that updates state in place is modelled in that form: classes with `modifies` clauses, loops, an
array patched with NULs. Every such method is proved equal to a specification function, and the laws
are proved about these functions. `Text.dfy` holds the shared text helpers.

| files | what they model |
|---|---|
| `FishQuoting`, `FishCommands` | the text of a command: escaping, placeholders, the two forms |
| `FishModel`, `FishEngine` | the state and every member function, as functions and as the class proved against them |
| `FishStream`, `FishBytes`, `FishDownload` | the byte stream: chunks, carry-over, counted data, a whole download |
| `FishReplies` | whole answers to LIST, STAT and VER, and what result lines mean |
| `FishRuns` | the command queue over whole runs, the check before a write |
| `FishNames`, `FishOrders` | names as the server's patterns cut them out of a line, and what each operation orders |
| `FishServer`, `FishUpload`, `FishEnding`, `FishRounds`, `FishTexts` | the server, the two ends together, that an upload ends, the same read in whole buffers, and the real command texts |
| `NfsPaths`, `NfsExports` | path cutting, virtual directories |
| `NfsTree`, `NfsWalk`, `NfsChanges`, `NfsCoherence`, `NfsCache` | the server's tree, the slow walk, what changes do to it, and the cache |
| `NfsFiles`, `NfsCopy`, `NfsAttempts`, `NfsShortWrites`, `NfsTransfer` | file contents, the resumable copy, its attempts, WRITEs that fall short, uploads and listings |
| `Xdr`, `XdrLaws`, `XdrStream`, `XdrMessages`, `XdrPathconf` | the codec: specification, laws, the shared stream, the message types, the inlined path |
| `XdrLayout`, `XdrLaidOut` | every message of RFC 1813 field by field in bytes, and that the codec writes and reads just that |
| `ManExpr`, `ManExprLaws`, `ManArgs`, `ManMarkup` | man2html: expressions, arguments, markup |
| `ManLinks`, `ManLinksInPlace`, `ManLinkTargets`, `ManPlainLinks` | man2html's link inserter: what stays of a line, where links lead, and what is linked |
| `WordList`, `WordTokens` | the word-list parser, and patterns of words and phrases |
| `ArchiveCache` | the archive cache |

## What the code does not promise

Some natural claims are false of the code. The model keeps the code as it is, shows the failing case,
and proves the exact condition:

- A shell form goes wrong when an argument mentions a later placeholder (`MentionBreaks`,
  `TwoParametersExactly`); an escaped newline is no quoted newline (`ShellInverse`, `PerlInverse`).
- RENAME, COPY, LINK and SYMLINK do not name every pair of files: a newline in a name cuts the command line,
  and the server's patterns stop at, or skip, a vertical tab, form feed or carriage return, which nobody
  escapes (`TwoOrdered`, `GuardedOrders` say exactly when both names arrive; `ListOrdered`, `ChmodOrdered`,
  `CountOrdered`, `WriteOrdered` when one does).
- Bytes behind the reply that ends a chain are read or not depending on how the network cuts the stream
  (`ChunkIndependence` is an equivalence); a line that fills the receive buffer breaks the connection
  (`FullBufferBreaks`).
- A STOR or block whose end is read while output is pending loses the next command, and only then
  (`LosesExactly`, `ReadBeforeFlush`).
- The shell forms of LIST and STAT put a full stop where the client looks for a colon, so their owner lines
  are not understood (`OwnerHeard`); only the result 200 behind them hides it (`CodeMeans`).
- `rename`, `copy` and `symlink` do not reset what an earlier check found (`StaleCheck`).
- A directory rename leaves the cached handles below it (`DirectoryRenameCoherent`,
  `DirectoryRenameLeavesStale`); a removal whose reply is lost leaves one (`NfsClient.Remove`), and so
  does a file's rename whose reply, or whose lookup afterwards, is lost (`NfsClient.Rename`,
  `FileRenameUnnoticed`, `FileRenameLeavesStale`). An export offered after one below it is never recorded
  (`RecordedExactly`).
- `copySame` never asks for preferred sizes; with a buffer size of 0 it reports success for an empty
  file (`CopyResult`). Once an attempt has removed the destination and lost the rename (`DestCanVanish`),
  a further one loses the complete part file as well if it does not resume (`AttemptLoses`), if a look
  for the part file is lost, or if it resumes, the READ fails and the part is below the least size worth
  keeping (`ResumedLoses`); `AttemptHoldsExactly` and `AttemptsHoldExactly` say exactly when.
- The loop of `copySame` goes on by what it has read: a WRITE that takes less leaves a gap and the copy is
  still reported as done (`CopyExactly` says exactly when it is the source all the same).
- `put` counts in 32 bits: a WRITE that begins at 2 GiB or behind goes astray (`Upload.Put`, `OffsetExactlyBelow2GiB`).
- The inlined path of `xdr_PATHCONF3resok` passes flags on unnormalised (`PathconfWritten`, `PathconfRead`).
- An address written with "mailto:" in front is linked to "mailto:mailto:" (`WrittenMailto`), and a URL of any
  protocol is linked exactly if its line holds something like an HTTP or FTP URL (`UrlTurn`).
- `add_links` searches on from behind the terminator of a line cut off right behind a link
  (`StaysInside`, `MailAtEndStrays`).

## Model

| member | source | states |
|---|---|---|
| FishQuoting.EscapeInPlace | fish/fish.cpp:842-845 | the loop that inserts backslashes in place computes the character-wise escape |
| FishQuoting.ShellInverse | fish/fish.cpp:839-851 | shell unquoting (section 2.2.1 of the POSIX Shell Command Language) of an escaped argument is one word, the argument, exactly when it is non-empty and free of newlines |
| FishQuoting.PerlInverse | fish/fish.pl:310 | the server's unquoting gives the argument back exactly when it holds no newline |
| FishQuoting.SequentialIsSimultaneous | fish/fish.cpp:848 | replacing %1, %2, %3 in turn is the simultaneous substitution when no argument mentions a later placeholder |
| FishQuoting.TwoParametersExactly | fish/fish.cpp:848 | for two parameters that condition is exact |
| FishQuoting.MentionsEscaped | fish/fish.cpp:842-848 | escaping neither hides nor creates a mention of a placeholder |
| FishQuoting.MentionBreaks | fish/fish.cpp:848 | a file named `%2` breaks the shell form of a two-parameter command |
| FishEngine.FishProtocol.WriteChild | fish/fish.cpp:602-609 | accepts a buffer only when nothing is pending, and counts what it discards |
| FishEngine.FishProtocol.WriteStdin | fish/fish.cpp:1262-1273 | queues a line and starts the pump when it is idle |
| FishEngine.FishProtocol.Sent | fish/fish.cpp:1275-1306 | the pump's next move: more raw data, the padding newlines, or the next line |
| FishEngine.FishProtocol.SendCommand | fish/fish.cpp:830-858 | queues the real form and the shell form of a command with its code |
| FishEngine.FishProtocol.BuildForms | fish/fish.cpp:832-849 | the loop over the parameters builds both forms |
| FishEngine.FishProtocol.Finished | fish/fish.cpp:1439-1457 | issues the next queued command or ends the chain |
| FishEngine.FishProtocol.Error | fish/fish.cpp:1459-1467 | drops the queue and ends the chain with an error |
| FishEngine.FishProtocol.HandleResponse | fish/fish.cpp:863-881 | the code of a result line and the error count |
| FishEngine.FishProtocol.ManageConnection | fish/fish.cpp:917-1260 | one reply line: the whole new state, with the invariants kept |
| FishEngine.FishProtocol.Received | fish/fish.cpp:1308-1386 | the loop over a buffer does what feeding its bytes one by one does; what is left is an unfinished line; it ends |
| FishEngine.FishProtocol.ReadSome | fish/fish.cpp:1543-1578 | one read with the partial line moved to the front of the buffer |
| FishEngine.FishProtocol.Run | fish/fish.cpp:1469-1578 | the session loop equals the fold over its reads and writes |
| FishModel.ManageLineValid | fish/fish.cpp:917-1260 | every reply line keeps the invariants: paired queue, counted data inside the announced length |
| FishStream.ChunkIndependence | fish/fish.cpp:1308-1386 | with room for every read, all cuts of the stream give the same lines, data and state, exactly when nothing follows the end of the chain |
| FishStream.LoopIndependence | fish/fish.cpp:1469-1578 | in the loop with its buffer, for lines shorter than that, every session of reads ends in the state one pass over the stream leaves |
| FishStream.BytewiseSame | fish/fish.cpp:1484-1578 | with writes between the reads, too, the sizes of the reads make no difference: a session that reads no byte behind the end of the chain ends as if it had read byte by byte |
| FishStream.SameSchedule | fish/fish.cpp:1484-1578 | so two sessions that write between the same bytes end in the same state |
| FishStream.LoopFeeds | fish/fish.cpp:1543-1571 | whatever is offered to the loop, the engine is fed what the reads took, in order |
| FishStream.LoopIsReads | fish/fish.cpp:1543-1571 | for pieces that fit the buffer the loop does what reading without a buffer does |
| FishStream.FullBufferBreaks | fish/fish.cpp:1561-1569 | a read breaks the connection exactly if an unfinished line fills the buffer |
| FishStream.SplitRead | fish/fish.cpp:1561-1569 | one large read does what two smaller ones do |
| FishStream.CutsDiffer | fish/fish.cpp:1484-1578 | bytes behind the end of the chain make two cuts differ |
| FishStream.RunReadsAll | fish/fish.cpp:1543-1578 | with room for every read, reads over any cuts equal one pass over the stream |
| FishBytes.CountedDownload | fish/fish.cpp:1315-1358 | from the line that opens counted data on, read and unread bytes add up to the announced length, the type buffer is never overrun, and the payload is exactly those bytes |
| FishDownload.StartHeard | fish/fish.cpp:1134-1156 | the 100 or 001 line of RETR opens counted data of the announced length, or reports an empty file |
| FishDownload.Retrieved | fish/fish.cpp:1117-1166 | size line, preliminary line, data and result line: the worker gets the type and size, exactly the file's bytes, the end of data, and the chain ends |
| FishReplies.EntryUnderstood | fish/fish.pl:219-237 | every line the server prints of a file, its time or size in the shell's form included, is understood and accounted for, and exactly one entry ends with it |
| FishReplies.OwnerHeard | fish/fish.cpp:1015-1019 | the owner line of a shell listing counts against it exactly if no name in it holds a colon |
| FishReplies.StrangeHeard | fish/fish.cpp:941-1099 | so does a line that begins like none of an entry |
| FishReplies.Listed | fish/fish.cpp:924-1116 | the whole answer to LIST or STAT: the number of entries and one report for each, or the one of STAT, and the chain ends |
| FishReplies.Checked | fish/fish.cpp:1102-1110 | the whole answer to a check: the target is there exactly if an entry is listed or was found before; without leave to overwrite that is the error, and otherwise there is none |
| FishReplies.Issued | fish/fish.cpp:1439-1457 | a command issued as the last of its chain is in the state those results and `FishDownload.Retrieved` start from |
| FishReplies.VersionHeard | fish/fish.cpp:925-929 | the server can append exactly if "append" is among the words of its answer |
| FishReplies.OtherVersion | fish/fish.cpp:930-933 | any other version ends the chain and the connection |
| FishReplies.CodeMeans | fish/fish.cpp:865-876 | a result code stands for itself, but 000 and 001 for (preliminary) success or failure by whether all lines were accounted for |
| FishReplies.NoCode | fish/fish.cpp:867-869 | a result without a number is a failure |
| FishReplies.SizeMissing | fish/fish.cpp:1119-1129 | a missing size ends a download: an empty line as a directory, anything else with the connection |
| FishReplies.RefusalTells | fish/fish.cpp:1167-1228 | a refusal ends the chain with the one error of its command, and the connection for exactly seven of them |
| FishBytes.DownloadThenLine | fish/fish.cpp:1315-1386 | the byte behind counted data starts the next line |
| FishBytes.CarryOver | fish/fish.cpp:1561-1569 | a carried-over partial line and the new bytes are read as one |
| FishBytes.FlushKeeps | fish/fish.cpp:1509-1540 | a partial write keeps the invariants and leaves the replies alone |
| FishRuns.RunInOrder | fish/fish.cpp:1439-1466 | over every run commands leave in the order queued, at most one unanswered, codes and texts paired |
| FishRuns.GuardedWrite | fish/fish.cpp:1232-1235 | the guarded command goes out exactly when the check failed or found nothing; otherwise nothing goes out any more |
| FishRuns.GuardedOperations | fish/fish.cpp:1407-1437 | without Overwrite, put, rename, symlink and copy begin with the check and queue the write behind it |
| FishOrders.GuardedOrders | fish/fish.cpp:1655-1753 | read by the server, rename, symlink and copy check the target unless it may be overwritten, then name the source first and the target second, then set the target's permissions behind a copy; exactly if both names arrive |
| FishOrders.NothingGuarded | fish/fish.cpp:1655-1753 | without a path they only ask for the working directory |
| FishOrders.PutOrders | fish/fish.cpp:1407-1437 | put checks its file and creates it, exactly if the name arrives |
| FishOrders.NextOrders | fish/fish.cpp:1239-1256 | the next block goes to the place it belongs to, and at the end the permissions, all to the same file |
| FishOrders.TwoOrdered | fish/fish.pl:54-112 | a command on two names reaches the server with both, in order, exactly if both arrive |
| FishOrders.ListOrdered | fish/fish.pl:153-160 | LIST reaches it with its name, exactly if that arrives |
| FishOrders.ChmodOrdered | fish/fish.pl:123-127 | CHMOD with mode and name |
| FishOrders.CountOrdered | fish/fish.pl:165-172 | STOR and APPEND with count and name |
| FishOrders.WriteOrdered | fish/fish.pl:161-164 | WRITE with offset, count and name |
| FishNames.TwoNamesExactly | fish/fish.pl:54-112 | the server's pattern for two names gives both back exactly under a condition on where odd white space stands |
| FishNames.OneNameExactly | fish/fish.pl:153-172 | its pattern for one name gives it back exactly if the name neither begins nor ends with such white space |
| FishRuns.StaleCheck | fish/fish.cpp:1672-1677 | an earlier finding makes a rename fail although its target is not listed |
| FishServer.ServeAppend | fish/fish.pl:38-42 | the server reads its input byte by byte: what comes in pieces is served as a whole |
| FishServer.ParseWrite | fish/fish.pl:161-164 | a written WRITE command is parsed back to its numbers and path |
| FishServer.ParseAppend | fish/fish.pl:165-168 | a written APPEND command is parsed back |
| FishServer.ParseStor | fish/fish.pl:169-172 | a written STOR command is parsed back |
| FishServer.ServeRaw | fish/fish.pl:278-308 | the counted bytes of a block overwrite the file from the position on, a gap filled with zeros |
| FishServer.OverlaidAtEnd | fish/fish.pl:278-308 | at the end of the file that appends |
| FishUpload.UploadIsExact | fish/fish.cpp:1230-1306 | for every interleaving with the server nothing is discarded, the only error is an existing file, left as it was, and a finished upload equals all the data in order |
| FishUpload.FreshAtRest | fish/fish.cpp:246-288 | a fresh connection is in the state the upload results start from, whatever is to be uploaded |
| FishUpload.NeverStuck | fish/fish.cpp:1469-1578 | in every interleaving of an upload one side can move until the chain ends |
| FishRounds.LineLeaves | fish/fish.cpp:1504-1508 | during an upload a reply line that makes the engine write, or ends the chain, is the last one there is to read |
| FishRounds.RoundsAreMoves | fish/fish.cpp:1484-1578 | every session of the loop, its reads as large as the buffer, is a run of single bytes heard and written, each possible when its turn comes |
| FishRounds.SessionIsExact | fish/fish.cpp:1484-1578 | so in every such session with the server, the check's answer in lines shorter than the buffer, nothing is discarded and a finished upload is exact |
| FishRounds.EnginesAreTheLoop | fish/fish.cpp:1484-1578 | between two bytes of the server those rounds are the loop |
| FishEnding.UploadEnds | fish/fish.cpp:1469-1578 | whatever productive moves are made, an upload ends after finitely many, with the file uploaded, or untouched if it exists and must not be replaced |
| FishEnding.EagerUploadEnds | fish/fish.cpp:1509-1541 | so it does for an engine that reads as soon as it may and writes all it has |
| FishEnding.MoveCloser | fish/fish.cpp:1262-1306 | every move that hears, carries or writes something brings the end of the chain closer |
| FishUpload.LosesExactly | fish/fish.cpp:602-609 | the end of a STOR or block, once read, loses the whole next command exactly when output is pending and the pump is free |
| FishUpload.ReadBeforeFlush | fish/fish.cpp:602-609 | so read before the padding is flushed it makes the next command vanish for good |
| FishTexts.TextsAreSpelled | fish/fish.cpp:182-244 | the texts really sent meet what the upload theorems need of them |
| NfsPaths.PrefixAgrees | nfs/kio_nfs.cpp:525-535 | string prefix with a slash is strict component prefix, both ways |
| NfsPaths.JoinInjective | nfs/kio_nfs.cpp:629-637 | equal cleaned paths have equal components |
| NfsPaths.ParentOf | nfs/nfsv3.cpp:1764-1773 | the parent and file name of a cleaned path are its components cut at the last one |
| NfsExports.ExportTable.IsExportedDir | nfs/kio_nfs.cpp:505-538 | true exactly for the root and proper prefixes of exports |
| NfsExports.ExportTable.IsValidPath | nfs/kio_nfs.cpp:612-641 | true exactly for the root and paths at or below an export |
| NfsExports.ExportTable.RemoveExportedDir | nfs/kio_nfs.cpp:540-543 | removes the first equal entry and no other |
| NfsExports.ExportTable.ListDirInternal | nfs/kio_nfs.cpp:796-853 | lists a virtual directory, nothing for any other path |
| NfsExports.VirtualAgrees | nfs/kio_nfs.cpp:505-538 | the string test is the test on component lists |
| NfsExports.OnServerAgrees | nfs/kio_nfs.cpp:612-641 | the string test is the test on component lists |
| NfsExports.ListingIsNextComponents | nfs/kio_nfs.cpp:805-834 | a listing holds, each once, exactly the next components of exports below; each is an export or again virtual |
| NfsExports.ListingsReachEveryExport | nfs/kio_nfs.cpp:796-853 | following listings from the root reaches exactly the exports and the directories above them |
| NfsWalk.RouteOfCleaned | nfs/kio_nfs.cpp:553-606 | the recursion on the parent walks from the longest export covering a path, component by component |
| NfsWalk.RemovalKeeps | nfs/nfsv3.cpp:1872-1888 | removing a file or an empty directory moves no other handle |
| NfsWalk.AdditionKeeps | nfs/nfsv3.cpp:1706-1718 | a new entry moves no handle and leads only to its file |
| NfsChanges.FileMove | nfs/nfsv3.cpp:1949-1955 | a moved file changes only its two names, whatever was at the new one |
| NfsChanges.NewDirectory | nfs/nfsv3.cpp:718-724 | a new directory leaves all handles as they were and leads to itself; still every directory has one path |
| NfsChanges.MoveKeeps | nfs/nfsv3.cpp:1949-1955 | a moved directory leaves all handles outside it |
| NfsChanges.MoveEnds | nfs/nfsv3.cpp:1949-1955 | below the old name of a moved directory no path is left |
| NfsCoherence.RemovalCoherent | nfs/nfsv3.cpp:1890-1897 | after a removal the cache without the path agrees with the walk |
| NfsCoherence.CreationCoherent | nfs/nfsv3.cpp:1664-1719 | after a creation the whole cache agrees, and the path leads to its file |
| NfsCoherence.MakeDirCoherent | nfs/nfsv3.cpp:680-726 | after MKDIR the whole cache agrees, and the path, which led nowhere, leads to the new directory |
| NfsCoherence.FileRenameCoherent | nfs/nfsv3.cpp:1957-1967 | after a file rename the cache as updated agrees |
| NfsCoherence.DirectoryRenameCoherent | nfs/nfsv3.cpp:1957-1967 | after a directory rename it agrees exactly when nothing below the old name was cached |
| NfsCoherence.DirectoryRenameLeavesStale | nfs/nfsv3.cpp:1957-1967 | a concrete directory rename after which a cached path is no path |
| NfsCache.NfsClient.constructor | nfs/nfsv3.cpp:228-302 | mounting records the exports and handles as specified, without the root, and a cache that agrees with the walk |
| NfsCache.RecordedExactly | nfs/nfsv3.cpp:255-280 | an offered export is recorded exactly if none below it was offered earlier |
| NfsCache.RecordedVirtual | nfs/nfsv3.cpp:255-280 | the virtual directories are those above any offered export, in whatever order they come |
| NfsCache.NfsClient.GetFileHandle | nfs/kio_nfs.cpp:553-606 | returns what the slow walk finds; without a failing call finds what there is; every error has its reason; ends |
| NfsCache.NfsClient.LookupFileHandle | nfs/nfsv3.cpp:143-150 | a lookup that keeps the cache right |
| NfsCache.NfsClient.LookupHandle | nfs/nfsv3.cpp:1754-1789 | the entry of the walked parent, through the cache |
| NfsCache.NfsClient.Create | nfs/nfsv3.cpp:1664-1719 | keeps the cache right however the call goes; the returned handle is the path's; with every call answered it succeeds exactly if the parent is a directory and nothing or a file is there |
| NfsCache.NfsClient.MakeDir | nfs/nfsv3.cpp:680-726 | keeps the cache right however the call goes; a changed tree has the directory at the path, and there was none before; with every call answered it succeeds exactly if the parent is a directory and nothing is there |
| NfsCache.EntryWalk | nfs/nfsv3.cpp:535-540 | below a directory that is not virtual no entry is an export: its handle is the one a lookup in the directory gives |
| NfsCache.NfsClient.ListDirCompat | nfs/nfsv3.cpp:472-599 | every handle a listing caches is the walked one; without a failing call it shows exactly the names that can be looked up |
| NfsCache.NfsClient.ListDir | nfs/nfsv3.cpp:310-470 | so for the handles that come with READDIRPLUS; each valid one the walk finds is cached |
| NfsCache.NfsClient.Remove | nfs/nfsv3.cpp:1834-1897 | with every call answered it succeeds exactly on a file or an empty directory; the cache stays right except when the object went, its reply was lost and the path is cached |
| NfsCache.NfsClient.Rename | nfs/nfsv3.cpp:1907-1970 | with every call answered a file goes onto a free name or a file, and a directory onto a free name outside itself; after a file's rename the cache is right exactly if nothing went, every call was answered, or neither name is cached; after a directory's exactly when nothing below was cached |
| NfsCoherence.FileRenameUnnoticed | nfs/nfsv3.cpp:1957-1969 | a file's rename that the client does not note leaves the cache right exactly if neither name is cached |
| NfsCoherence.FileRenameLeavesStale | nfs/nfsv3.cpp:1957-1969 | a concrete one after which a cached path is no path |
| NfsCopy.Copier.Copy | nfs/nfsv3.cpp:970-1185 | the whole attempt, its WRITEs whole, equals its specification |
| NfsCopy.Copier.TransferData | nfs/nfsv3.cpp:1109-1159 | the read and write loop, its WRITEs whole, equals its specification and ends |
| NfsCopy.CopyResult | nfs/nfsv3.cpp:970-1185 | an attempt leaves the part file absent or a prefix; success means exactly the source, given a buffer; without one what was resumed or nothing; without a failing call it succeeds |
| NfsCopy.CopyFaultless | nfs/nfsv3.cpp:970-1185 | with every call answered an attempt copies, unless it must not replace a file |
| NfsCopy.BrokenPart | nfs/nfsv3.cpp:1161-1171 | an attempt that breaks off keeps the part file exactly if at least the least size worth keeping was acknowledged, unless the removal fails |
| NfsCopy.AttemptHolds | nfs/nfsv3.cpp:1161-1185 | at every step the old destination is intact or a complete copy exists, if the attempt finds either in place |
| NfsAttempts.AttemptHoldsExactly | nfs/nfsv3.cpp:1017-1185 | an attempt loses nothing at any step exactly if it starts with the old destination or a copy in place, or its calls leave the complete part file alone |
| NfsAttempts.AttemptLoses | nfs/nfsv3.cpp:1040-1045 | with neither in place, an attempt that does not resume loses the complete part file though every call is answered |
| NfsAttempts.ResumedKeeps | nfs/nfsv3.cpp:1035-1046 | one that may resume loses nothing if every call is answered |
| NfsAttempts.ResumedLoses | nfs/nfsv3.cpp:1161-1168 | a resumed attempt whose READ fails removes a complete part file shorter than the least size worth keeping |
| NfsCopy.DestCanVanish | nfs/nfsv3.cpp:1174-1185 | an attempt whose last call is lost ends with the destination gone |
| NfsAttempts.AttemptsKeep | nfs/nfsv3.cpp:970-1185 | over any number of attempts the part file is a prefix and the destination is the old one, absent, or the source |
| NfsAttempts.AttemptsHoldExactly | nfs/nfsv3.cpp:970-1185 | over any number of attempts, at every step the old destination is intact or the part file or the destination is the complete source, exactly if every attempt starts in place or leaves the part file alone |
| NfsCopy.TransferPrefix | nfs/nfsv3.cpp:1109-1159 | the target only grows, as a prefix of the source |
| NfsShortWrites.Mover.TransferData | nfs/nfsv3.cpp:1109-1159 | the loop, each WRITE taking any part of its bytes, equals its specification and ends |
| NfsShortWrites.Copy | nfs/nfsv3.cpp:970-1185 | the whole attempt with that loop equals its specification |
| NfsShortWrites.CopyExactly | nfs/nfsv3.cpp:1109-1185 | a copy reported as done is the source exactly if what it resumed was the source's beginning, every byte its WRITEs left is zero, and the last one left none |
| NfsShortWrites.StoresExactly | nfs/nfsv3.cpp:1138-1157 | the turns of a loop leave the source exactly under that condition, from any offset on |
| NfsShortWrites.LoopStores | nfs/nfsv3.cpp:1109-1159 | a loop that ends well has gone through the source and stored what was taken, each part at its offset |
| NfsShortWrites.WholeIsTransfer | nfs/nfsv3.cpp:1109-1159 | with whole WRITEs the loop is that of `NfsCopy.Copier.TransferData` |
| NfsTransfer.Upload.Put | nfs/nfsv3.cpp:897-941 | with servers taking any positive part of each WRITE the file ends as all data supplied exactly if the last WRITE, of at most a buffer's length, begins below 2 GiB |
| NfsTransfer.OffsetExactlyBelow2GiB | nfs/nfsv3.cpp:932-933 | the write offset is right exactly below 2 GiB |
| NfsTransfer.ListDirCompat | nfs/nfsv3.cpp:499-531 | paging collects every name but ".." in order, for every choice of page sizes |
| NfsTransfer.ListedMeans | nfs/nfsv3.cpp:523-526 | each name but ".." is collected exactly as often as it is an entry |
| XdrLaws.RoundTrip | nfs/rpc_nfs3_prot_xdr.c:18-2060 | decode(encode(v) + rest) is v and rest, for every canonical value of every type |
| XdrLaws.PrefixFree | nfs/rpc_nfs3_prot_xdr.c:18-2060 | an encoding decides its value and its end |
| XdrLaws.FourBytes | nfs/rpc_nfs3_prot_xdr.c:18-2060 | encoded lengths are multiples of four |
| XdrLaws.DecodedFits | nfs/rpc_nfs3_prot_xdr.c:18-1752 | whatever is decoded is canonical: limits, booleans, selected arms; the inlined flags of `xdr_PATHCONF3resok` are not decoded this way |
| XdrLaws.RoundTripChain | nfs/rpc_nfs3_prot_xdr.c:1452-1572 | the same for linked lists of any length |
| XdrStream.Stream.Code | nfs/rpc_nfs3_prot_xdr.c:18-2060 | one function for both directions writes the encoding, or fails for want of room, and reads what decoding says |
| XdrStream.Stream.CodeUnion | nfs/rpc_nfs3_prot_xdr.c:264-284 | the tag, then the arm it selects; an unknown tag fails |
| XdrStream.Stream.CodeChain | nfs/rpc_nfs3_prot_xdr.c:1452-1485 | a flag before each node, a false one at the end |
| XdrStream.Stream.CodeNode | nfs/rpc_nfs3_prot_xdr.c:1452-1467 | a node, then the chain its link begins |
| XdrStream.Stream.CodeArray | nfs/rpc_nfs3_prot_xdr.c:1958-1960 | a counted array within its limit |
| XdrMessages.MessageRoundTrip | nfs/rpc_nfs3_prot_xdr.c:511-2060 | the round trip for each message of the two protocols; what each looks like is said by the next four |
| XdrLaidOut.CallOnWire | nfs/rpc_nfs3_prot_xdr.c:511-1882 | the arguments of every procedure are the bytes RFC 1813 lays out, field by field, and are read back from them; a field out of range is neither written nor read |
| XdrLaidOut.SuccessOnWire | nfs/rpc_nfs3_prot_xdr.c:523-1992 | so for every reply of status 0 and its fields |
| XdrLaidOut.FailureOnWire | nfs/rpc_nfs3_prot_xdr.c:533-1992 | so for every other status and the fields of the failure |
| XdrLaidOut.ListsOnWire | nfs/rpc_nfs3_prot_xdr.c:1992-2060 | so for the lists of mounts and exports |
| XdrLaidOut.OtherModes | nfs/rpc_nfs3_prot_xdr.c:929-951 | a CREATE of any other mode is not read |
| XdrPathconf.CodePathconf | nfs/rpc_nfs3_prot_xdr.c:1763-1836 | the whole function in both directions: attributes, two words, and the flags, inlined or not |
| XdrPathconf.InlineFlags | nfs/rpc_nfs3_prot_xdr.c:1785-1815 | the flags copied as plain words |
| XdrPathconf.SlowFlags | nfs/rpc_nfs3_prot_xdr.c:1776-1783 | the flags by `xdr_bool`, normalised |
| XdrPathconf.PathconfWritten | nfs/rpc_nfs3_prot_xdr.c:1767-1791 | the slow path writes the format; for 32-bit flags the inlined one writes the same bytes exactly if every flag is 0 or 1 |
| XdrPathconf.PathconfRead | nfs/rpc_nfs3_prot_xdr.c:1792-1816 | both paths read whenever decoding does and leave the same rest; the inlined value is the decoded one, and canonical, exactly if every flag word is 0 or 1 |
| XdrPathconf.WordsRead | nfs/rpc_nfs3_prot_xdr.c:1785-1815 | inlined flags are read back exactly |
| ManExpr.ScanExpression | man/man2html.cpp:2599-2797 | the scanner with its loop and recursion equals its specification and ends |
| ManExpr.ScanNumber | man/man2html.cpp:2672-2708 | the digit loops, the decimals and the scale letter |
| ManExprLaws.ScanPrinted | man/man2html.cpp:2654-2796 | scanning a written expression gives its value from left to right and stops exactly behind it |
| ManExprLaws.ConditionRead | man/man2html.cpp:2607-2614 | a condition is found true exactly if it holds: `n` in nroff mode, `t` out of it, `!` negates, an expression if it is not 0 |
| ManExprLaws.LiteralRead | man/man2html.cpp:2683-2706 | a literal gives the nearest integer, half up, ten times as much under `i` |
| ManExprLaws.OperandTerm | man/man2html.cpp:2656-2660 | an operand, signed or in parentheses, is applied with the pending operator |
| ManExprLaws.ApplyMeaning | man/man2html.cpp:2744-2787 | each operator code means its operator; division by zero is ignored |
| ManArgs.GetArguments | man/man2html.cpp:2831-2922 | the loop equals its specification |
| ManArgs.ArgumentsRoundTrip | man/man2html.cpp:2831-2922 | arguments in quotes and words, with escape sequences, hard spaces and folded lines inside, any spaces around and a comment behind them, come back in order, the cursor behind their line |
| ManLinks.LinksConserve | man/man2html.cpp:723-1006 | what is put out stands for the line, in order, nothing lost and nothing twice |
| ManLinks.CutConserves | man/man2html.cpp:737-991 | in each of the six cases the cursor moves on inside the line and the output is what it passed |
| ManLinks.ErasedIsLine | man/man2html.cpp:723-1006 | with inserted tags erased the output is the line, white space around a linked header name apart |
| ManLinkTargets.LinksLead | man/man2html.cpp:723-1006 | every link of every line leads where its text says: hosts by their first letters, addresses, URLs to themselves, pages by the section behind them, headers to where they can be read |
| ManPlainLinks.HostLinked | man/man2html.cpp:875-907 | a host name in an otherwise plain line is linked, as far as its characters go |
| ManPlainLinks.MailLinked | man/man2html.cpp:908-947 | so is an address |
| ManPlainLinks.WrittenMailto | man/man2html.cpp:908-947 | with "mailto:" in front it is linked with that doubled |
| ManPlainLinks.UrlLinked | man/man2html.cpp:948-988 | so is an HTTP or FTP URL |
| ManPlainLinks.UrlTurn | man/man2html.cpp:948-988 | a URL of any protocol is linked exactly if the line holds something like an HTTP or FTP URL |
| ManPlainLinks.PageLinked | man/man2html.cpp:790-874 | so is a name with a section |
| ManPlainLinks.PageTurn | man/man2html.cpp:790-874 | a name in front of a parenthesis is linked exactly if a section follows: a digit but 0 or an n, at most nine more letters and digits beginning with a letter |
| ManPlainLinks.HeaderLinked | man/man2html.cpp:739-789 | so is a header that can be read |
| ManLinks.NewlineStays | man/man2html.cpp:1058-1067 | a line that ends in a newline is searched inside only |
| ManLinks.MailAtEndStrays | man/man2html.cpp:908-994 | a line cut off behind a mail address is not: a search begins behind its terminator |
| ManLinksInPlace.Linker.AddLinks | man/man2html.cpp:700-1007 | the version that patches NULs into the buffer and keeps six pending matches searches inside the line exactly if no turn strays, and then puts out the same pieces, and ends |
| ManLinksInPlace.Linker.CaseInclude | man/man2html.cpp:739-789 | a header name in angle brackets |
| ManLinksInPlace.Linker.CaseManPage | man/man2html.cpp:790-874 | a name with a section |
| ManLinksInPlace.Linker.CaseHost | man/man2html.cpp:875-907 | host names beginning with www. or ftp. |
| ManLinksInPlace.Linker.CaseMail | man/man2html.cpp:908-947 | a mail address, with or without "mailto:" |
| ManLinksInPlace.Linker.CaseUrl | man/man2html.cpp:948-988 | a URL |
| ManLinksInPlace.Linker.Refresh | man/man2html.cpp:992-1005 | only passed matches are looked for again; no search begins behind the terminator exactly if no such match is due there, and then all six are right |
| ManMarkup.Markup.SetFont | man/man2html.cpp:1087-1157 | the tags and the new font |
| ManMarkup.Markup.ChangeToSize | man/man2html.cpp:1161-1203 | the tags and the new size |
| ManMarkup.RunStack | man/man2html.cpp:1087-1203 | over every run of calls the tags nest, the span of the current size with its percentage outside, that of the current font inside, sizes within 9 |
| ManMarkup.ChangeToSizeStack | man/man2html.cpp:1161-1203 | a digit sets that size, 0 the plain one, anything else changes it as far as 9 allows; font and nesting stay |
| ManMarkup.FontAsked | man/man2html.cpp:1087-1157 | a font request leaves open the span of that font, or none for an unknown one, and the size as it is |
| ManMarkup.RunCloses | man/man2html.cpp:1087-1203 | setting font R and then size 0 closes everything |
| WordList.EscapeApostrophes | filenamesearch/kio_filenamesearch.cpp:338-417 | the loop with its deferred quote equals its specification |
| WordList.OnlyInserts | filenamesearch/kio_filenamesearch.cpp:338-417 | on every pattern only backslashes before single quotes are inserted |
| WordList.SplitWordList | filenamesearch/kio_filenamesearch.cpp:422-472 | the loop equals its specification, which `WordTokens.TokensComeBack` is about |
| WordList.WrittenUnchanged | filenamesearch/kio_filenamesearch.cpp:338-417 | protected phrases pass the first pass unchanged |
| WordList.WordListRoundTrip | filenamesearch/kio_filenamesearch.cpp:422-472 | phrases written in quotes come back in order |
| WordTokens.TokensEscaped | filenamesearch/kio_filenamesearch.cpp:338-417 | of words and phrases in either quotes the first pass marks the apostrophes inside words and nothing else |
| WordTokens.TokensComeBack | filenamesearch/kio_filenamesearch.cpp:338-472 | words, apostrophes included, and phrases in either quotes come back in order through both passes |
| ArchiveCache.FindArchive | archive/kio_archivebase.cpp:87-130 | the loop over the prefixes equals its specification |
| ArchiveCache.WalkFindsShortest | archive/kio_archivebase.cpp:87-130 | the walk finds the shortest prefix that is no directory |
| ArchiveCache.FoundIsShortest | archive/kio_archivebase.cpp:87-130 | and finds no other |
| ArchiveCache.InsideIs | archive/kio_archivebase.cpp:113-124 | the path inside is what stands behind the archive's name, without slashes around it, or "/" |
| ArchiveCache.WalkExactly | archive/kio_archivebase.cpp:87-136 | a path is a directory exactly if every prefix tried is one and one was tried; otherwise the first prefix that is neither directory nor file decides the error |
| ArchiveCache.KeptAgreesWithWalk | archive/kio_archivebase.cpp:58-70 | on an unchanged file system the kept archive is the one the walk would find, with the same path inside but for slashes at its ends |
| ArchiveCache.ArchiveWorker.CheckNewFile | archive/kio_archivebase.cpp:49-163 | an open archive always matches the recorded name and time; the kept one is used exactly when it serves the path and has not changed |

## Left out

- FishEngine.FishProtocol: the class groups the fields of the source into four records; one turn of `received` that takes raw bytes and then a line is two turns.
- FishServer: models fish.pl for one file whose opens succeed; the shell fallbacks are text that the server skips.
- FISH: login, passwords, processes and ptys, KIO signals for progress, MIME detection (an opaque event) and what directory entries are filled with; `del`, `mkdir`, `chmod` and `special`, each one command.
- FishUpload.UploadIsExact: for `put`; needs pending output flushed before the next read, as `LosesExactly` shows it must be.
- NfsCache: symbolic links, handles of length 0, and paths with "." or ".." components; the tree changes through this client only.
- NfsCache.NfsClient.Create: says nothing of attributes; the server's choice of an unused handle is a parameter.
- NfsCache.NfsClient.MakeDir: the same; the handle is none that mounting gave.
- NfsCache.NfsClient.ListDirCompat: READDIR itself is in `NfsTransfer.ListDirCompat`; here the names it gave are a parameter, and so are the entries of READDIRPLUS for ListDir.
- FishRounds.SessionIsExact: for answers to the check whose lines fit the receive buffer; a longer one breaks the connection (`FullBufferBreaks`).
- NfsCoherence.DirectoryRenameCoherent: for a new name that is free; RENAME onto an empty directory is not followed.
- NfsCopy: what the handle cache contributes, the source being a link, and restoring the modification time.
- NfsCopy.Copier.Copy: takes every acknowledged WRITE to have stored all its bytes, and so do the results about attempts in NfsCopy and NfsAttempts; section 3.3.7 of RFC 1813 allows less, which is what `NfsShortWrites.Copy` is about.
- NfsCopy.Copier.TransferData: the same; without that it is `NfsShortWrites.Mover.TransferData`.
- NfsShortWrites.Copy: its WRITEs are one change of the files, so it has no results on what is there between them.
- NfsTransfer.Upload.Put: assumes a write buffer size above 0; with 0, which a file new to the server can meet because sizes are only asked for when it exists, the loop writes nothing for ever.
- NfsTransfer.ListDirCompat: against a directory that does not change; attributes and link targets of the entries are left out.
- READDIRPLUS paging: its cookie is not advanced for "." and "..".
- Xdr: values wider than 32 bits in `u_long` fields, strings holding a NUL, and freeing (`XDR_FREE`).
- ManExpr.ScanExpression: integers are unbounded; string comparisons and escape sequences are parameters.
- ManLinksInPlace.Linker.AddLinks: stops where a search would begin behind the terminator; what the source finds there, left over from older lines, is not modelled.
- ManArgs.GetArguments: the optional list of pointers into the line.
- ManMarkup: the CSS text of each span.
- man2html's other requests, tables, conditionals and number registers.
- WordList.WordListRoundTrip: `escapePhrase` is any function that keeps non-empty phrases non-empty; white space is ASCII.
- The visited set of `searchDir`, regular expressions and file contents in the filename search.
- ArchiveCache.KeptAgreesWithWalk: needs that a directory is none with a slash behind it, which every file system grants.
- The workers that only wrap libraries (MTP, AFC, SMB, SFTP, thumbnails, info, filter, recently used, activities).
