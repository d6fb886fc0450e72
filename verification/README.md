# Verified model of the distributed job

The repository splits a data file over several machines, streams each part to a worker
that already processes the bytes while they are still arriving, and combines the partial
results by exclusive or. This project models the Linux variant of that path and proves
what the final number is, for every schedule of the threads, every fragmentation of the
transfers and every content of the file. It also covers the command prompt's correction
of misspelt commands.

| file | what it models |
|---|---|
| `Words.dfy`, `Decimal.dfy` | C integers: exclusive or, conversion to `int`, printing and parsing |
| `Files.dfy`, `CStrings.dfy`, `Sockets.dfy` | positional reads, strings in buffers, and sockets with partial sends and receives |
| `Splitter.dfy`, `Partition.dfy`, `Lines.dfy` | how the file is divided, when that is a partition, when it cuts between lines |
| `Wire.dfy`, `Transfer.dfy`, `Overrun.dfy` | the byte stream of a file transfer, the loops at both ends, and what a failed partition does to them |
| `Feed.dfy`, `Consumer.dfy` | feeding the child process and the worker's consumer loop, as sequential programs |
| `Worker.dfy`, `Invariant.dfy` | one job on a worker as a concurrent step system, and what every step keeps |
| `Handoff.dfy`, `Overlap.dfy` | ordering of the handoffs, the gate, series of jobs, and exactly when a job that overlaps the previous handler goes wrong |
| `Progress.dfy` | termination |
| `Completion.dfy`, `Schedules.dfy`, `Segments.dfy`, `Necessity.dfy` | schedules that exist, exactly how the slice can be consumed, and exactly when the answer does not depend on it |
| `Answer.dfy`, `EndToEnd.dfy` | what a worker answers, and what the client prints |
| `EditDistance.dfy`, `Suggest.dfy` | `levenshtein` and `find_closest_command` |

## Assumptions

- Memory is sequentially consistent; a socket is a reliable first-in first-out byte stream.
- Each short command, status reply and result arrives in one receive.
- The user's program is a total function from its standard input to what it prints. What
  a node makes of the output, including -1 for output that is not a number, is modelled.
- No receive, read, write or process fails, and all bytes of a transfer arrive.
- Building `shared_outpath` and opening the file is one step, although three connections
  share that buffer.
- The base name of the code file is `main.cpp` and that of the train file `test.txt`.
- The directories of an output path can be created, no directory stands at the path itself,
  and different paths are different files.
- A job starts on a worker that is at rest, the previous handler having closed the gate;
  `Overlap.dfy` proves exactly when a job begun on the previous job's reply survives
  without that.

The threads of a worker interleave between any two shared accesses, so the worker is a
step system over values: a `Memory` that all threads share, the local variables of each
thread, and one `Action` for every shared read, write, receive, append, read of the train
file and write to the child. The loops that one thread runs on its own are methods with
the state they update (sockets, pipes, arrays, the worker's globals).

## Model

| member | source | states |
|---|---|---|
| Words.WrapIsConversion | src/Clients Commands/distributedcomputing/linuxdistributivecomputing.cpp:505-509 | conversion to a signed type yields the number of its range that is congruent modulo two to the width |
| Words.WrapXor | src/Clients Commands/distributedcomputing/linuxdistributivecomputing.cpp:505-509 | truncation commutes with exclusive or, at every width |
| Words.IntIsLow32 | src/Clients Commands/distributedcomputing/linuxdistributivecomputing.cpp:505-509 | the model's int is between -2^31 and 2^31 and differs from the number by a multiple of 2^32 |
| Words.XorAssoc | src/server commands/distributivecomputing/linuxdistributivecomputing.cpp:232-233 | exclusive or of signed numbers of any size is associative, so partial results can be grouped freely |
| Words.XorAllConcat | src/server commands/distributivecomputing/linuxdistributivecomputing.cpp:222-235 | folding a concatenation is combining the two folds |
| Decimal.ParsePrinted | src/server commands/distributivecomputing/linuxdistributivecomputing.cpp:139-148 | parsing undoes printing for every number of the width, with white space before it and any text after it that does not go on with a digit |
| Decimal.DigitsAreDecimal | src/server commands/distributivecomputing/linuxdistributivecomputing.cpp:237-238 | printed numbers are decimal, most significant digit first, in the characters 48 to 57 |
| Decimal.ParsesNumber | src/server commands/distributivecomputing/linuxdistributivecomputing.cpp:139-148 | white space, a sign or none, digits and anything that does not go on with one are read as the number they denote, unless it is out of range |
| Decimal.ParsesNothing | src/server commands/distributivecomputing/linuxdistributivecomputing.cpp:139-148 | everything without a digit in that place is turned down |
| Decimal.Ranges | src/Clients Commands/distributedcomputing/linuxdistributivecomputing.cpp:250 | `stoi` reads back printed numbers of 32 bits and turns down all others, `stoll` those of 64 |
| Decimal.ResultTransport | src/server commands/distributivecomputing/linuxdistributivecomputing.cpp:237-238 | every int survives `to_string` at the worker and `stoi` at the client, sign included |
| Splitter.AdjustToNextLine | src/Clients Commands/distributedcomputing/linuxdistributivecomputing.cpp:52-79 | under any short reads the result is one past the first newline, found within the reach of the scan, or the start and then the window has none |
| Splitter.ScanFindsFirst | src/Clients Commands/distributedcomputing/linuxdistributivecomputing.cpp:62-75 | the block scan refines a linear search: a newline in the window means the result is one past the first of them |
| Splitter.ScanIsDetermined | src/Clients Commands/distributedcomputing/linuxdistributivecomputing.cpp:62-78 | with full reads the result is determined by the file and the position |
| Splitter.ScanAttains | src/Clients Commands/distributedcomputing/linuxdistributivecomputing.cpp:62-78 | every result that description allows comes from some reads, and what it allows of full reads from full reads |
| Splitter.ChunkEnd | src/Clients Commands/distributedcomputing/linuxdistributivecomputing.cpp:111-131 | one round of the splitter: the end it settles on after the weighted share, the scan and the safeguard |
| Splitter.DivideFileIntoChunks | src/Clients Commands/distributedcomputing/linuxdistributivecomputing.cpp:83-142 | for every pattern of reads fills both arrays with the boundaries of those reads, a division of the file, or leaves them untouched for an empty file |
| Splitter.BoundaryByCases | src/Clients Commands/distributedcomputing/linuxdistributivecomputing.cpp:109-139 | every boundary in numbers: the share of 3 or 1 in n + 2 parts rounded down once, the newline 10 within 16384 bytes, 20479 with short reads, and the safeguard |
| Splitter.DivisionIsRun | src/Clients Commands/distributedcomputing/linuxdistributivecomputing.cpp:109-139 | every division is what the program makes of the file under some reads, and under full reads if it stays within their reach |
| Partition.UnconditionalLaws | src/Clients Commands/distributedcomputing/linuxdistributivecomputing.cpp:109-139 | chunk sizes sum exactly to the file size, and every chunk but the last is between nothing and twice its share |
| Partition.PartitionExactly | src/Clients Commands/distributedcomputing/linuxdistributivecomputing.cpp:109-139 | for a file size and a number of nodes, every division of every file is a partition if and only if an arithmetic condition on the two holds |
| Partition.RunsPartitionExactly | src/Clients Commands/distributedcomputing/linuxdistributivecomputing.cpp:52-142 | the same of the boundaries the program computes: over all files and patterns of short reads, and over all files with full reads |
| Partition.SafeIsPartition | src/Clients Commands/distributedcomputing/linuxdistributivecomputing.cpp:109-139 | under the condition all boundaries are monotone and inside the file |
| Partition.OverrunFile | src/Clients Commands/distributedcomputing/linuxdistributivecomputing.cpp:126-130 | whenever the condition fails some file of that size gets a last chunk of negative size, with full reads too if it fails for the window |
| Partition.TinyFileOverruns | src/Clients Commands/distributedcomputing/linuxdistributivecomputing.cpp:124-133 | five bytes over three nodes, with full reads: boundaries 5 and 6, and a last chunk of -1 |
| Partition.LargeFilesAreSafe | src/Clients Commands/distributedcomputing/linuxdistributivecomputing.cpp:62-75 | a file of (n-1)(n+2) times the reach of the scan always meets the condition |
| Lines.ChunksAreTheFile | src/Clients Commands/distributedcomputing/linuxdistributivecomputing.cpp:133-138 | under the condition the chunks of all nodes concatenate to the file |
| Lines.LinesAreLines | src/Clients Commands/distributedcomputing/linuxdistributivecomputing.cpp:68-72 | what the model calls the lines of a file end at its newlines and concatenate to it |
| Lines.LineBoundaries | src/Clients Commands/distributedcomputing/linuxdistributivecomputing.cpp:113-131 | with a newline near each intended end the division is a partition of any file, and every interior boundary follows a newline |
| Lines.AlwaysFollowsExactly | src/Clients Commands/distributedcomputing/linuxdistributivecomputing.cpp:113-131 | with the intended end inside the file, a node's boundary follows a newline under all reads if and only if one stands near that end or just before it |
| Lines.CanFollowExactly | src/Clients Commands/distributedcomputing/linuxdistributivecomputing.cpp:113-131 | and under some reads if and only if one stands just before that end or near it, as far as those reads see |
| Lines.LinesArePreserved | src/Clients Commands/distributedcomputing/linuxdistributivecomputing.cpp:113-131 | then the lines of the file are those of the chunks in order |
| Lines.LinesPreservedExactly | src/Clients Commands/distributedcomputing/linuxdistributivecomputing.cpp:133-138 | for any boundaries in the file, its lines are those of the chunks if and only if no chunk starts inside a line |
| Lines.PerLineDistributes | src/Clients Commands/distributedcomputing/linuxdistributivecomputing.cpp:50-79 | then any exclusive-or combination of a value per line is the same over the chunks as over the file |
| Lines.ShortLinesSuffice | src/Clients Commands/distributedcomputing/linuxdistributivecomputing.cpp:52-79 | lines shorter than the window and than a share, in a large enough file, put a newline near every intended end |
| Wire.EncodeLayout | src/shareFileService/shareFileClient.cpp:86-90 | byte i of a number on the wire is its digit of weight 256 to the i |
| Wire.PreambleLayout | src/shareFileService/shareFileClient.cpp:82-95 | the bytes sent before the contents: two lengths of four bytes, each before its name, and a size of eight, least significant byte first |
| Wire.RoundTrip | src/shareFileService/shareFileClient.cpp:82-95 | for all folders, names, sizes and following bytes the receiver reads back what was sent, and turns it down exactly for a bad length, a dotted folder, a long path or a base name that is a directory |
| Wire.BuffersAreRead | src/shareFileService/shareFileServer.cpp:54-99 | names with a zero inside are read up to it, while their whole length counts |
| Wire.FieldIs | src/shareFileService/shareFileServer.cpp:54-75 | of any stream, a field is the bytes after a length between 1 and 255 that the stream has |
| Wire.BaseNameIs | src/shareFileService/shareFileServer.cpp:144-146 | a name keeps only what follows its last slash |
| Wire.AcceptedExactly | src/shareFileService/shareFileServer.cpp:60-158 | which folders and names are accepted, in lengths and bytes, and that the file is `received_files/folder/base` for `dir/base` and for `base` |
| Wire.StreamIsRead | src/shareFileService/shareFileServer.cpp:50-155 | an acceptable transfer is read as its folder, output path, size and exactly its contents followed by the trailing bytes |
| Transfer.SendAllSync | src/shareFileService/shareFileClient.cpp:41-53 | everything is sent in order, however the sends are cut |
| Transfer.SendFileZeroCopy | src/shareFileService/shareFileClient.cpp:10-39 | exactly the requested bytes of the file are sent, and it fails exactly when the file ends before them |
| Transfer.SendFile | src/shareFileService/shareFileClient.cpp:55-116 | the connection carries the preamble and the announced part of the file; for the default chunk of -1 that is the whole file and for any other exactly the selected part |
| Transfer.RecvAll | src/shareFileService/shareFileServer.cpp:28-45 | fills the buffer with exactly the next bytes, and fails exactly when the stream ends first |
| Transfer.ReceiveField | src/shareFileService/shareFileServer.cpp:54-99 | reads a length and that many bytes, rejecting zero and oversized lengths |
| Transfer.ReceiveContents | src/shareFileService/shareFileServer.cpp:183-220 | the file ends up with as much of the announced size as arrived, and the published count with its length |
| Transfer.ReceiveFile | src/shareFileService/shareFileServer.cpp:48-255 | for every stream and fragmentation the status, the file, the counters, the signals and the reply, the error paths included |
| Transfer.SendAndReceive | src/shareFileService/shareFileServer.cpp:48-255 | sender and receiver together leave exactly the part of the file, or all of it for the default chunk, in `received_files/folder/base` when the name is `dir/base` |
| Overrun.SendLastChunk | src/shareFileService/shareFileClient.cpp:72-109 | under any reads and any fragmentation the transfer of the last chunk succeeds if and only if the division is a partition; otherwise a size other than zero is announced, nothing of it is sent, and the worker publishes nothing |
| Overrun.BoundaryBelowTwice | src/Clients Commands/distributedcomputing/linuxdistributivecomputing.cpp:109-139 | no boundary lies further than twice the size of the file |
| Feed.FeedLocal | src/Clients Commands/distributedcomputing/linuxdistributivecomputing.cpp:369-403 | under any short reads and writes the child gets exactly its portion, in order and once |
| Feed.FeedWorker | src/server commands/distributivecomputing/linuxdistributivecomputing.cpp:74-105 | the same for the worker's loop, which ends because the portion is on disk |
| Feed.DistributiveComputingLocal | src/Clients Commands/distributedcomputing/linuxdistributivecomputing.cpp:369-448 | the result is the number printed for the portion, or -1 |
| Feed.DistributiveComputing | src/server commands/distributivecomputing/linuxdistributivecomputing.cpp:74-150 | the result is the number printed for the portion, or -1 |
| Feed.NodeResultIs | src/server commands/distributivecomputing/linuxdistributivecomputing.cpp:139-150 | a printed number of 64 bits is the result whatever follows on the next line; a larger one, no output and text are -1 |
| Consumer.HandleStream | src/server commands/distributivecomputing/linuxdistributivecomputing.cpp:222-238 | whatever the rounds find published, the loop ends, consumes the slice once and in order, and sends the fold of its parts |
| Invariant.InvAlways | src/server commands/distributivecomputing/linuxdistributivecomputing.cpp:196-244 | the invariant of receivers, counters, signals and handler holds in every state of every run |
| Invariant.InvStep | src/shareFileService/shareFileServer.cpp:183-220 | every step of every thread keeps the invariant |
| Invariant.PreadProgresses | src/server commands/distributivecomputing/linuxdistributivecomputing.cpp:74-105 | published bytes are on disk, so a read of the feed loop is never empty |
| Invariant.DiskCovers | src/shareFileService/shareFileServer.cpp:200-219 | the published count is covered by the disk, and the disk is a prefix of the slice |
| Worker.NotAccepted | src/shareFileService/shareFileServer.cpp:60-155 | a transfer that is not accepted ends its connection without a signal or a file, and only a refused train transfer changes the counters |
| Handoff.StreamingInvariant | src/server commands/distributivecomputing/linuxdistributivecomputing.cpp:223-235 | in every run offset, published count, bytes on disk and file size are ordered, and the consumed segments are exactly the slice up to the offset |
| Handoff.HandoffOrder | src/server commands/distributivecomputing/linuxdistributivecomputing.cpp:209-212 | past the first wait the code file is complete; past the second the train file and the counters are this job's |
| Handoff.NoLostSignal | src/threadSafety.cpp:10-27 | a wait can be passed exactly when the matching resume has happened, whichever came first |
| Handoff.GateSafety | src/shareFileService/shareFileServer.cpp:265-274 | code and train are never turned away; the reducer is exactly when it knocks after the gate was closed |
| Handoff.FlagsAreClear | src/threadSafety.cpp:10-27 | after a job both flags are down and the gate is closed, and the next job may begin |
| Handoff.SeriesRunsFirstProgram | src/server commands/distributivecomputing/linuxdistributivecomputing.cpp:153-194 | in any series of jobs every job begins properly and runs the program compiled by the first |
| Handoff.SeriesAnswers | src/server commands/distributivecomputing/linuxdistributivecomputing.cpp:153-238 | a later job answers with the first job's program on its own slice |
| Overlap.RefusedExactly | src/server commands/distributivecomputing/linuxdistributivecomputing.cpp:237-239 | when the previous handler's write to the gate falls in the next job, code or train can be turned away if and only if the next handler had opened the gate and one of them had still to read it, whatever connections of the previous job are still at work |
| Overlap.LostExactly | src/server commands/distributivecomputing/linuxdistributivecomputing.cpp:237-239 | in exactly those cases the job is lost: no schedule from the write on answers it |
| Overlap.CanStillReply | src/server commands/distributivecomputing/linuxdistributivecomputing.cpp:237-239 | otherwise it can be answered from wherever it has got to |
| Overlap.HarmlessIfNotExposed | src/server commands/distributivecomputing/linuxdistributivecomputing.cpp:237-239 | otherwise every run after the write is matched by a run of the next job alone from a proper beginning, with the same handler, code, train and reply |
| Overlap.ReplyIsStillTheAnswer | src/server commands/distributivecomputing/linuxdistributivecomputing.cpp:237-239 | and any reply that comes after the write is the answer of the slice |
| Overlap.AnyNextJobCanBeLost | src/server commands/distributivecomputing/linuxdistributivecomputing.cpp:199-239 | any two jobs have a schedule of the first to its reply and of the second from there in which the late write loses the second |
| Overlap.StrandedForever | src/server commands/distributivecomputing/linuxdistributivecomputing.cpp:209-212 | once code or train is barred by the closed gate no schedule passes the wait for its signal or answers |
| Progress.PotentialShrinks | src/shareFileService/shareFileServer.cpp:183-220 | every step uses up a bounded potential, but for a look at the published count that finds nothing new, which pays for one empty round |
| Progress.WorkIsBounded | src/server commands/distributivecomputing/linuxdistributivecomputing.cpp:225-235 | every run has at most a number of steps linear in the transfers, and four more for each round that finds nothing new |
| Progress.RestShrinks | src/server commands/distributivecomputing/linuxdistributivecomputing.cpp:225-235 | once everything is published every step of the handler brings it nearer to its end |
| Progress.HandlerEnds | src/server commands/distributivecomputing/linuxdistributivecomputing.cpp:225-235 | so in any run from there the handler takes a bounded number of steps |
| Progress.FeedEndsExactly | src/server commands/distributivecomputing/linuxdistributivecomputing.cpp:74-105 | over a file that does not grow the feed loop can end if and only if there is nothing to feed or all of it is on disk |
| Completion.NextIsEnabled | src/server commands/distributivecomputing/linuxdistributivecomputing.cpp:196-244 | no reachable state but the end is stuck |
| Completion.CanFinish | src/server commands/distributivecomputing/linuxdistributivecomputing.cpp:196-244 | from every reachable state the job can be finished, with segments that are then determined |
| Schedules.InPieces | src/server commands/distributivecomputing/linuxdistributivecomputing.cpp:225-235 | every job has a schedule that consumes the slice in any given parts of which the last is not empty |
| Segments.SegmentsExactly | src/server commands/distributivecomputing/linuxdistributivecomputing.cpp:225-235 | the inputs the program is run on before a job is answered can be exactly the parts that make up the slice, empty ones among them but for the last |
| Schedules.ReducerCanBeTurnedAway | src/shareFileService/shareFileServer.cpp:265-270 | every job has a schedule in which the reducer finds the gate closed |
| Answer.EmptyInput | src/server commands/distributivecomputing/linuxdistributivecomputing.cpp:231-232 | a program that distributes over cuts gives zero on empty input, which the worker also runs |
| Answer.DistributesMeans | src/server commands/distributivecomputing/linuxdistributivecomputing.cpp:232-233 | the hypothesis on the program in numbers: modulo 2^32 its value of a concatenation is the exclusive or of its values |
| Answer.DistributesExactly | src/server commands/distributivecomputing/linuxdistributivecomputing.cpp:231-233 | a program distributes over every cut if and only if its value is the exclusive or of what it makes of each byte |
| Answer.PrintXorDistributes | src/server commands/distributivecomputing/linuxdistributivecomputing.cpp:139-148 | for any number per byte, the program that prints their exclusive or distributes |
| Answer.ReplyFoldsTheSlice | src/server commands/distributivecomputing/linuxdistributivecomputing.cpp:222-238 | in every run the reply is the fold of segments that concatenate to exactly the slice |
| Answer.ReplyIsTheAnswer | src/server commands/distributivecomputing/linuxdistributivecomputing.cpp:222-238 | for a program that distributes over cuts the reply of every run parses to the int of the slice's value |
| Answer.ScheduleIndependence | src/server commands/distributivecomputing/linuxdistributivecomputing.cpp:225-235 | then any two runs reply alike |
| Necessity.AgreementExactly | src/server commands/distributivecomputing/linuxdistributivecomputing.cpp:225-235 | for every slice all runs reply alike if and only if the program distributes over every cut |
| Necessity.LineByLineNeedNotDistribute | src/server commands/distributivecomputing/linuxdistributivecomputing.cpp:231-232 | counting lines by exclusive or is not such a program, line-aligned chunks or not |
| EndToEnd.CombineResults | src/Clients Commands/distributedcomputing/linuxdistributivecomputing.cpp:505-509 | the loop's int is the low 32 bits, as a signed number, of the full-width fold |
| EndToEnd.TruncateFirst | src/Clients Commands/distributedcomputing/linuxdistributivecomputing.cpp:505-509 | truncating each partial result first makes no difference |
| EndToEnd.PackageIsReady | src/Clients Commands/distributedcomputing/linuxdistributivecomputing.cpp:207-232 | what the client sends for a job meets every assumption the worker's theorems make of it |
| EndToEnd.SendPackage | src/Clients Commands/distributedcomputing/linuxdistributivecomputing.cpp:148-236 | what is sent to a node, code and reducer by the default chunk and the train file by its chunk, is what the worker's job receives |
| EndToEnd.EveryPackageIsAnswered | src/server commands/distributivecomputing/linuxdistributivecomputing.cpp:196-244 | every sendable job has a run in which the worker replies |
| EndToEnd.NextPackageCanBeLost | src/Clients Commands/distributedcomputing/linuxdistributivecomputing.cpp:171-253 | for any two packages sent to one worker the second, sent on the reply to the first, can be lost to the first's late write |
| EndToEnd.PlainNamesAreSendable | src/Clients Commands/distributedcomputing/linuxdistributivecomputing.cpp:209-228 | any contents can be sent under the names the worker expects |
| EndToEnd.PathsAreSendable | src/Clients Commands/distributedcomputing/linuxdistributivecomputing.cpp:209-228 | and under those names in any directory |
| EndToEnd.PartAnswers | src/Clients Commands/distributedcomputing/linuxdistributivecomputing.cpp:238-252 | the number the client parses from a worker is the int of the value of that worker's chunk |
| EndToEnd.PrintedIsTheAnswer | src/Clients Commands/distributedcomputing/linuxdistributivecomputing.cpp:489-521 | for every file, safe division and run of every worker the printed number differs from the program's value on the whole file by a multiple of 2^32 |
| EndToEnd.SentFileIsAnswered | src/Clients Commands/distributedcomputing/linuxdistributivecomputing.cpp:489-521 | the same when every remote chunk travels as the byte stream of a sendable package |
| EditDistance.Levenshtein | src/clientsCommand.cpp:79-113 | the final cell is the least number of insertions, deletions and substitutions over all scripts, attained by one |
| EditDistance.FillRow | src/clientsCommand.cpp:94-103 | one row of the table from the row above it |
| EditDistance.EditsAre | src/clientsCommand.cpp:96-102 | the edits that are counted put in, take out or exchange one character anywhere |
| EditDistance.NoneCheaper | src/clientsCommand.cpp:96-102 | no script of edits at any positions, in any order, costs less than the recurrence |
| EditDistance.Attained | src/clientsCommand.cpp:96-102 | some script costs exactly that |
| EditDistance.DistTriangle | src/clientsCommand.cpp:96-102 | the recurrence obeys the triangle inequality |
| EditDistance.ScriptCostIsMetric | src/clientsCommand.cpp:87-106 | least script costs are zero exactly for equal strings, symmetric, triangular, and between the difference and the maximum of the lengths |
| Suggest.ToLowercase | src/clientsCommand.cpp:71-75 | the buffer's string is lowered in place and nothing after it changes |
| Suggest.ToLowerIs | src/clientsCommand.cpp:71-75 | the codes 65 to 90 are raised by 32 and all others kept |
| Suggest.SubstringMatch | src/clientsCommand.cpp:123-134 | the first case-insensitive superstring of the input, or none exists |
| Suggest.ContainsIs | src/clientsCommand.cpp:130-133 | a command matches when it is something, the input, and something |
| Suggest.LevenshteinMatch | src/clientsCommand.cpp:136-153 | the earliest command of least distance, unless all are 1000 or more away |
| Suggest.FindClosestCommand | src/clientsCommand.cpp:117-162 | the first superstring, else the earliest nearest command within the threshold, else none; a command made of something, the input and something is never passed over for a later one |
| Suggest.SuggestionIsUnique | src/clientsCommand.cpp:117-162 | that description determines the suggestion |
| Suggest.SuggestionMeans | src/clientsCommand.cpp:117-162 | the same in edit scripts and lengths: the fewest edits, at most 3 or half the length of the input |
| Suggest.LoweringMergesCases | src/clientsCommand.cpp:71-75 | two characters become equal exactly when they are the same or two cases of one letter |
| Suggest.CaseIsIgnored | src/clientsCommand.cpp:119-128 | the suggestion does not depend on the case of the input |
| Suggest.NothingForLongInput | src/clientsCommand.cpp:155-161 | input of more than 44 characters gets no suggestion from the program's table |
| Suggest.BoundIsTight | src/clientsCommand.cpp:11-19 | 44 characters can still get one |
| Suggest.CapIsIrrelevant | src/clientsCommand.cpp:137-161 | for the program's table the starting value 1000 never decides: the nearest command is suggested exactly within the threshold |

## Left out

- The Windows variants, and `src/server commands/distributive computing.cpp`, which repeats the Linux file.
- Process control: pipes, `fork`, `exec`, `waitpid` and running `g++`; a child that crashes.
- Socket setup, discovery, command dispatch, the status and connect handlers, the prompt loop, the progress display and timing.
- The interactive accept or reject of a transfer, and its own write to the gate.
- Failing receives, reads and writes. In the step system a header that is refused sets the counters and stops its connection in one step.
- Overlapping jobs on one worker, beyond what the threads of a job that has replied still do.
- The interleaving of the three connections inside the shared path buffer.
- Overflow of the file size times the weight: sizes are unbounded in the splitter.
- Directory creation, permissions and the freeing of memory.
- FeedWorker: asks for the portion to be on disk; otherwise the source's loop reads nothing for ever and there is no result to state, which `Progress.FeedEndsExactly` proves. That the worker always meets this is `Invariant.PreadProgresses`.
- DistributiveComputing: asks for the portion to be on disk, for the same reason.
- HandleStream: takes what its rounds find as an argument. That the receiver provides it in every interleaving, and exactly which segments that can lead to, is proved on the step system, over values, in `Segments.SegmentsExactly`.
- Worker.Apply: the shared memory is a value that the steps replace, not an object they update; a connection's local count is advanced with the receive instead of after the write, which no other thread can see.
