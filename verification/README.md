# alarm4pi: models and proofs

alarm4pi watches alarm contacts on a Raspberry Pi, notifies its owner and runs a camera server. Most of it is glue
around devices and network services; this project models the parts that are algorithms and protocols of their own and
proves what they keep, what they restore and where they fail. `dafny verify dfyconfig.toml` checks everything.

| files | what they model |
|---|---|
| `Collections`, `BitStrings`, `Word32` | shared definitions; bits of numbers, bytes and 32-bit words |
| `HuffmanTables`, `LookupTables`, `DhtSegment` | canonical Huffman tables, the arrays of the autofocus decoder and the loops that fill them |
| `BlockCoding`, `ScanCoding`, `WideTables` | blocks and scans as bits and stuffed bytes: an encoder after sections F.1.2 and C.2 of ITU-T T.81, the meaning of the decoder, and which tables it can use in full |
| `ScanDecoder`, `ScanLoop`, `Pictures` | the decoder as it is written: a 32-bit window, refilled byte by byte, `readXC`, `readTable`, the scan loop, and a whole picture from its DHT segment on |
| `SearchPatterns`, `MultipartStream`, `MultipartExtractor` | the extractor that cuts images out of a multipart stream |
| `Supervisor`, `RespawnLimits`, `ProcessTable` | the supervision of child processes as interleaved steps, what limits its restarts, and its helper functions on the array of process ids |
| `WordRewriting`, `WordReplacer` | replacing a word at word starts: positions, sizes, buffers and memory |
| `RequestLifecycle` | capture requests between camera, callback, queue and worker |
| `GpioLines`, `AlarmPolling` | ownership of GPIO lines, and the polling loop of the alarm |
| `PictureFolder`, `DhtInsertion`, `PushoverConfig`, `PanTilt` | ring buffer of pictures, insertion of missing Huffman tables, configuration reading, camera movement |

Code that updates state is modelled by classes and methods with the loops of the original, each proved against
functions on values; the main results are lemmas about these functions. The two protocols with concurrency are state
machines whose steps are the atomic actions of every party.

## What the code does, and what it says

Where comments and code disagree the model follows the code.

- `initial_strstr` is documented to accept occurrences at the beginning of the string or after a space
  (`src/proc_helper.h:30-45`). Its callers pass it the rest of the string behind an occurrence, so that one directly
  behind another is accepted too (`WordRewriting.VisitedIff`, `WordRewriting.AdjacentWordsBothVisited`). They keep to
  the documentation exactly under the condition of `WordRewriting.VisitsDocumentedIff`.
- `exec_exited_child_processes` is documented to return -1 on error and to leave its loop then
  (`src/proc_helper.c:322-328`). The -1 is counted up to 0 at once and the loop goes on, so that the answer counts the
  successes since the last failure, and a round whose last fork fails costs no retry
  (`ProcessTable.LastForkDecides`). It does what is documented exactly when no fork fails
  (`ProcessTable.AnswerAsPromisedIff`, `ProcessTable.SlotsAsPromisedIff`). With two processes and one retry any number
  of children can be started (`RespawnLimits.BudgetIff`).
- `wait_child_processes` promises that no more than exec_retries_left children are started again
  (`src/proc_helper.h:79-80`). A round costs one retry however many children it starts, so that two processes exceed
  this even when no fork fails (`RespawnLimits.BudgetWithoutFailure`).
- It starts no round after the exit flag is set, but a round that is under way is finished
  (`Supervisor.NoRoundAfterFlag`, `RespawnLimits.FlagPromiseIff`).
- The search in `readXC` cannot return the last code of a table (`HuffmanTables.LookUpCode`). A block is therefore
  rejected exactly when it needs that code (`BlockCoding.DecodeEncodedBlock`), and since the arrays have no more rows
  than the baseline process has symbols, no table serves all baseline pictures (`WideTables.BaselineNeverHeld`,
  `WideTables.WideTableIff`). The un-stuffing does not look at the byte it takes after an FF
  (`ScanCoding.LoadedIffSafe`).
- The test for a double CRLF is a mask (`SearchPatterns.HeaderEndTest`), the matcher does not try a mismatched byte
  again (`MultipartStream.BoundaryNoticedIff`), and a full buffer stays full (`MultipartStream.FullBufferIsStuck`).
- The return value of the first `startCamera` is not looked at: when it fails the worker polls an empty queue
  (`RequestLifecycle.FirstStartFails`).
- A failed `gpio_direction` on a pin that was not requested may leave it requested as an input, because the recorded
  direction of a fresh pin is that of an input; with an invalid direction and no failure it always does
  (`GpioLines.Gpio.Direction`).

## Model

| member | source | states |
|---|---|---|
| HuffmanTables.CanonicalTiles | mjpg-streamer-master/mjpg-streamer-experimental/plugins/output_autofocus/processJPEG_onlyCenter.c:94-116 | for any length counts, the codes assigned by the DHT loop, left-aligned to 16 bits, tile consecutively from 0: each begins exactly where the ones before it end |
| HuffmanTables.FitIffKraft | mjpg-streamer-master/mjpg-streamer-experimental/plugins/output_autofocus/processJPEG_onlyCenter.c:101-113 | all codes fit into their length if and only if the length counts meet the Kraft inequality |
| HuffmanTables.PrefixFreeIffKraft | mjpg-streamer-master/mjpg-streamer-experimental/plugins/output_autofocus/processJPEG_onlyCenter.c:94-116 | the table is prefix-free if and only if the length counts meet the Kraft inequality; otherwise the first code that does not fit wraps round to zeros |
| HuffmanTables.NoTwoMatches | mjpg-streamer-master/mjpg-streamer-experimental/plugins/output_autofocus/processJPEG_onlyCenter.c:152-158 | no window of bits matches two rows of a table whose codes tile and fit |
| HuffmanTables.LookUpCode | mjpg-streamer-master/mjpg-streamer-experimental/plugins/output_autofocus/processJPEG_onlyCenter.c:151-163 | bits that begin with the code of row k are answered with row k, whatever follows, for every row but the last; for the last row the answer is "not found", because the row index is advanced before it is compared with the size |
| LookupTables.LookupTable.DefineRow | mjpg-streamer-master/mjpg-streamer-experimental/plugins/output_autofocus/processJPEG_onlyCenter.c:104-111 | the inner loop appends exactly the rows of one length to the four parallel arrays: symbol, left-aligned code bits, mask and length |
| LookupTables.LookupTable.Define | mjpg-streamer-master/mjpg-streamer-experimental/plugins/output_autofocus/processJPEG_onlyCenter.c:98-115 | from the 16 counts and the symbols behind them the arrays come to represent the canonical table of section C.2 of ITU-T T.81, and the position behind them is returned |
| DhtSegment.ReadDefinition | mjpg-streamer-master/mjpg-streamer-experimental/plugins/output_autofocus/processJPEG_onlyCenter.c:95-115 | one definition replaces the table that its id byte names and leaves the other three as they were |
| DhtSegment.ParseSegment | mjpg-streamer-master/mjpg-streamer-experimental/plugins/output_autofocus/processJPEG_onlyCenter.c:92-116 | after the do-while loop the four tables are those of the segment, of which at least one definition is read |
| DhtSegment.DefinitionRead | mjpg-streamer-master/mjpg-streamer-experimental/plugins/output_autofocus/processJPEG_onlyCenter.c:95-115 | a written definition is read back as the canonical table of its counts and symbols, and reading stops at its end, whatever precedes or follows it |
| DhtSegment.SegmentRead | mjpg-streamer-master/mjpg-streamer-experimental/plugins/output_autofocus/processJPEG_onlyCenter.c:92-116 | round trip of a whole segment: every table ends up as its last definition in the segment says, or as it was before |
| BlockCoding.ExtendMagnitude | mjpg-streamer-master/mjpg-streamer-experimental/plugins/output_autofocus/processJPEG_onlyCenter.h:1 | HUFF_EXTEND undoes the magnitude coding of section F.1.2.1 of ITU-T T.81 for every integer |
| BlockCoding.MagnitudeExtend | mjpg-streamer-master/mjpg-streamer-experimental/plugins/output_autofocus/processJPEG_onlyCenter.h:1 | and the other way round: every pattern of s bits is the magnitude coding, of size s, of the number HUFF_EXTEND makes of it |
| BlockCoding.CanonicalDecodable | mjpg-streamer-master/mjpg-streamer-experimental/plugins/output_autofocus/processJPEG_onlyCenter.c:94-163 | tables from counts that meet the Kraft inequality read back every symbol that is present and not on the last row, and find nothing at the code of the last row |
| BlockCoding.EveryBlockRestorable | mjpg-streamer-master/mjpg-streamer-experimental/plugins/output_autofocus/processJPEG_onlyCenter.c:181-216 | with tables in which every size and every run with a size up to m is found, every block of coefficients of at most m bits can be encoded and is restored |
| WideTables.WideTableIff | mjpg-streamer-master/mjpg-streamer-experimental/plugins/output_autofocus/processJPEG_onlyCenter.c:49-52 | exactly for which m there is a definition of at most 162 codes with which every block of coefficients of at most m bits is restored: for m up to 9, while the baseline process needs 10 |
| WideTables.BaselineNeverHeld | mjpg-streamer-master/mjpg-streamer-experimental/plugins/output_autofocus/processJPEG_onlyCenter.c:49-52 | no table that fits into the arrays lets all 162 run/size symbols of the baseline process be found |
| BlockCoding.DecodeEncodedAC | mjpg-streamer-master/mjpg-streamer-experimental/plugins/output_autofocus/processJPEG_onlyCenter.c:192-210 | the AC loop, started at any coefficient, restores the remaining coefficients of any block from run/size codes, ZRL and EOB and stops exactly where the coded bits end, if none of these symbols is on the last row, and otherwise breaks off without finding a code |
| BlockCoding.DecodeEncodedBlock | mjpg-streamer-master/mjpg-streamer-experimental/plugins/output_autofocus/processJPEG_onlyCenter.c:181-216 | block round trip, exactly: a block whose symbols are all in the tables is accepted if and only if none of them is on the last row of its table; then the 64 coefficients come back, the predictor becomes the DC value of the block, and exactly the bits of the block are consumed |
| BlockCoding.PlentyForBlock | mjpg-streamer-master/mjpg-streamer-experimental/plugins/output_autofocus/processJPEG_onlyCenter.c:181-216 | 2001 readable bits are enough for any block, whatever the bits and the tables |
| BlockCoding.SameBlock | mjpg-streamer-master/mjpg-streamer-experimental/plugins/output_autofocus/processJPEG_onlyCenter.c:183-185 | what the uninitialised 128-entry buffer held before shows neither in the coefficients nor in the answer, the predictor or the bits consumed |
| BlockCoding.ACContained | mjpg-streamer-master/mjpg-streamer-experimental/plugins/output_autofocus/processJPEG_onlyCenter.c:193-210 | on any bits: coefficients up to the start and entries beyond the last index reached are not written, the index is at most 78, what is left is a suffix of the bits, and a failure means that the search finds no code in what is left |
| BlockCoding.BlockContained | mjpg-streamer-master/mjpg-streamer-experimental/plugins/output_autofocus/processJPEG_onlyCenter.c:181-216 | on any bits: entries 79 to 127 are never written, a block is accepted only if nothing past coefficient 63 was written, and the bits consumed come off the front |
| ScanCoding.DeliveredIffNoAdjacent | mjpg-streamer-master/mjpg-streamer-experimental/plugins/output_autofocus/processJPEG_onlyCenter.c:138-150 | in a frame, un-stuffing after an FF undoes byte stuffing, and leaves the EOI marker and what follows it alone, if and only if the data has no two adjacent FF bytes |
| ScanCoding.LoadedIffSafe | mjpg-streamer-master/mjpg-streamer-experimental/plugins/output_autofocus/processJPEG_onlyCenter.c:133-150 | in a frame the decoder loads stuffed data unchanged if and only if, besides that, neither of its first two bytes is FF |
| ScanCoding.LoadedFront | mjpg-streamer-master/mjpg-streamer-experimental/plugins/output_autofocus/processJPEG_onlyCenter.c:133-150 | such data is loaded unchanged whatever follows its stuffed bytes, unless it ends in FF and nothing follows |
| ScanCoding.DecodeEncodedScan | mjpg-streamer-master/mjpg-streamer-experimental/plugins/output_autofocus/processJPEG_onlyCenter.c:227-273 | any list of blocks of any component order, coded with three running predictors, is decoded to the same blocks up to the first that needs a symbol on a last row; if there is none, also to the last DC value of every component, and up to the bits behind them, of which the window needs 16 |
| ScanCoding.ScanRoundTrip | mjpg-streamer-master/mjpg-streamer-experimental/plugins/output_autofocus/processJPEG_onlyCenter.c:133-273 | the same from stuffed bytes followed by anything, for all data that un-stuffing can undo, if the padding and what can be loaded behind the data come to 16 bits |
| ScanCoding.MarkerBehind | mjpg-streamer-master/mjpg-streamer-experimental/plugins/output_autofocus/processJPEG_onlyCenter.c:138-150 | the EOI marker alone gives these 16 bits, so that in a frame the padding may have any length |
| ScanDecoder.Decoder.constructor | mjpg-streamer-master/mjpg-streamer-experimental/plugins/output_autofocus/processJPEG_onlyCenter.c:133-134 | the window starts with the first two bytes as they are; its top 16 bits followed by the un-stuffed rest are the bits of the scan, and its low bits are zero |
| ScanDecoder.Decoder.Put | mjpg-streamer-master/mjpg-streamer-experimental/plugins/output_autofocus/processJPEG_onlyCenter.c:139-141 | a byte or-ed in below the window extends its bits by exactly its 8 bits and keeps the rest zero |
| ScanDecoder.Decoder.Refill | mjpg-streamer-master/mjpg-streamer-experimental/plugins/output_autofocus/processJPEG_onlyCenter.c:138-150 | the refill loop ends with 16 to 31 bits in the window and changes neither the bits still to be decoded nor, if there were enough, anything at all; that 16 bits can still be loaded is all it needs |
| ScanDecoder.Decoder.Consume | mjpg-streamer-master/mjpg-streamer-experimental/plugins/output_autofocus/processJPEG_onlyCenter.c:164 | shifting the window takes exactly n bits off the front of the bits to be decoded |
| ScanDecoder.MatchTest | mjpg-streamer-master/mjpg-streamer-experimental/plugins/output_autofocus/processJPEG_onlyCenter.c:153 | the masked comparison of 32-bit words tests whether the window begins with the code of the row |
| ScanDecoder.TopBits | mjpg-streamer-master/mjpg-streamer-experimental/plugins/output_autofocus/processJPEG_onlyCenter.c:189 | the arithmetic shift followed by the mask yields the number in the top n bits, also when the shift drags in the sign |
| ScanDecoder.Decoder.Search | mjpg-streamer-master/mjpg-streamer-experimental/plugins/output_autofocus/processJPEG_onlyCenter.c:151-163 | the linear search gives the symbol and length of the code at the front, or -1 |
| ScanDecoder.Decoder.ReadXC | mjpg-streamer-master/mjpg-streamer-experimental/plugins/output_autofocus/processJPEG_onlyCenter.c:137-179 | one symbol is taken off the front of the bits to be decoded, or nothing is and the answer is -1; afterwards 16 to 31 bits are in the window |
| ScanDecoder.Decoder.TakeBits | mjpg-streamer-master/mjpg-streamer-experimental/plugins/output_autofocus/processJPEG_onlyCenter.c:189 | the next n bits, at most 16, are taken off as a number, and n fewer bits are in the window, so that at least one is left after up to 15 |
| ScanDecoder.Decoder.ReadACSymbol | mjpg-streamer-master/mjpg-streamer-experimental/plugins/output_autofocus/processJPEG_onlyCenter.c:194-209 | one turn of the AC loop moves strictly forward, ends the block, or fails, as the decoding of the remaining bits demands, and leaves at least one bit in the window |
| ScanDecoder.Decoder.ReadAC | mjpg-streamer-master/mjpg-streamer-experimental/plugins/output_autofocus/processJPEG_onlyCenter.c:192-210 | the AC loop leaves the table, the index and the bits that the run-length decoding of the bits gives |
| ScanDecoder.Decoder.ReadTable | mjpg-streamer-master/mjpg-streamer-experimental/plugins/output_autofocus/processJPEG_onlyCenter.c:181-216 | on the 32-bit window, readTable gives the answer, the 128 entries, the predictor and the remaining bits of the block decoding, for any bits and any tables with DC sizes up to 16 |
| ScanCoding.EveryScanRestorable | mjpg-streamer-master/mjpg-streamer-experimental/plugins/output_autofocus/processJPEG_onlyCenter.c:227-273 | with tables in which every size and every run with a size up to m is found, all lists of blocks with coefficients of at most m bits can be encoded, and come back whole in the round trips |
| ScanLoop.CanonicalScanTables | mjpg-streamer-master/mjpg-streamer-experimental/plugins/output_autofocus/processJPEG_onlyCenter.c:94-116 | tables read from DHT definitions that meet the Kraft inequality can be used for the round trips |
| ScanLoop.NextBlock | mjpg-streamer-master/mjpg-streamer-experimental/plugins/output_autofocus/processJPEG_onlyCenter.c:235-237 | one call from the scan loop moves the state of the scan by one block of its schedule, or ends it with the blocks read so far |
| ScanLoop.ReadScan | mjpg-streamer-master/mjpg-streamer-experimental/plugins/output_autofocus/processJPEG_onlyCenter.c:227-273 | the scan loop reads Y, Y, Cr and Cb of every MCU with one predictor each and gives what decoding the bits of the scan gives, failures included |
| ScanLoop.RestoreScan | mjpg-streamer-master/mjpg-streamer-experimental/plugins/output_autofocus/processJPEG_onlyCenter.c:227-273 | end to end: run on the stuffed bytes of an encoded scan with decodable tables, whatever follows them, and for all data that un-stuffing can undo, the decoder returns every block and the last DC value of each component if and only if no block needs a symbol on the last row of its table, and otherwise the blocks before the first that does |
| ScanLoop.RestoreFrame | mjpg-streamer-master/mjpg-streamer-experimental/plugins/output_autofocus/processJPEG_onlyCenter.c:227-273 | the same for a frame: the scan is followed by the EOI marker and anything, and nothing is asked of the padding |
| Pictures.RestorePicture | mjpg-streamer-master/mjpg-streamer-experimental/plugins/output_autofocus/processJPEG_onlyCenter.c:84-273 | the same from a written DHT segment on: whatever the tables held before, the segment is read into them, and the scan is decoded with them, the last row of each excepted |
| Pictures.WidePictureRestorable | mjpg-streamer-master/mjpg-streamer-experimental/plugins/output_autofocus/processJPEG_onlyCenter.c:84-273 | and there are definitions with which every picture of coefficients of at most 9 bits can be encoded and comes back whole |
| SearchPatterns.HeaderEndTest | mjpg-streamer-master/mjpg-streamer-experimental/plugins/input_http/misc.c:23-35 | the double CRLF test is passed exactly when the last four bytes contain the bits of 13, 10, 13 and 10 in this order, where a byte from 0x80 on stands in for everything before it if char is signed |
| SearchPatterns.OkLineEndsHeader | mjpg-streamer-master/mjpg-streamer-experimental/plugins/input_http/misc.c:23-35 | the end of a line "OK" passes for an empty line, with signed and with unsigned char |
| SearchPatterns.FullMatchIsThere | mjpg-streamer-master/mjpg-streamer-experimental/plugins/input_http/misc.c:50-62 | a reported match means that the last bytes seen, up to the byte that completes the match, are the pattern, and that no earlier byte completed it |
| MultipartStream.ContentEndsInBoundary | mjpg-streamer-master/mjpg-streamer-experimental/plugins/input_http/mjpg-proxy.c:98-106 | the content that is reported ends in the 20 bytes of the boundary |
| SearchPatterns.MatchedIsContained | mjpg-streamer-master/mjpg-streamer-experimental/plugins/input_http/misc.c:50-62 | text without the pattern is never reported |
| SearchPatterns.ForeignByteResets | mjpg-streamer-master/mjpg-streamer-experimental/plugins/input_http/misc.c:50-58 | after a byte that does not occur in the pattern the matcher is at its start |
| SearchPatterns.OccurrenceNoticedIff | mjpg-streamer-master/mjpg-streamer-experimental/plugins/input_http/misc.c:50-62 | an occurrence of a pattern without borders is noticed if and only if the matcher holds nothing where it begins, since a mismatched byte is not tried again |
| MultipartStream.BoundaryUnbordered | mjpg-streamer-master/mjpg-streamer-experimental/plugins/input_http/mjpg-proxy.c:49 | no end of the boundary is also its beginning |
| MultipartStream.PatternTexts | mjpg-streamer-master/mjpg-streamer-experimental/plugins/input_http/mjpg-proxy.c:47-49 | the patterns are the characters of "--boundarydonotcross" and "Content-Length:" |
| MultipartStream.RunSplit | mjpg-streamer-master/mjpg-streamer-experimental/plugins/input_http/mjpg-proxy.c:73-111 | where the stream is cut between two calls makes no difference |
| MultipartStream.HeaderRun | mjpg-streamer-master/mjpg-streamer-experimental/plugins/input_http/mjpg-proxy.c:77-90 | a header whose first hit of the mask test is at its end leads to empty content and reports nothing |
| MultipartStream.ContentRun | mjpg-streamer-master/mjpg-streamer-experimental/plugins/input_http/mjpg-proxy.c:92-106 | content that ends in the first full match and fits is reported once, without the boundary and the two bytes before it, and everything is reset |
| MultipartStream.FullBufferIsStuck | mjpg-streamer-master/mjpg-streamer-experimental/plugins/input_http/mjpg-proxy.c:93-96 | once 262143 bytes are stored nothing ever changes again: no later image is reported |
| MultipartStream.SegmentsRun | mjpg-streamer-master/mjpg-streamer-experimental/plugins/input_http/mjpg-proxy.c:73-111 | any sequence of headers and contents is reported content by content, and what follows is treated as if it were the beginning |
| MultipartStream.StreamRoundTrip | mjpg-streamer-master/mjpg-streamer-experimental/plugins/input_http/mjpg-proxy.c:73-111 | main result: exactly the frames that were sent are reported, in order and byte for byte |
| MultipartStream.PlainFrameIsQuiet | mjpg-streamer-master/mjpg-streamer-experimental/plugins/input_http/mjpg-proxy.c:98-99 | a frame that does not contain the boundary is safe to send |
| MultipartStream.BoundaryAfterForeignByte | mjpg-streamer-master/mjpg-streamer-experimental/plugins/input_http/mjpg-proxy.c:92-106 | every boundary after a byte that does not occur in it, such as LF, ends the image, if none did before and it fits |
| MultipartStream.BoundaryNoticedIff | mjpg-streamer-master/mjpg-streamer-experimental/plugins/input_http/mjpg-proxy.c:98-99 | the boundary is noticed if and only if the matcher holds nothing where it begins |
| MultipartStream.DashHidesBoundary | mjpg-streamer-master/mjpg-streamer-experimental/plugins/input_http/mjpg-proxy.c:98-99 | a frame consisting of a dash and the boundary contains the boundary and is not cut there |
| MultipartStream.LongFrameIsLost | mjpg-streamer-master/mjpg-streamer-experimental/plugins/input_http/mjpg-proxy.c:93-96 | a quiet frame with frame + 22 > 262143 is never reported, and neither is any frame after it |
| MultipartStream.FrameReportedIff | mjpg-streamer-master/mjpg-streamer-experimental/plugins/input_http/mjpg-proxy.c:92-106 | a frame followed by CRLF and the boundary comes out as one image of just its bytes if and only if it is quiet and frame + 22 <= 262143 |
| MultipartStream.Decompose | mjpg-streamer-master/mjpg-streamer-experimental/plugins/input_http/mjpg-proxy.c:73-111 | for every byte stream: the images reported are the contents of its complete segments, each of which ends in the boundary, and what is left over yields none |
| MultipartExtractor.SearchPattern.Compare | mjpg-streamer-master/mjpg-streamer-experimental/plugins/input_http/misc.c:49-58 | a fitting byte advances the match and any other resets it, without being tried again |
| MultipartExtractor.Extractor.HeaderByte | mjpg-streamer-master/mjpg-streamer-experimental/plugins/input_http/mjpg-proxy.c:77-90 | a header byte moves the state as the stream model does |
| MultipartExtractor.Extractor.ContentByte | mjpg-streamer-master/mjpg-streamer-experimental/plugins/input_http/mjpg-proxy.c:92-106 | a content byte moves the state, the buffer and the images reported as the stream model does; the length may come out negative |
| MultipartExtractor.Extractor.ExtractData | mjpg-streamer-master/mjpg-streamer-experimental/plugins/input_http/mjpg-proxy.c:73-111 | the state after a call is that after the bytes before the first non-zero reading of should_stop |
| MultipartExtractor.Extractor.ProcessResponse | mjpg-streamer-master/mjpg-streamer-experimental/plugins/input_http/mjpg-proxy.c:115-127 | the receiving loop gives the state after the bytes that it takes before should_stop, which is read after every recv and before every byte |
| MultipartExtractor.ReceiveFrames | mjpg-streamer-master/mjpg-streamer-experimental/plugins/input_http/mjpg-proxy.c:115-127 | multipart round trip under any chunking: the callback has been called with exactly the frames sent; when should_stop is set on the way, with the first of them and nothing else |
| Supervisor.StepInv | src/proc_helper.c:371-453 | every step of the supervisor, of its children and of the rest of the program keeps: slots hold distinct unreaped children, every unreaped child of the list is in its slot, and an exit is missed at most while the last drain has failed |
| Supervisor.NoExitMissed | src/proc_helper.c:389-421 | in every interleaving, after the first drain and unless the last drain ended in a failing waitpid, an unreaped dead child implies that SIGCHLD is pending, so that sigtimedwait can neither block nor time out over it |
| Supervisor.ExitMissedIff | src/proc_helper.c:283-320 | exactly when an exit is missed: some waitpid failed with a dead child left over and no signal pending, and no child has changed its state since; the next drain that runs to its end restores the guarantee |
| Supervisor.FailedWaitMissesExit | src/proc_helper.c:399-414 | it does happen: when the first waitpid fails, a child that died before stays unnoticed |
| Supervisor.DrainExact | src/proc_helper.c:283-311 | a drain clears exactly the slots of the children it reaped, reaps every child that was dead when it began, and leaves only living children in the slots |
| Supervisor.ExitGetsHandled | src/proc_helper.c:416-421 | a dead child found while waiting is reaped by the steps of the supervisor alone |
| Supervisor.NormalReturn | src/proc_helper.c:409-452 | a return of 0 means that all slots are -1, every child of the list has been reaped, and the exit flag is set or the retries are used up |
| Supervisor.LeavesIff | src/proc_helper.c:409-409 | the loop is left, with 0, exactly when every slot is -1 and the exit flag is set or the number of retries is neither positive nor -1; otherwise the supervisor waits |
| Supervisor.ErrorReturnIff | src/proc_helper.c:437-445 | the answer is an error exactly when sigtimedwait has failed with it |
| Supervisor.RoundsNeedTimeOuts | src/proc_helper.c:425-436 | in every run there are no more rounds than time-outs: each has waited for a whole retry period |
| RespawnLimits.ShutdownIff | src/proc_helper.c:371-453 | the shutdown ends: with the exit flag set and all children dead the steps of the supervisor alone lead to a return of 0, if and only if no failed waitpid has left a child in its slot with no signal pending |
| Supervisor.FlagStopsRespawning | src/proc_helper.c:427-432 | once the exit flag is set, and unless a round with a free slot before it is under way, nothing is started any more and the running count never grows |
| Supervisor.NoRoundAfterFlag | src/proc_helper.c:427-432 | no round begins after the exit flag is set, wherever the supervisor is |
| RespawnLimits.FlagStopsIff | src/proc_helper.c:335-353 | after the exit flag is set the running count never grows in any run if and only if no round with a free slot before it is under way |
| RespawnLimits.FlagPromiseIff | src/proc_helper.c:371-453 | in terms of the call: the running count never grows after the flag, in all runs, if and only if the flag was set from the start, there are no processes, or there are no retries |
| Supervisor.BoundedRespawns | src/proc_helper.c:427-432 | in every run the rounds charged and the retries left add up to the retries given; without a failed fork at most that many rounds start children |
| RespawnLimits.BudgetIff | src/proc_helper.c:371-453 | main result on the retries r >= 0: all runs start at most r children if and only if the flag was set from the start, n_processes <= 1, or r = 0; and the same condition decides whether they start at most r times n_processes |
| RespawnLimits.RespawnsUnlimited | src/proc_helper.c:335-353 | otherwise there is a run that starts m children for every m, and every retry is still left, because a failed fork sets the count of the round back to 0 |
| RespawnLimits.BudgetWithoutFailure | src/proc_helper.c:427-432 | runs without a failed fork start at most r times n_processes children, some start exactly as many, and r is the bound under the condition above only |
| ProcessTable.CountRunningChildProcesses | src/proc_helper.c:358-369 | the number of slots that are not -1 |
| ProcessTable.ClearSlot | src/proc_helper.c:297-307 | the first slot with the pid is cleared, and the answer tells whether there was one |
| ProcessTable.UpdateChildProcessesState | src/proc_helper.c:283-320 | the drain loop clears the slots of the children reported as ended up to the first answer that is no child, and returns 0 when none is ready or there are none, or the errno |
| ProcessTable.UpdatedExact | src/proc_helper.c:290-311 | after the loop exactly the slots of children reported as ended are free |
| ProcessTable.DrainRefines | src/proc_helper.c:283-320 | the drain loop is a run of the reaping steps of the supervisor that ends with nothing left to reap or with a failed waitpid, for all answers that waitpid can give |
| ProcessTable.ExecExitedChildProcesses | src/proc_helper.c:329-356 | every free slot gets the result of its fork; the answer counts the successes since the last failed fork |
| ProcessTable.LastForkDecides | src/proc_helper.c:345-355 | the answer is positive, so that the round costs a retry, if and only if the last fork of the round succeeded; it is never an error |
| ProcessTable.AnswerAsPromisedIff | src/proc_helper.c:322-356 | the answer is the documented one, the number of children started or -1 after a failed fork, if and only if no fork fails |
| ProcessTable.SlotsAsPromisedIff | src/proc_helper.c:322-356 | the slots are those of a loop that is left at the first failed fork, as documented, if and only if no fork succeeds after it |
| ProcessTable.RoundRefines | src/proc_helper.c:335-353 | the loop over the slots does what the single steps of the supervisor do |
| WordRewriting.InitialStrstr | src/proc_helper.c:145-164 | the loop over strstr finds the first occurrence that is at the start of the string passed or after a space |
| WordRewriting.SegmentsJoin | src/proc_helper.c:179-201 | the source is its segments joined by the old word |
| WordRewriting.ReplaceByItself | src/proc_helper.c:179-201 | replacing a word by itself is the identity |
| WordRewriting.ReplacedLength | src/proc_helper.c:208-210 | the size formula does not underflow and is exactly the length of the result |
| WordRewriting.VisitedIff | src/proc_helper.c:145-177 | exactly these occurrences are visited: at the start, after a space or directly behind a visited one, and not inside a visited one |
| WordRewriting.VisitsDocumentedIff | src/proc_helper.c:145-177 | exactly when only occurrences at the start or after a space are visited, as documented: when none of these is directly followed by an occurrence that does not begin a word |
| WordRewriting.WordDocumentedIff | src/proc_helper.c:145-177 | for a word without spaces, such as "./": if and only if no occurrence at the start of a word is directly followed by another |
| WordRewriting.AdjacentWordsBothVisited | src/proc_helper.c:145-177 | in "././a" both "./" are visited, which the documentation of the function does not promise |
| WordReplacer.CountInitialSubstrings | src/proc_helper.c:166-177 | the count is the number of visited occurrences |
| WordReplacer.ReplaceInitialSubstrings | src/proc_helper.c:179-201 | the destination holds the segments joined by the new word and a NUL, and nothing behind that is written |
| WordReplacer.AllocReplaceInitialSubstrings | src/proc_helper.c:203-216 | the block allocated has exactly the size of the result and its NUL and holds it; without memory nothing is allocated |
| WordReplacer.FreeSubstringArray | src/proc_helper.c:249-255 | exactly the array and its strings are freed, each of them once |
| WordReplacer.ReplaceInitialSubstringArray | src/proc_helper.c:218-247 | either all strings are there, rewritten, in fresh blocks that are all that was allocated, or nothing is and nothing stays allocated |
| WordReplacer.RewriteUseAndFree | src/proc_helper.c:257-273 | rewriting and freeing together leave the memory as it was |
| RequestLifecycle.StepInv | mjpg-streamer-master/mjpg-streamer-experimental/plugins/input_libcamera/LibCamera.cpp:80-270 | every step of the camera, its callback, the worker and other threads keeps the ownership of requests |
| RequestLifecycle.RequestsOwned | mjpg-streamer-master/mjpg-streamer-experimental/plugins/input_libcamera/LibCamera.cpp:80-270 | over all interleavings: each live request is in exactly one place, the queue holds none twice and only those of the current generation, the worker has none that is queued, and while nothing fails no request falls out of circulation |
| RequestLifecycle.ReadInOrder | mjpg-streamer-master/mjpg-streamer-experimental/plugins/input_libcamera/LibCamera.cpp:187-222 | first in, first out, over all interleavings: since the queue was last cleared, the requests pushed, in order, are the requests read, in order, followed by the queue |
| RequestLifecycle.CompletedArePushed | mjpg-streamer-master/mjpg-streamer-experimental/plugins/input_libcamera/LibCamera.cpp:176-185 | a request is pushed once for each time the camera completed it, and a cancelled one is not |
| RequestLifecycle.FrameRound | mjpg-streamer-master/mjpg-streamer-experimental/plugins/input_libcamera/input_libcamera.cpp:470-499 | one round of the worker with a frame in the queue hands its request back and comes back to the loop condition, also when the camera refuses it |
| RequestLifecycle.FirstStartFails | mjpg-streamer-master/mjpg-streamer-experimental/plugins/input_libcamera/input_libcamera.cpp:468-482 | a failed first start goes unnoticed: the loop is entered and polls an empty queue |
| RequestLifecycle.LaterStartFails | mjpg-streamer-master/mjpg-streamer-experimental/plugins/input_libcamera/input_libcamera.cpp:427-446 | a start that fails after a switch ends the program |
| RequestLifecycle.SnapshotResetsOnce | mjpg-streamer-master/mjpg-streamer-experimental/plugins/input_libcamera/input_libcamera.cpp:470-482 | a snapshot of another size resets the camera exactly once before the next frame is read, whatever is asked for meanwhile |
| RequestLifecycle.SnapshotNoticed | mjpg-streamer-master/mjpg-streamer-experimental/plugins/input_libcamera/input_libcamera.cpp:470-477 | a snapshot asked for at the loop condition leads to a switch when its size is another one |
| RequestLifecycle.StopNoticed | mjpg-streamer-master/mjpg-streamer-experimental/plugins/input_libcamera/input_libcamera.cpp:470-470 | a stop asked for there ends the loop and leaves a wish for a snapshot as it is |
| RequestLifecycle.SnapshotMet | mjpg-streamer-master/mjpg-streamer-experimental/plugins/input_libcamera/input_libcamera.cpp:472-479 | the switch meets the wish for a snapshot, if nobody asks again after it |
| RequestLifecycle.SwitchedBackOnce | mjpg-streamer-master/mjpg-streamer-experimental/plugins/input_libcamera/input_libcamera.cpp:494-498 | after the frame the camera is reset exactly once before the loop goes on |
| RequestLifecycle.StopEndsReading | mjpg-streamer-master/mjpg-streamer-experimental/plugins/input_libcamera/input_libcamera.cpp:470-502 | once the wish to stop is there at the loop condition no further frame is read |
| RequestLifecycle.StopFinishes | mjpg-streamer-master/mjpg-streamer-experimental/plugins/input_libcamera/input_libcamera.cpp:470-507 | from there the worker can always come to its end with all requests destroyed |
| RequestLifecycle.StrayedExactly | mjpg-streamer-master/mjpg-streamer-experimental/plugins/input_libcamera/LibCamera.cpp:80-270 | exactly which live requests are out of circulation while the worker takes frames: those that a refused returnFrameBuffer left, and those that a failed start left idle |
| RequestLifecycle.DestroyedUnshared | mjpg-streamer-master/mjpg-streamer-experimental/plugins/input_libcamera/LibCamera.cpp:242-270 | when stopCamera destroys the requests, neither the camera, its callback, the queue nor the worker holds one |
| RequestLifecycle.QueuedRequestFree | mjpg-streamer-master/mjpg-streamer-experimental/plugins/input_libcamera/LibCamera.cpp:161-178 | the camera is only ever given a live request that it does not hold |
| GpioLines.Gpio.Open | src/gpio_control.c:213-263 | 0 exactly if the library is open afterwards, ENODEV without lines and ENOMEM without memory; all pins without request; a failure closes the chip again |
| GpioLines.Gpio.Close | src/gpio_control.c:265-289 | no request is held and the chip is closed |
| GpioLines.Gpio.BuildLineRequest | src/gpio_control.c:135-211 | a request of just this line or none, and on every path all temporary objects are freed; without a failure of the library a valid direction is granted |
| GpioLines.Gpio.Direction | src/gpio_control.c:291-344 | on success the pin is held in the new direction, driven low; a failure keeps the recorded direction, and an output that is held again keeps its level; EBADF and EINVAL where they apply; a pin ends up without request only if two calls of the library failed, or one and the direction was invalid; an invalid direction without a failure leaves the pin requested, also a fresh one; no other pin is touched |
| GpioLines.Gpio.Read | src/gpio_control.c:346-377 | the level of the line, for inputs and outputs: 1 exactly if the library says that it is active, or the error that applies; nothing changes |
| GpioLines.Gpio.Write | src/gpio_control.c:379-409 | the level of an output changes, or nothing does: EINVAL for a value that is no level, a pin that does not exist or is not requested, EBADF on a closed library, EPERM for an input, and otherwise 0 exactly if no call of the library failed; no other pin is touched |
| GpioLines.Gpio.Session | src/gpio_control.c:213-409 | after any calls in any order with any failures the requests held are exactly those in the table, and after a close there are none |
| AlarmPolling.Monitor.PollSensor | src/gpio_polling.c:246-262 | one reading of a sensor adds an event exactly when it differs from the last successful armed reading, and touches no other sensor |
| AlarmPolling.Monitor.PollOnce | src/gpio_polling.c:235-275 | one turn of the loop adds the events of its sensors, in their order, and the first error; a disarmed or failed turn adds nothing |
| AlarmPolling.Monitor.Run | src/gpio_polling.c:219-279 | over every run: the events are those of all turns and sensors, in this order, captures are requested exactly for the events with value 1, and the first error is returned |
| AlarmPolling.EventsOfSensor | src/gpio_polling.c:249-253 | the events of a sensor are the changes in 0 followed by its successful armed readings, and there are none of any other sensor number |
| AlarmPolling.TurnReads | src/gpio_polling.c:238-248 | in terms of the pins: a turn hears a sensor exactly when the arming pin reads 0 and the sensor can be read |
| AlarmPolling.DisarmedIsSilent | src/gpio_polling.c:238-241 | a run in which the arming pin never reads 0 reports nothing |
| AlarmPolling.ArmedReadsAll | src/gpio_polling.c:238-248 | a run in which it always reads 0 and no read of a sensor fails hears all its bits |
| AlarmPolling.CapturesAreHigh | src/gpio_polling.c:200-208 | captures are requested for exactly the events with another value than 0 |
| AlarmPolling.TurnError | src/gpio_polling.c:238-273 | the error of a turn is that of the arming pin, or of the first sensor that fails while armed |
| AlarmPolling.ErrorIsFirst | src/gpio_polling.c:255-273 | the error returned is that of the first turn that has one |
| AlarmPolling.EventsAlternate | src/gpio_polling.c:249-253 | the values reported for a sensor alternate, beginning with 1 |
| AlarmPolling.AlarmsAreRises | src/gpio_polling.c:200-208 | a sensor raises as many alarms as its readings rise |
| AlarmPolling.SilentPollAddsNothing | src/gpio_polling.c:238-273 | a turn adds no reading of a sensor if and only if the alarm was not armed or the sensor could not be read |
| PictureFolder.NameOrder | mjpg-streamer-master/mjpg-streamer-experimental/plugins/output_file/output_file.c:259-266 | names are ordered as they are written: by time stamp, and within one by counter, for counters below 10^9 |
| PictureFolder.NameText | mjpg-streamer-master/mjpg-streamer-experimental/plugins/output_file/output_file.c:259-266 | a name is the stamp, "_picture_", the counter in nine decimal digits, and ".jpg" |
| PictureFolder.WrittenInOrder | mjpg-streamer-master/mjpg-streamer-experimental/plugins/output_file/output_file.c:250-268 | with a clock that does not go back the names of a run increase |
| PictureFolder.Folder.MaintainRingbuffer | mjpg-streamer-master/mjpg-streamer-experimental/plugins/output_file/output_file.c:153-196 | min(size, n) pictures remain, and they are the largest by name; nothing happens for a negative size |
| PictureFolder.Folder.Turn | mjpg-streamer-master/mjpg-streamer-experimental/plugins/output_file/output_file.c:245-325 | one turn writes its picture and cleans up when it is due |
| PictureFolder.Folder.WorkerThread | mjpg-streamer-master/mjpg-streamer-experimental/plugins/output_file/output_file.c:245-325 | after iteration c the folder holds at most size + c mod (exceed + 1) pictures, whatever it held at the start; with new names exactly min(size, all up to the last clean-up) and all since, and always the largest of all there ever were; with a negative size everything is kept |
| PictureFolder.LastOnesKept | mjpg-streamer-master/mjpg-streamer-experimental/plugins/output_file/output_file.c:153-196 | among pictures written in the order of their names, what is kept are the last ones |
| PictureFolder.CleanedWorker | mjpg-streamer-master/mjpg-streamer-experimental/plugins/output_file/output_file.c:245-325 | in terms of time: when the clock does not go back, any clean-up, the first included, leaves min(size, all there ever were) pictures, which are the last size written, or all written and the newest of those before |
| DhtInsertion.IsHuffman | mjpg-streamer-master/mjpg-streamer-experimental/plugins/input_uvc/v4l2uvc.c:574-587 | a table is found if and only if there is an FFC4 at an offset of at most 2048 with no FFDA before it |
| DhtInsertion.MemcpyPicture | mjpg-streamer-master/mjpg-streamer-experimental/plugins/input_uvc/v4l2uvc.c:594-615 | the output is the frame when a table is found, else the frame split at its first FFC0 with the table in between, or nothing without an FFC0; nothing behind it is written |
| DhtInsertion.InsertedIsFoundIff | mjpg-streamer-master/mjpg-streamer-experimental/plugins/input_uvc/v4l2uvc.c:574-615 | after an insertion the table is found if and only if the FFC0 was at an offset of at most 2048 with no FFDA before it |
| DhtInsertion.InsertionIdempotentIff | mjpg-streamer-master/mjpg-streamer-experimental/plugins/input_uvc/v4l2uvc.c:594-615 | for a frame with its FFC0 in it and no table found, a second application changes nothing if and only if that holds; otherwise it inserts a second table |
| DhtInsertion.FrameWithTableUnchanged | mjpg-streamer-master/mjpg-streamer-experimental/plugins/input_uvc/v4l2uvc.c:594-615 | a frame whose own bytes show its table is left alone, also the second time |
| PushoverConfig.Config.Fscanf | src/pushover2.c:126-128 | one call of fscanf: white space, the tag, white space, a word of limited length, white space |
| PushoverConfig.Config.LoadFile | src/pushover2.c:121-133 | the reading loop on the file position and the static strings does what the reading of the remaining text gives |
| PushoverConfig.ScanOtherTag | src/pushover2.c:123-128 | the call for a tag that is not there consumes nothing but white space, thanks to distinct first letters |
| PushoverConfig.PrintedFileRoundTrip | src/pushover2.c:121-133 | print/parse round trip: every variable holds the last value printed for its tag, in any order, with any white space, with or without a final newline |
| PushoverConfig.ThreeLines | src/pushover2.c:121-128 | spelled out for a file of three variables: each gets what stands behind its own name, with any of the six white-space characters between them |
| PushoverConfig.LongValueIsCut | src/pushover2.c:18-19 | a value is cut off at 2083 characters for the URL and at 160 for the others, and reading goes on in its middle |
| PanTilt.Control.Move | mjpg-streamer-master/mjpg-streamer-experimental/plugins/input_control/input_uvc.c:259-390 | the tracked position becomes the target of the command, at most one move is sent, and the answer is in whole degrees, rounded towards zero |
| PanTilt.Control.InputCmd | mjpg-streamer-master/mjpg-streamer-experimental/plugins/input_control/input_uvc.c:232-401 | absolute commands lead to the angle asked for, up to 70 degrees of pan and 30 of tilt, steps are made within these, and the answer is the position in whole degrees, cut off; tracked pan and tilt are the sums of the moves sent since the last successful reset and in range, no move is sent before one, a failed reset changes nothing, and the mutex is taken once and released on every path |
| PanTilt.ClampIsNearest | mjpg-streamer-master/mjpg-streamer-experimental/plugins/input_control/input_uvc.c:271-271 | a target out of range is replaced by the end of the range that is nearest to it |
| PanTilt.Control.RunAll | mjpg-streamer-master/mjpg-streamer-experimental/plugins/input_control/input_uvc.c:232-401 | the same over every run of commands; after a reset, runs of moving commands lead where the commands say |
| PanTilt.AbsoluteForgets | mjpg-streamer-master/mjpg-streamer-experimental/plugins/input_control/input_uvc.c:271-283 | in any run of commands with an absolute pan (tilt) among them, the pan (tilt) it leads to does not depend on where the camera was |
| PanTilt.StepsBackIff | mjpg-streamer-master/mjpg-streamer-experimental/plugins/input_control/input_uvc.c:298-320 | n steps and n opposite steps, on either axis and in either order, lead back exactly when all of the first were made, or not even one of the second could be made from the start |

## Left out

- ScanDecoder.Decoder.ReadTable: asks that the bits which the window is filled with are there, 16 before and after every code, because the original reads past the end of its data otherwise; a shift by the full width or by -1 counts as 0.
- BlockCoding.DecodeEncodedBlock: a symbol that is on several rows counts as being on the first of them, which is the one whose code is written.
- ScanLoop.RestoreScan: the table for each component is the one its index names, also where the original would mix DC and AC tables.
- DhtSegment.ParseSegment: asks that the ids name one of the four tables and that the definitions lie in the buffer; the original does not check either.
- The sharpness weights and sums, the number of MCUs, quantisation tables and the other JPEG markers of the autofocus plugin: no entropy decoding.
- MultipartExtractor.ReceiveFrames: should_stop is taken to stay set once it is. A missing callback, the socket and the host options are not modelled.
- Supervisor.NoExitMissed: SIGCHLD is taken to stay pending while it is blocked, as in a process whose other threads block it too; stopped children are only reported, and sigprocmask itself does not fail.
- Supervisor.StepInv: the loop of `wait_child_processes` is a sequence of steps on values, not a method, because what other processes do between any two of its calls is the point; the loops it calls are methods in `ProcessTable`.
- The fork, exec and pipe work of `proc_helper.c`, log output and the path of the executable; fork answers with the pid of no other child.
- WordRewriting.InitialStrstr: asks for a non-empty word, without which the original does not terminate.
- WordReplacer.AllocReplaceInitialSubstrings: sizes are unbounded numbers, so that the overflow of a `size_t` is not modelled.
- RequestLifecycle.RequestsOwned: control lists are not followed, only requests; `stop()` of the camera is taken to cancel what is pending and to return when no callback is under way. The methods of `LibCamera` are steps on values, because what matters is how they interleave; buffers and mappings are not modelled.
- GpioLines.Gpio.Direction: the line library is a model of its own in which every call may fail; bias settings beyond the direction code, and the level of a line while it is released, are not modelled.
- `configure_gpios` and its fixed sequence of calls: it adds only easy members.
- AlarmPolling.Monitor.Run: notifications and captures are recorded, not sent; the relay option that is compiled out is not modelled.
- PictureFolder.Folder.MaintainRingbuffer: deleting does not fail, and the folder is reduced to the files whose names match; the link, the external command and MJPG recording are not modelled.
- PictureFolder.CleanedWorker: the pictures there at the start carry earlier time stamps, since the counter starts anew with the plugin.
- PictureFolder.WrittenInOrder: time stamps are strings of one length that do not decrease; how they are made from the clock is not modelled.
- DhtInsertion.IsHuffman: asks for more than 2050 readable bytes, which the original reads without knowing the size.
- PushoverConfig.Config.LoadFile: opening the file, what is checked after the loop, and the HTTP request are not modelled.
- PanTilt.Control.InputCmd: the camera carries out every relative move, and the product of value and 64 does not overflow.
- Network clients (public address, port mapping, Telegram, ownCloud, capturer), command-line options, plugin loading, the web pages and the remaining plugins: plumbing over libraries that are not part of this model.
