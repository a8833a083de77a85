# minio-cpp: uploads, streams and checksums

This project models the parts of the minio-cpp S3 client that carry state from one step to the
next, and proves what they promise. Each module follows one piece of the client:

- **Multipart upload** (`PartPlan`, `Pieces`, `Server`, `UploadLedger`, `Upload`). The stream is
  planned, cut, read into a ring of buffers and sent by asynchronous workers. A worker keeps only a
  view of its buffer and reads it byte by byte at any moment between its dispatch and its
  completion; the reader writes the same buffers byte by byte. Any number of steps of any workers
  may come before every byte the reader writes and before every event of its own: filling a slot,
  opening the upload, dispatching, failing to create a thread, collecting and reporting. `Upload.Session` has the locals of `Client::PutObject` as fields; every run leaves a
  `History` of events, and `Server.Replay` is what a storage server makes of those events. The main
  result is the contract of `Upload.PutObject`: all or nothing, for every schedule, every answer of
  the server, every stream and every argument.
- **S3 Select** (`SelectProtocol`, `SelectHandling`, `SelectCodec`). The meaning of a stream of
  frames is a function on its bytes (`Decode`); `SelectHandler` is the resumable field-by-field
  decoder. The handler is proved against a chunk-by-chunk function (`Pump`), and that function
  against `Decode`, for all ways of cutting the stream, with an exception of the number reader as
  one of the ways a stream can end.
- **CRC-64/NVME** (`Iteration`, `Words`, `ShiftRegister`, `Crc64`). The table-driven loop, the shift
  register it stands for, the same division in normal bit order as section 5.2.1.3.4 of the NVM
  Express NVM Command Set Specification gives its polynomial, and the bursts it always detects.
- **Listing and composing** (`Listing`, `ListingRuns`, `ListingV1`, `ListingV2`, `ListingVersions`,
  `ComposePlan`, `ComposeNumbers`, `Compose`). The prefetching list iterator over a server that may
  answer anything; recursive listings with all three APIs over a bucket, the server being free to
  choose the length of every page and the meaning of its tokens; and the two passes of server-side
  composition, stated in the caller's numbers.
- **Framing and encodings** (`Notification`, `UriCodec`, `Query`, `Multimaps`). Newline framing of
  bucket notifications, percent-encoding after sections 2.1 and 2.3 of RFC 3986, paths, query
  strings and the case-insensitive multimap.

Where the code and what is written about it differ, the model follows the code:

- `kMaxPartSize` is a product of 32-bit operands and wraps (include/miniocpp/utils.h:55-57), so it is
  1 GiB and `kMaxObjectSize` is 1 TiB; the comments and messages say 5 GiB and 5 TiB.
- `CalculatePartCount` takes its sources by value (src/client.cc:460-461). The sizes it measures stay
  on the copies, and `ComposeSource::ObjectSize` ends the process when the second pass asks for one
  (src/args.cc:401-410). `Compose.ComposeObject` says exactly when, `Compose.ComposeUnmeasured` that
  it always happens with sources as a caller builds them, and `Compose.UnmeasuredExists` names such
  an input. `Compose.MeasuredPlan` says what the second pass does with sources whose sizes are
  recorded.
- The range check of a compose source adds offset and length in 64 bits (src/args.cc:383-390), and a
  length of zero is accepted. `ComposePlan.PlanDenotes` gives the exact condition under which the
  copies still denote the selections; `Compose.ZeroLengthFails` and `Compose.WrappedRangeFails` are
  accepted inputs for which they do not.
- A Cont or payload-less Select frame ends the handling of a chunk (src/select.cc:173-177), so what
  has been delivered depends on the chunks exactly when a frame with a result stands behind one:
  `SelectProtocol.ChunkIndependence`, and `SelectCodec.RecordBehindCont` for such streams. A total
  length below 16 underflows (src/select.cc:66) and the decoder waits for more bytes forever; the
  model keeps that.
- A version marker without `include_versions` starts a version listing whose last marker may be
  empty; the next page is then an object listing (src/client.cc:305-315). `Listing.ApiIsKept` is
  the exact condition for a whole listing, and `Listing.ApiIsLost` an input that fails it.
- Parsing a page of versions collects the delete markers behind all versions (src/response.cc:305-330),
  so a version listing keeps the order of the versions and of the delete markers, but not the
  server's order of both: `ListingVersions.MarkersComeLast`.
- An upload ID with a space at either end, or an empty one, passes the check of no request
  (src/utils.cc:168-170), the abort included (src/args.cc:160-166). A server that hands one out is
  taken to have refused: no part and no abort names that upload.

Foreign code is a parameter or an arbitrary choice: the network and the server's answers, thread
creation and scheduling, memory allocation, the caller's progress and result functions, zlib's CRC32
(any function of the bytes), the XML and JSON readers, and the rounding of floating-point division
(any result within half a unit in the last place).

## Model

| member | source | states |
|---|---|---|
| Upload.PutObject | src/client.cc:1211-1664 | For every stream, argument, schedule of the workers and answers of the server: refused arguments send nothing and say why; otherwise the upload succeeds exactly when nothing was refused, the stream reaches the announced size and the parts number at most 10000, and else gives the first error. On success the server holds exactly the payload, from one whole request exactly if it is a single piece, and otherwise from one Create and one Complete as the last event with part numbers 1..n; nothing was aborted. Otherwise nothing is committed, and an upload opened under an ID of use gets exactly one Abort, as the last event, with no part in flight. With progress every part collected is reported before the uploader does anything else, without it nothing is; never more parts are in flight than asked for, than 100 or than there are, and the reader waits for one only with all slots in use |
| Upload.Session.UploadParallel | src/client.cc:1455-1618 | The same outcome for the ring of buffers, whatever workers do before each event and each byte of the reader, and whatever the order of completion |
| Upload.Session.UploadSequential | src/client.cc:862-1003 | The same outcome for one buffer, so the parallel upload refines this one |
| Upload.Session.constructor | src/client.cc:1329-1389 | Distinct fresh buffers large enough for a part, and for one byte more when the size is unknown |
| Upload.Session.WorkerStep | src/client.cc:1553-1556 | Any step of any worker, between a collection and its report too, keeps what holds at every moment: it reads only bytes of its own piece, and only validated parts reach the server |
| Upload.Session.Interleave | src/client.cc:1553-1556 | Any number of steps of any workers keeps what holds at every moment, a report owed or not |
| Upload.Session.Yield | src/client.cc:1553-1556 | Any number of steps of any workers between two events of the reader keeps the invariant |
| Upload.Session.AwaitFront | src/client.cc:1571 | Waiting for the oldest part ends, whatever the other workers do meanwhile and after it |
| Upload.Session.ReadPart | src/utils.cc:705-710 | Reads exactly the next bytes of the stream into place while workers run, without disturbing a byte that a part in flight still has to send |
| Upload.Session.PutByte | src/utils.cc:705-710 | A byte written to the free slot leaves the bytes of every part in flight alone |
| Upload.Session.ReadPartData | src/client.cc:1406-1453 | Either the stream is too short, or the buffer holds exactly the piece with this part number, and the reader stands behind it or is done with the exact number of pieces |
| Upload.Session.ReadPlannedPart | src/client.cc:1407-1422 | The same for a known size; the last part takes what is left, never more than the buffer |
| Upload.Session.ReadAhead | src/client.cc:1424-1440 | Reading one byte beyond a part puts the held byte first and stays within part size plus one |
| Upload.Session.Conclude | src/client.cc:1442-1450 | A short read is the last piece and fixes the count; otherwise the byte beyond the part is held and neither lost nor repeated |
| Upload.Session.ReadIntoSlot | src/client.cc:1474-1481 | The slot about to be refilled belongs to no part in flight, and afterwards holds the next piece |
| Upload.Session.CreateIfNeeded | src/client.cc:1500-1516 | The upload is opened at most once; a server that hands out an ID no request may name is accounted as a refusal |
| Upload.Session.LaunchAsync | src/client.cc:1553-1564 | The part goes in flight from its slot and the ring moves on, or the missing thread becomes the error |
| Upload.Session.CollectFront | src/client.cc:1460-1472 | The oldest part leaves the ring; its tag or its error is kept and no error is forgotten, with other workers acting between the collection and the report |
| Upload.Session.TakeFront | src/client.cc:1568-1577 | After a collection a report is owed exactly if reports are asked for and nothing failed so far, of the size that brings the reports up to the cut of this part |
| Upload.Session.PutWhole | src/client.cc:1483-1497 | A single part is the whole payload in one request |
| Upload.Session.Complete | src/client.cc:1593-1618 | Completion commits the payload, or is refused and the upload aborted |
| Upload.Session.Fail | src/client.cc:1581-1591 | Aborts what was opened, once, after everything in flight was collected |
| Upload.PlannedPiece | src/client.cc:1407-1411 | For a planned division the part read in full is the piece of its number, and the last one ends at the object size: the subtraction for it never underflows |
| Upload.PlannedCount | src/client.cc:1311-1327 | A planned division has exactly as many pieces as planned, so a plan of one part is a single piece |
| Upload.AheadPiece | src/client.cc:1442-1450 | What one byte of look-ahead reveals: a short read is the last piece and its number is the piece count, a full one is a full piece and not the last |
| UploadLedger.NextSlotFree | src/client.cc:1564 | With fewer parts in flight than slots, the next slot in turn is used by none of them |
| UploadLedger.SlotsInFlight | src/client.cc:1458-1474 | In every reachable state the slot of the next part differs from the slot of every worker in flight |
| UploadLedger.RunAfterStored | src/args.cc:182-194 | A part is stored as its own piece under its own number between 1 and 10000, and every invariant of the run is kept |
| UploadLedger.RunAfterInvalid | src/args.cc:182-194 | A part whose upload ID fails the non-empty check, or beyond 10000, never reaches the server and is accounted as a failure |
| UploadLedger.RunAfterDispatch | src/client.cc:1549-1564 | Dispatching keeps: in flight are exactly the last parts dispatched, in their ring slots |
| UploadLedger.RunAfterFront | src/client.cc:1568-1579 | Collecting keeps the part list equal to the pieces 1, 2, 3, ... as stored, or an error is recorded |
| UploadLedger.RunAfterReport | src/client.cc:1391-1404 | Reporting keeps the reports cumulative: the k-th one covers the first k pieces; a refusal becomes the error |
| UploadLedger.RunIsPrompt | src/client.cc:1460-1472 | While no report is owed and nothing failed, as many parts have been reported as collected, or none without progress |
| UploadLedger.RingInFlight | src/client.cc:1564 | The parts in flight are exactly those dispatched and not collected, as many as there are workers, and leave the next slot free |
| UploadLedger.PartsDenotePayload | src/client.cc:1593-1600 | Once all pieces are collected without error, the server assembles the part list to exactly the payload |
| UploadLedger.CompleteSucceeds | src/client.cc:1593-1618 | An acknowledged completion ends in the all-or-nothing outcome |
| Server.AssembleJoins | src/client.cc:1593-1600 | A list of parts 1..n with the tags handed out for them denotes the pieces 1..n joined |
| Texts.UsableIsTrimmed | src/utils.cc:161-170 | An upload ID passes the check exactly if it is not empty and has no space at either end |
| Texts.TrimIsLongest | src/utils.cc:161-166 | Trimming leaves the stretch between the spaces at both ends |
| Pieces.PiecesTile | src/client.cc:1455-1481 | The pieces joined are the stream; there are max(1, ceil(n/p)) of them, all but the last full and the last not empty unless the stream is |
| Pieces.JoinedIsPrefix | src/client.cc:1481 | The first n pieces joined are the stream up to the n-th cut |
| Pieces.LastPiece | src/client.cc:1442-1447 | The piece that reaches the end is the rest of the stream, and its number is the count |
| PartPlan.CalcPartInfo | src/utils.cc:712-759 | Refuses exactly the stated argument combinations, each for the first reason that applies, in bytes; otherwise (count-1)*size < n <= count*size with 1 <= count <= 10000, and parts that are not alone lie between the minimum and the maximum part size |
| PartPlan.RoundedCeil | src/utils.cc:744-745 | A rounded double quotient of integers below 2^53 has the ceiling of the exact quotient |
| PartPlan.SizeFromDoubles | src/utils.cc:742-746 | The two rounded ceilings give the exact part size |
| PartPlan.DefaultPartSizeFits | src/utils.cc:742-751 | With no part size given, every supported object fits in 10000 parts of the chosen size, which is at most the maximum |
| PartPlan.DefaultPartSizeIsLeast | src/utils.cc:742-746 | The size chosen is the smallest multiple of 5 MiB with which 10000 parts cover the object |
| SelectHandling.SelectHandler.DataFunction | src/select.cc:234-244 | After a chunk the handler has delivered exactly what the pending bytes call for up to a skipped frame, holds exactly the rest, and ignores everything once it is done; it throws exactly where a number cannot be read; every turn shrinks what is pending |
| SelectHandling.Receive | src/http.cc:322-333 | Passing chunks on until a call says to stop or throws delivers exactly what the chunk-by-chunk meaning of the stream says, and ends as it says |
| SelectHandling.SelectHandler.Process | src/select.cc:114-232 | One turn does what the frame at the front of the pending bytes calls for, however many of its fields were read before |
| SelectHandling.SelectHandler.ReadHead | src/select.cc:116-131 | The prelude is read once, and its checksum refused exactly when it disagrees |
| SelectHandling.SelectHandler.ReadBody | src/select.cc:133-148 | The fields collected over any number of chunks are those of the frame, or its checksum is refused |
| SelectHandling.SelectHandler.ReadPrelude | src/select.cc:45-53 | Succeeds exactly when 8 bytes are pending, and no byte is lost either way |
| SelectHandling.SelectHandler.ReadPreludeCrc | src/select.cc:55-63 | Succeeds exactly when 12 bytes are pending, and no byte is lost either way |
| SelectHandling.SelectHandler.ReadData | src/select.cc:65-74 | Succeeds exactly when the length is at least 16 and the data is pending; below 16 the wrapped length is never available |
| SelectHandling.SelectHandler.ReadMessageCrc | src/select.cc:76-84 | Succeeds exactly when the whole frame is pending, and no byte is lost either way |
| SelectHandling.SelectHandler.Reset | src/select.cc:31-43 | Only the bytes behind the frame stay pending |
| SelectHandling.SelectHandler.DecodeHeader | src/select.cc:86-112 | Gives the header map of the bytes, past their end too, or refuses a value that is not a string |
| SelectHandling.SelectHandler.ActOn | src/select.cc:160-231 | Delivers, skips, throws or ends as the decoded headers call for |
| SelectProtocol.NextStable | src/select.cc:116-148 | Bytes that arrive later do not change what a complete frame means |
| SelectProtocol.NextShrinks | src/select.cc:133-232 | A frame takes at least 16 bytes from the front; results that end the stream come only from frames that stop it |
| SelectProtocol.ParseFields | src/select.cc:116-131 | The prelude fields alone decide a checksum refusal and how many bytes to wait for |
| SelectProtocol.ParseComplete | src/select.cc:133-148 | The four fields read in order are the frame that the bytes spell, or its checksum refusal |
| SelectProtocol.PumpResumes | src/select.cc:234-244 | Stopping at a skipped frame loses nothing: what is left decodes to exactly what is missing |
| SelectProtocol.FeedResumes | src/select.cc:234-244 | For every chunking, delivered results and pending bytes make up the decoding of the whole stream |
| SelectProtocol.FeedIsPrefix | src/select.cc:234-244 | For every stream and chunking, what was delivered is a prefix of the decoding of the whole stream |
| SelectProtocol.ChunkIndependence | src/select.cc:173-177 | What a stream delivers is the same for every two ways of cutting it if and only if no frame with a result stands behind a Cont or payload-less frame |
| SelectProtocol.SomeCutDeliversAll | src/select.cc:234-244 | Every stream has a cut, behind each frame, that delivers its whole decoding |
| SelectProtocol.AllCutsDeliverAll | src/select.cc:173-177 | Every cut delivers the whole decoding if and only if no frame with a result stands behind a skipped one |
| SelectProtocol.FrameAlone | src/select.cc:116-148 | A frame means the same when nothing follows it |
| SelectProtocol.TerminalIsLast | src/select.cc:160-171 | A result that ends the stream is delivered last and at most once; a stream that is over ended in one, in a refusal of the caller, or in an exception with no such result |
| SelectCodec.HeadersRoundTrip | tests/tests.cc:122-130 | Decoding encoded headers with names of 1..255 and values up to 65535 bytes recovers the whole header map |
| SelectCodec.FrameRoundTrip | tests/tests.cc:132-142 | An encoded frame decodes to its headers and payload, whatever follows it |
| SelectCodec.HeaderIsLast | src/select.cc:153-158 | Looking a name up in decoded headers gives the last value the encoder wrote for it, or nothing |
| SelectCodec.EndFrame | src/select.cc:167-171 | An encoded End frame ends the stream with the end result, whatever its payload and whatever follows |
| SelectCodec.ErrorFrame | src/select.cc:160-165 | An encoded error frame ends the stream with its code and its message, each from its own header |
| SelectCodec.NumbersFrame | src/select.cc:182-219 | An encoded Progress or Stats frame with a payload delivers the numbers read from it, ends with the XML error, or throws |
| SelectCodec.RecordsFrame | src/select.cc:221-226 | An encoded Records frame with a payload delivers it |
| SelectCodec.UnknownFrame | src/select.cc:228-231 | Any other event with a payload ends the stream with its name |
| SelectCodec.SkippedFrame | src/select.cc:173-177 | A Cont frame, and a frame without payload that is no error and no End, is skipped |
| SelectCodec.NotStringFrame | src/select.cc:96-98 | A header value that is no string, behind any that are, ends the stream whatever follows it |
| SelectCodec.CorruptPrelude | src/select.cc:121-129 | A prelude checksum that disagrees ends the stream with both numbers, before the frame is complete |
| SelectCodec.CorruptMessage | src/select.cc:138-147 | A message checksum that disagrees ends the stream with both numbers |
| SelectCodec.ShortLengthWaits | src/select.cc:66-67 | A frame length below 16 makes the decoder wait whatever arrives |
| SelectCodec.IntIsBigEndian | src/utils.cc:141-147 | Numbers are read most significant byte first |
| SelectCodec.RecordsDecode | tests/tests.cc:120-143 | A stream of encoded Records frames decodes to its payloads up to the first the caller refuses to go on after, with no byte left |
| SelectCodec.RecordsArrive | src/select.cc:221-226 | However the bytes arrive, a run of Records frames delivers exactly its payloads, in order, up to the first the caller refuses to go on after |
| SelectCodec.AcceptedIsPrefix | src/select.cc:221-226 | What a caller is given is a prefix of the payloads, all of them unless it refused, and it agreed to go on after every one but a refused last |
| SelectCodec.AnswerArrives | src/select.cc:160-244 | A complete answer, Records frames and then End, however it is cut and whatever follows it: the accepted payloads, then the end unless the caller refused, then nothing, and the stream is closed |
| SelectCodec.RecordBehindCont | src/select.cc:173-177 | Any encoded record behind any encoded Cont frame: one chunk delivers nothing, two chunks deliver the record |
| SelectCodec.SomeRecords | tests/tests.cc:120-143 | Such a record exists: one header and a line of text |
| Crc64.Crc64Nvme | src/utils.cc:411-419 | The table-driven loop computes the checksum of the bit-at-a-time shift register, for every buffer |
| Crc64.CheckValue | src/utils.cc:391-419 | The checksum of the ASCII digits 1 to 9 is the published 0xae8b14860a799888, which fixes polynomial, start value and inversion |
| Crc64.StartIsComplement | src/utils.cc:413-418 | For eight bytes or more the checksum is the complement of the register run from zero with the first eight bytes complemented |
| Crc64.Crc64NvmeTable | src/utils.cc:393-407 | Entry i is eight clocks of the register from i |
| Crc64.TableUpdate | src/utils.cc:415-417 | One lookup and one shift equal eight clocks with the byte added |
| Crc64.RegisterAppend | src/utils.cc:413-417 | The register runs over joined buffers as over one after the other |
| Crc64.RegisterInjective | src/utils.cc:415-417 | For a fixed buffer, different registers stay different |
| Crc64.BlockUpdate | src/utils.cc:415-417 | Up to eight bytes act as one word added to the register and clocked through |
| Crc64.DetectsBurst | src/utils.cc:411-419 | Buffers that differ only inside eight consecutive bytes have different checksums |
| Crc64.RegisterIsDivision | src/utils.cc:391-401 | Seen from the other end the register is long division by the polynomial in normal bit order |
| Crc64.ChecksumIsDivision | src/utils.cc:411-419 | Seen from the other end the checksum is that of the division started from all ones, inverted |
| ShiftRegister.StepsXor | src/utils.cc:399-401 | Any number of clocks is linear over exclusive or |
| ShiftRegister.StepsInjective | src/utils.cc:399-401 | Any number of clocks keeps different registers different |
| ShiftRegister.PolyReflected | src/utils.cc:391-395 | The constant is the polynomial of the comment read from its other end |
| Listing.ListAll | examples/ListObjects.cc:36-58 | Iterating to the end yields the items of all pages joined, up to the first page that does not continue, be it the last, an empty one or a failed request, and sends each page's request exactly once |
| Listing.ListObjectsResult.constructor | src/client.cc:287-303 | The iterator starts at the first item with its first page taken and the next one, if any, on its way |
| Listing.ListObjectsResult.Populate | src/client.cc:376-395 | The page that was on its way becomes current, and the next one is asked for exactly if this one has items and is truncated |
| Listing.ListObjectsResult.HasCurrent | include/miniocpp/client.h:67-71 | True exactly while items of the pages are left, and false only where no page continues |
| Listing.ListObjectsResult.Current | include/miniocpp/client.h:66 | The item at the current position of all pages joined |
| Listing.ListObjectsResult.Advance | include/miniocpp/client.h:73-79 | Moves by exactly one item of the joined pages, across page borders too, with each page requested once and at most one request ahead |
| Listing.FailureEnds | src/client.cc:335-362 | A failed request ends the listing and adds nothing |
| Listing.EveryRequestCarries | src/client.cc:329-333 | Every request of a listing carries the caller's prefix, no delimiter if recursive and '/' if not and none was given, and 1000 as the page size if none was given |
| Listing.FirstRequest | src/client.cc:335-354 | The first request goes to the API that the arguments ask for, with the caller's own markers |
| Listing.LaterRequest | src/client.cc:305-315 | Every later request carries the markers of its API that the page before it named |
| Listing.ApiIsKept | src/client.cc:305-315 | All requests of a listing go to the API of the first one if and only if versions were asked for outright, no version marker was given, or every page that continued handed out another one |
| Listing.ApiIsLost | src/client.cc:305-315 | A listing that begins at a version and goes on as a listing of objects |
| ListingRuns.NothingLost | src/client.cc:305-315 | At every page of a listing over a server that goes on where it stopped, the entries so far and what the next request asks for make up the whole listing |
| ListingRuns.Ends | src/client.cc:376-395 | Such a listing reaches a last page |
| ListingRuns.EndIsComplete | src/client.cc:376-395 | At its end it has read all entries it asked for, in the server's order |
| ListingRuns.ItemsAreEntries | src/response.cc:305-330 | The items of a listing are the entries read, each as often, with objects in order and delete markers in order |
| ListingRuns.ParsedKeepsAll | src/response.cc:305-330 | A parsed page keeps every entry and prefix, delete markers last, and a marker that the server names |
| ListingV1.MarkerIsLastName | src/response.cc:307-311 | A truncated V1 page, however long the server makes it, gets its last name as the next marker, named or not |
| ListingV1.AfterListed | src/response.cc:307-311 | Listing on from a listed name gives exactly what was listed after it |
| ListingV1.ListV1 | src/client.cc:344-351 | With pages of any lengths, iterating a recursive V1 listing to its end, which exists, yields every object with the prefix after the marker exactly once, in order |
| ListingV2.FromListed | src/client.cc:311-314 | The token for the place behind a listed entry gives exactly what was listed after it |
| ListingV2.ListV2 | src/client.cc:352-360 | The same for the default API, over a server that knows its tokens as places in the bucket: from a token exactly what stands behind its place, and without one what comes after the name to start after |
| ListingVersions.FromListedPair | src/client.cc:306-308 | The key and version of a listed entry give exactly what was listed after it |
| ListingVersions.StaysVersions | src/client.cc:335-336 | Every request of a version listing over such a server is one of versions, even where only a marker said so |
| ListingVersions.ListVersions | src/client.cc:335-343 | Iterating a recursive version listing to its end, which exists, yields every version and delete marker with the prefix behind the pair of markers exactly once, versions in order and delete markers in order |
| ListingVersions.MarkersComeLast | src/response.cc:329-330 | A page whose first entry is a delete marker lists it last |
| Compose.CalculatePartCount | src/client.cc:460-546 | Succeeds for exactly the sources with no verdict against any, in terms of offset, length and size alone, with the exact number of copies, and otherwise gives the verdict on the first source that has one; the running total may wrap |
| ComposeNumbers.RangeInNumbers | src/args.cc:370-391 | A range is accepted exactly if its offset is inside the object and its length and end are, the end also where it wraps past 2^64; an accepted source selects its length, or what is behind its offset, or all |
| ComposeNumbers.VerdictInNumbers | src/client.cc:464-541 | A source passes exactly if it is accepted and the totals up to it are within 1 TiB and 10000 copies |
| ComposeNumbers.AcceptedInNumbers | src/client.cc:464-541 | The first pass lets through exactly the lists with no verdict against any source |
| ComposeNumbers.SourceStretch | src/client.cc:600-669 | The copies of an accepted source without length put together the object from its offset on, or all of it; with a length exactly that stretch, or fail if it is empty or not there |
| ComposeNumbers.PlanStretches | src/client.cc:599-671 | The copies of the plan put together exactly the stretches asked for, one after the other, or fail |
| Compose.CountParts | src/client.cc:510-535 | The exact number of parts of one selection, and refusal exactly of a short last part that does not end the object |
| Compose.CopySource | src/client.cc:600-670 | Carries out the planned copies of a source up to their end, or up to exactly the first one that is not acknowledged |
| Compose.CopyParts | src/client.cc:599-671 | Copies everything exactly when all sizes are recorded and all copies acknowledged; ends the process exactly when a size is missing and all copies before it are acknowledged; otherwise stops at the first refusal |
| Compose.SecondPass | src/client.cc:599-681 | Composed exactly when every size is recorded and every copy and the completion acknowledged under an ID of use; ends the process exactly at a missing size that is reached; an abort follows exactly a refusal with an ID that the abort may name |
| Compose.ComposeObject | src/client.cc:548-682 | Exactly which arguments and answers lead to each outcome, why a list is rejected, and what was copied; an abort follows exactly a refusal of an opened upload (src/client.cc:1016-1025) |
| Compose.ComposeUnmeasured | src/client.cc:460-461 | Sources as a caller builds them, past the first pass and opened, always end the process |
| Compose.UnmeasuredExists | src/client.cc:460-461 | An input of that kind: the first byte of a two-byte object |
| Compose.MeasuredPlan | src/client.cc:599-671 | With measured sources: between 1 and 10000 copies, as many as counted; they put together exactly the stretches of the objects that were asked for, or fail if one is empty or not there; numbered in order, none above the maximum size, and only the last below the minimum |
| Compose.WholeCopyDenotes | src/client.cc:558-573 | Where the request becomes an ordinary copy there is one source, and its whole object is what was asked for |
| Compose.ZeroLengthFails | src/args.cc:376-390 | A length of zero is accepted for every object, and its plan cannot be carried out |
| Compose.WrappedRangeFails | src/args.cc:383-390 | An accepted range whose end wraps past 2^64, and whose plan cannot be carried out |
| ComposePlan.PlanDenotes | src/args.cc:370-391 | The copies denote the selected intervals joined, without gap or overlap, exactly when no source asks for zero bytes and none runs past its object; otherwise some copy cannot be satisfied |
| ComposePlan.SplitDenotes | src/client.cc:640-669 | The split copies of one selection put it together again |
| ComposePlan.SplitOutside | src/client.cc:640-669 | A selection that runs past its object has a copy that no server can satisfy |
| ComposePlan.PlanCount | src/client.cc:599-671 | The second pass makes as many copies as the first one counted |
| ComposePlan.PlanRegular | src/client.cc:494-530 | Copies are numbered 1, 2, 3, ..., fit in a part, and reach the minimum unless they end the object |
| Notification.Listener.DataFunction | src/baseclient.cc:1259-1285 | One call hands over the record lists of the lines now complete, up to a refusal or a malformed line, and keeps the unfinished line |
| Notification.LinesAppend | src/baseclient.cc:1261-1266 | Cutting a stream in two: the unfinished line of the first part runs on into the second |
| Notification.LinesAreTheStream | src/baseclient.cc:1263-1266 | The lines, each with its newline, and the tail are the stream; no line and not the tail holds a newline |
| Notification.CallsAppend | src/baseclient.cc:1262-1284 | The record lists of two runs of lines are those of the first, then those of the second unless the first was refused |
| Notification.CallsFromStart | src/baseclient.cc:1267-1284 | The n-th call is the whole record list of the n-th line with records; every such line before the end is called for, and the end is the last line, the first refusal or the first malformed line |
| Notification.ChunksDoNotMatter | src/baseclient.cc:1257-1285 | For every chunking, the callback sees the record lists of the complete lines in order up to the first refusal or malformed line, and the unterminated tail is what stays buffered |
| Notification.Receive | src/baseclient.cc:1257-1285 | Passing chunks on until a call does not end well hands over exactly the record lists of the whole stream's complete lines, and keeps its unfinished line |
| UriCodec.UriEncode | src/utils.cc:219-235 | Computes the percent-encoding whose laws the rows below give |
| UriCodec.UriDecode | src/utils.cc:237-258 | Computes the decoding, which leaves stray percent signs alone |
| UriCodec.RoundTrip | src/utils.cc:219-258 | Decoding an encoded byte string gives it back |
| UriCodec.UnreservedIsPlain | src/utils.cc:224-226 | Exactly the letters, the digits and four marks are unreserved |
| UriCodec.PlainIsKept | src/utils.cc:224-227 | Text of such bytes encodes to itself |
| UriCodec.OthersAreEscaped | src/utils.cc:228-231 | Every other byte becomes a percent sign and its two upper-case digits |
| UriCodec.EscapesOfBothCases | src/utils.cc:238-252 | Escapes with digits of either case decode to the same byte |
| UriCodec.StrayIsKept | src/utils.cc:247-255 | Text in which no percent sign is followed by two digits decodes to itself |
| UriCodec.EncodedIsPlain | src/utils.cc:219-235 | Encoded text holds only unreserved characters and percent signs |
| UriCodec.WholeAppend | src/utils.cc:237-258 | Decoding joined texts decodes each, when no escape is cut |
| UriCodec.EncodePath | src/utils.cc:260-275 | The path with every run of slashes made one and all else encoded: decoding gives the collapsed path, leading and trailing slash included |
| UriCodec.KeptRoundTrip | src/utils.cc:260-275 | Decoding a path encoded but for its slashes gives it back |
| UriCodec.FramedCollapses | src/utils.cc:264-272 | The non-empty tokens joined, with a slash in front and behind as the path has them, are the collapsed path |
| Query.QueryRoundTrip | src/utils.cc:650-667 | Splitting a query string on its separators and decoding gives exactly the pairs, in order |
| Query.TwoPairs | src/utils.cc:654-660 | Two pairs written out: an equals sign inside each, an ampersand between them |
| Multimaps.Multimap.Add | src/utils.cc:560-563 | The value joins those under the key as spelled, and the lower-case index still agrees |
| Multimaps.Multimap.AddAll | src/utils.cc:565-571 | Key by key the union of both maps, and the lower-case index still agrees |
| Multimaps.Multimap.Contains | src/utils.cc:583-585 | True exactly if some key differs in case only |
| Multimaps.AlikeButForCase | src/utils.cc:172-176 | Keys are found alike exactly if they have the same length and agree place by place but for the case of letters |
| Multimaps.Multimap.Get | src/utils.cc:587-598 | The values of every spelling of the key, spelling by spelling in order |
| Multimaps.FoundIfAdded | src/utils.cc:587-598 | A value is among those of a key exactly if some spelling of the key holds it |
| Multimaps.ValuesBySpelling | src/utils.cc:591-595 | The values come spelling by spelling, each spelling's in their own order |
| Multimaps.Multimap.Keys | src/utils.cc:605-609 | The lower-cased keys in order, each once |
| Multimaps.Multimap.ToQueryString | src/utils.cc:650-667 | The query string of all pairs, in key order and value order |
| Multimaps.SortedAscends | src/utils.cc:605-609 | A set is walked in strictly ascending order, so keys and values come in order and none comes twice |
| Multimaps.LessAtFirstDifference | include/miniocpp/utils.h:217-218 | The order is decided by the first byte that differs; a string comes before its extensions |
| Multimaps.AllPairsAscend | src/utils.cc:654-661 | The pairs of a query string ascend by key, and by value under each key |
| Multimaps.IndexKept | src/utils.cc:560-571 | Adding values under a key keeps the index in agreement with the map |
| Multimaps.QueryDetermines | src/utils.cc:650-667 | Multimaps with the same query string hold the same keys and values |

## Left out

- Sockets, TLS, timeouts, files and the HTTP exchange itself: a request is acknowledged or refused.
- SHA-256, HMAC, MD5, Base64, zlib's CRC32, and the XML and JSON readers: library code, abstract where it matters.
- SSE checks, region lookup, bucket and object name checks, and the headers of the requests.
- The RDMA and CUDA build, and with it the checksum carried by a part and the upload from a caller's buffer.
- Progress calls while a request is under way (src/client.cc:929-951), the averaged speed and the last call after completion; the cumulative call after each part is modelled.
- The sequential path sends a part on the calling thread; it is modelled by the worker steps of the ring, waited for before the next part is read.
- Part numbers beyond 32 bits: a part beyond 10000 already ends the upload.
- SelectHandling.SelectHandler.DataFunction: pending bytes are taken to fit a string (2^63-1 bytes), and `data[1]` of an empty string, which `DecodeHeader` may read, is taken as NUL like `data[0]`.
- The three numbers inside Select's Progress and Stats messages are one abstract value read from the payload.
- Compose.ComposeObject: the SSE headers of the copies, and the answers of single copies beyond yes and no.
- Listing.ListObjectsResult.Advance: the copies that post-increment makes, which share the page and the pending answer.
- Common prefixes of listings with a delimiter: they are kept on their page, but no server that groups keys is modelled.
- Multimaps.Multimap.ToQueryString: no claim on the order a signature needs; `map_` is ordered by raw key bytes, not by lower-cased or encoded ones, so none follows from the code. `ToHttpHeaders`, `GetFront` and `GetCanonicalHeaders` would add easy members.
- UriCodec.EncodePath: the empty path, for which the code reads outside the string.
- RemoveObjectsResult, credential providers, dates, post policies and the remaining bucket and object calls: one request each, or shallow.
