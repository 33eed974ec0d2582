# MySQL-Syncer: a verified model

MySQL-Syncer copies row changes from a MySQL server to Redis. A master process reads the
server's row-format binary log, keeps the rows of the tables a slave asks for, and sends them
as frames that each carry a resume position; a slave process takes the frames apart, calls the
row handlers of its tables and keeps the position for the next connection. This project models
that pipeline in Dafny, as the C code is written, and proves what it keeps and where it fails.

`dafny verify dfyconfig.toml` checks everything.

## Modules

- Bytes, Numbers: bytes, little-endian integers, C strings, decimal text and the digit loops.
- BinlogEvents: the binary log, its files and its index. BufferedFiles, Reader: the master's
  buffered reader and its event handlers, a class proved against Replication, the meaning of
  the handlers as a function on event sequences.
- EventBodies, WrittenLogs: event bodies and whole binlogs as MySQL writes them, what is read back
  from them, and what the slave's handlers are given in the end.
- Resume, Takeovers, Streams, TableLists: restarting once and any number of times, the order of
  events and files, the table list.
- Frames, DumpCommand, Slave, Reconnect: frames and the dump command both ways, the consumer
  thread, and the trip of a position from frame to new session.
- Spsc, ChunkRing, Wire, Transport, Buffers: the ring as a step system, a ring over chunks of a
  pool, with addresses, the length-prefixed stream, and all four threads of a connection with
  a ring and a pool on both processes; Buffers has the rings and buffers as classes. Liveness:
  what is handed over gets applied. Scripts, Overruns: runs in which a chunk is too small.
  EndToEnd joins Reader's frames, the command, Transport, Slave and WrittenLogs.
- ClassTable, SlabClasses, Pools: size classes, one class, and the pool.
- ColumnTypes, RowImages, RowRoundTrip, RowEvents, RowDelivery, RowOutcomes: column types, the
  row image decoder, and exactly when it gives back the images MySQL writes.
- Config, ConfigText: the configuration reader and the text it reads.
- SessionSlots: the master's table of sessions.

## Where the code differs from its evident intent

The model keeps the code as it is. Each of these has a lemma that shows it and, where the input
decides, one that says exactly when the code is right:

- Restarts inside a transaction, once (`Resume.ResumeIff`) and repeatedly (`Takeovers.TakeoversIff`,
  `Takeovers.PositionFrameIsSafeIff`, `Resume.SecondRestartLosesRows`).
- The throttle on position-only frames (`Replication.OnePositionFrame`), and rows outside a
  transaction (`Resume.SentIff`, `Resume.UnlistedRowsLeak`).
- The exact hit of the class search, which hands out chunks that are too small
  (`ClassTable.RoomIff`, `ClassTable.AllRequestsHaveRoomIff`); in every table of three classes or more
  a request for the middle size gets the smallest chunk (`ClassTable.MiddleClassTooSmall`). Delivery
  without change therefore holds for frames whose sizes both processes' tables answer rightly
  (`Transport.Delivery`), and the tables differ (`Overruns.ShippedTablesDiffer`); other frames can arrive
  with their end overwritten (`Overruns.MasterSpoils`, `Overruns.SlaveSpoils`), and a command of such a
  size can lose the end of its table list (`Overruns.CommandSpoils`, `EndToEnd.ListSpoils`).
- Values for the data pool that are empty or have such a size (`RowDelivery.EmptyValueFaults`,
  `RowDelivery.PlacedIff`, `RowDelivery.RoundTripIff`).
- A payload larger than the send buffer, on which the dump thread flushes for ever
  (`Liveness.OversizedIsNeverCopied`), and reads past the receive buffer (`Wire.RequestOverrunsIff`).
- Packed integers above 250 (`BinlogEvents.PackedIntIff`), and so table maps with more columns or
  metadata (`EventBodies.TableMapIff`).
- BIT columns (`RowRoundTrip.BitIsMisread`), and NULL columns in row images (`RowOutcomes.AllComeBackIff`, `RowDelivery.FirstNullFaults`,
  `RowOutcomes.NullVarcharIsMisread`).
- Long names in the table list (`TableLists.LongestNamesMatchPrefixes`).
- The dump command: an empty table list (`DumpCommand.CommandRoundTrip`), file names that are digits
  only or end in more than ten, and searches that leave the command (`DumpCommand.ParseDumpCmd`,
  `Numbers.EstrToU32`).
- The exhausted slot table (`SessionSlots.ExhaustedIff`).

The configuration reader checks keys against 20 characters and section names against 20, while its
buffers are declared for 12 and 6 (`src/core/rs_conf.h:8-10`, `src/core/rs_conf.h:22-23`); the
buffer sizes are parameters of `Config.Reader`, so `ConfigText.ReadsWhatIsWritten` holds for the
declared sizes as well as for buffers of the checked ones.

## Model

| member | source | states |
|---|---|---|
| Resume.ResumeIff | src/master/rs_parse_binlog.c:225-460 | Resume law, both ways: a session restarted with fresh state behind any event of a row-format binlog sends exactly the row frames the running session goes on to send, if and only if the cut is safe (outside a transaction, or no rows of a listed table whose map is behind and no second rows event of an unlisted one follow in it) |
| Resume.ResumeCompletes | src/master/rs_parse_binlog.c:225-460 | The row frames up to a cut followed by those of a restart behind it are the row frames of the whole run, if and only if the cut is safe |
| Resume.TrailsAgree | src/master/rs_parse_binlog.c:247-460 | The simulation behind the resume law: a running session inside a transaction and a restarted one send the same row frames over the rest if and only if the rest is safe for the table map last seen |
| Resume.InStepAgrees | src/master/rs_parse_binlog.c:247-460 | Two sessions that agree on the flags, and on the cached map where it still matters, send the same row frames from then on |
| Resume.PositionFrameIsSafe | src/master/rs_parse_binlog.c:422-438 | The place stamped in any position-only frame of a session begun at a transaction boundary is safe to resume from |
| Resume.SingleRowsResume | src/master/rs_parse_binlog.c:247-460 | With one rows event directly behind each table map, a restart loses or adds rows exactly at a cut between a listed map and its rows |
| Resume.EveryFrameIsSafe | src/master/rs_filter_binlog.c:69-112 | In such a binlog the place stamped in every frame, of either kind, of a session begun at a transaction boundary is safe to resume from |
| Resume.SecondRestartLosesRows | src/master/rs_parse_binlog.c:422-438 | An instance where repeated restarts lose rows: a session restarted inside a transaction stamps a position-only frame between a table map and its rows, and one more restart from it loses them; when in general is Takeovers.TakeoversIff |
| Takeovers.TakeoversIff | src/master/rs_parse_binlog.c:225-460 | Any number of restarts, behind any events: the row frames of all sessions together are those of one undisturbed run if and only if every cut is safe for what the session that starts there reads |
| Takeovers.SecondTakeoverIff | src/master/rs_parse_binlog.c:225-460 | A session started behind a safe cut and taken over once more: its row frames and those of the next session are together those it would have sent, if and only if the second cut is safe |
| Takeovers.RowFrameIsSafe | src/master/rs_filter_binlog.c:69-112 | With one rows event behind each table map, the place stamped in every row frame is safe to resume from, also when the session that made it was itself restarted anywhere |
| Takeovers.PositionFrameIsSafeIff | src/master/rs_parse_binlog.c:422-438 | The place in a position-only frame of any session is unsafe exactly between a listed map and its rows, and then inside a transaction whose beginning that session has not read |
| Resume.StateAfter | src/master/rs_parse_binlog.c:119-420 | After any events from a fresh start, transaction flag, filter flag and cached table map are functions of the binlog alone: the last query or commit, the last table map and the rows dropped outside a transaction since it |
| Resume.SentIff | src/master/rs_parse_binlog.c:323-420 | For every event sequence, a rows event is sent if and only if the last table map names a listed table, or a rows event outside a transaction was dropped since that map |
| Resume.FramesIff | src/master/rs_parse_binlog.c:422-460 | For every event sequence and every event of it: it leads to a row frame if and only if it is a rows event sent, and to a position-only frame if and only if it is the first event that is known, not itself sent, and leaves the session outside a transaction with rows of a listed table, or of a cleared filter, to come; the frame carries the stamp of the event |
| Resume.SentIffListed | src/master/rs_parse_binlog.c:247-420 | Where rows lie inside transactions behind their own map, a rows event is sent if and only if its own table is listed, and then with the names, types and metadata of its own map |
| Resume.FilterExact | src/master/rs_parse_binlog.c:247-420 | Filter exactness: the row frames of a run are, in order, exactly the rows events of listed tables, each with the columns of its own table map |
| Resume.UnlistedRowsLeak | src/master/rs_parse_binlog.c:331-339 | Outside a transaction the filter flag is cleared on the first dropped rows event, so the second rows event of an unlisted table is sent |
| Replication.StepState | src/master/rs_parse_binlog.c:176-182 | What one event does to the transaction flag, the filter flag and the cached names, types and metadata |
| Replication.PositionsIncrease | src/master/rs_parse_binlog.c:422-440 | Along any run over an ordered binlog the positions stamped on successive frames increase strictly by (file number, offset), and there are no more frames than events |
| Replication.OnePositionFrame | src/master/rs_filter_binlog.c:22-27 | A session, begun in any state in which at most one has passed, sends at most one position-only frame: the counter of held-back frames is set back to 1 each time; which event leads to it is Resume.FramesIff |
| Replication.FramesAreStamped | src/master/rs_filter_binlog.c:46-48 | Every frame of a run carries the file and end offset of one of its events |
| Streams.StreamOrdered | src/master/rs_read_binlog.c:210-251 | The events a reader goes through, over all files, come strictly in order of (file number, end offset) |
| Streams.StreamResumes | src/master/rs_request_dump.c:203-233 | A reader started at the stamp of event k stands inside a well-formed file and has exactly the events behind k ahead of it |
| Streams.NextInOrder | src/master/rs_read_binlog.c:219-238 | With an increasing index, the scan for the next file answers the next line |
| Streams.NoFileSkipped | src/master/rs_read_binlog.c:210-251 | With an increasing index the reader goes through the rest of its file and then every event of every later file, in order |
| TableLists.ListedIffMember | src/master/rs_parse_binlog.c:300-308 | The substring search of the quoted table name succeeds if and only if the table is in the configured list, as long as the name fits the handler buffer |
| TableLists.MatchesHead | src/master/rs_parse_binlog.c:300-308 | At the head of the list text the search succeeds if and only if the first entry is the name |
| TableLists.LongestNamesMatchPrefixes | src/master/rs_parse_binlog.c:252-308 | With database and table names of 128 characters together the closing comma is cut off: the search succeeds if and only if some entry of the list begins with the name |
| BinlogEvents.PackedIntIff | src/core/rs_string.c:275-298 | The packed integer reader gives back the number and length written if and only if the number is at most 250 |
| EventBodies.TableMapIff | src/master/rs_parse_binlog.c:263-298 | A table map written with names of up to 64 bytes is read back to its names, types and metadata if and only if it has at most 250 columns and at most 250 bytes of metadata |
| EventBodies.QueryRoundTrip | src/master/rs_parse_binlog.c:139-182 | A query event written with any status variables gives back its database name, and opens a transaction, closes it or leaves it as the written statement begins with BEGIN, with COMMIT or with neither |
| EventBodies.SqlMeans | src/master/rs_parse_binlog.c:176-182 | The text of a statement that begins with BEGIN is taken to open a transaction, with COMMIT to close it, and no other text to do either |
| EventBodies.SqlOf | src/master/rs_parse_binlog.c:176-182 | Every text is that of a statement of one of these three kinds |
| EventBodies.RowsArrive | src/slave/rs_redis_thread.c:48-115 | From binlog bytes to handler calls: the bodies of a table map and a rows event of a listed table, read by a session in any state, lead to one frame, and where their layouts agree the slave calls the handlers on exactly these rows, in order, up to the first with a value that cannot be copied where it goes |
| WrittenLogs.EntryIsRead | src/master/rs_parse_binlog.c:59-117 | An event written with its header is found again as what was written; it sends the reader to the next file if and only if it is a stop or rotate event with the number of the local server in its header |
| WrittenLogs.FileIsRead | src/master/rs_parse_binlog.c:59-117 | A file of written events, with headers, is well formed, and the master reads from it exactly what was written, up to a stop or rotate event of its own server or a torn header |
| WrittenLogs.BinlogIsRead | src/master/rs_read_binlog.c:210-251 | Over all files of an increasing index, a session that begins with the first reads what was written, file by file, in order |
| WrittenLogs.TextStep | src/master/rs_parse_binlog.c:119-420 | Whatever the session has read so far, a written event leaves it knowing the transaction and the table the log stands at, and leads to a row frame if and only if it is a rows event of a listed table |
| WrittenLogs.RowFramesArrive | src/slave/rs_redis_thread.c:48-115 | For every written log of any length, the row frames of its run go through the slave one and all, and hand on exactly the rows of the listed tables, in the order written, if their layouts agree and their values can be copied |
| WrittenLogs.LogArrives | src/slave/rs_redis_thread.c:23-115 | The same for all frames of a run from a fresh session, position-only ones included, counted as the consumer thread counts them |
| WrittenLogs.BinlogArrives | src/master/rs_request_dump.c:188-239 | From the bytes of all files of a binlog to the rows given to the handlers: those written for listed tables, all of them, in order, under the same condition on layouts and values |
| BufferedFiles.BufferedFile.TakeBuffered | src/master/rs_read_binlog.c:90-96 | Takes from the buffer exactly the file bytes at the cursor, and stops short only with the buffer empty |
| BufferedFiles.BufferedFile.Refill | src/master/rs_read_binlog.c:98-111 | Refills the empty buffer and takes the file bytes at the cursor; none exactly at the end of the file |
| BufferedFiles.BufferedFile.Read | src/master/rs_read_binlog.c:77-121 | Succeeds if and only if the file has that many bytes behind the cursor, and then returns exactly these and moves the cursor behind them, however the reads split the file |
| BufferedFiles.BufferedFile.Skip | src/master/rs_parse_binlog.c:442-457 | Whether the body is passed over inside the buffer or by seeking, the cursor ends at the end of the event |
| BufferedFiles.BufferedFile.Open | src/master/rs_request_dump.c:205-221 | After opening and seeking, the cursor is the asked position and nothing is buffered |
| Reader.Session.constructor | src/master/rs_read_binlog.h:70-98 | A new session starts with the filter flag set, the transaction flag clear and nothing sent |
| Reader.FindNext | src/master/rs_read_binlog.c:219-238 | The first index line whose number exceeds the current one |
| Reader.Session.HasNextBinlog | src/master/rs_read_binlog.c:210-252 | Moves to that file at its start, or leaves the session as it is when there is none |
| Reader.Session.ReadExact | src/master/rs_read_binlog.c:77-208 | Exactly the bytes at the cursor with file, number and position unchanged, or a move to the next file when the file ends first |
| Reader.Session.HeaderHandler | src/master/rs_parse_binlog.c:59-117 | Reads the header at the cursor and advances the dump position by the event length; ends the file exactly where no whole header is left |
| Reader.ReadQuery | src/master/rs_parse_binlog.c:139-182 | The pointer moves through a query body compute the database name and effect of the format function, which EventBodies.QueryRoundTrip shows to be those written |
| Reader.Session.QueryHandler | src/master/rs_parse_binlog.c:119-185 | Sets the database name and the transaction flag as the statement says; a body over the limit is passed over without effect |
| Reader.Session.IntvarHandler | src/master/rs_parse_binlog.c:188-223 | Takes its body; an insert id sets the id and its flag, any other type only the type kept, and no flag of the session changes |
| Reader.Session.XidHandler | src/master/rs_parse_binlog.c:225-245 | Takes its body and ends the transaction |
| Reader.ReadTableMap | src/master/rs_parse_binlog.c:263-298 | The pointer moves through a table map compute the names, types and metadata of the format function, which EventBodies.TableMapIff shows to be those written |
| Reader.Session.TableMapHandler | src/master/rs_parse_binlog.c:247-321 | Replaces the cached map and sets the filter flag by the list search |
| Reader.Session.RowsHandler | src/master/rs_parse_binlog.c:323-420 | A filtered event is passed over, clearing the filter outside a transaction; any other puts exactly one row frame with its body and the cached map in the ring, unless its chunk is refused, the only way to end with Err |
| Reader.Session.CreateData | src/master/rs_filter_binlog.c:12-115 | Asks for a chunk exactly where a frame is due; appends exactly that frame, or none where the throttle holds a position-only frame back; Err if and only if the chunk asked for is refused, and then the ring is unchanged |
| Reader.Session.StopHandler | src/master/rs_parse_binlog.c:468-491 | Of another server the event is passed over; of this server it ends the file |
| Reader.Session.FinishHandler | src/master/rs_parse_binlog.c:422-460 | Sends the position-only frame due outside a transaction and leaves the cursor at the dump position with skip and sent cleared; Err exactly if the chunk for that frame is refused |
| Reader.Session.Dispatch | src/master/rs_read_binlog.c:49-62 | Each event type reaches its handler: a frame if and only if the abstract step emits one, the flags of the abstract step otherwise |
| Reader.Session.HandleEvent | src/master/rs_read_binlog.c:49-67 | One event and its finish handler have exactly the effect of the abstract step on flags and ring, one request for a chunk for each frame, and end with Err exactly if it is refused |
| Reader.Session.Turn | src/master/rs_read_binlog.c:42-68 | Cursor invariant: at every loop head file offset minus unread buffered bytes is the dump position, whether the event was read, skipped or unknown |
| Reader.Session.ReadBinlog | src/master/rs_read_binlog.c:37-75 | The loop over one file puts in the ring exactly the frames of the events it has gone through, and ends where the file does, at an unknown event, or at the first frame whose chunk is refused |
| Reader.Session.ReadFile | src/master/rs_request_dump.c:203-233 | One round of the outer loop, including the reopening behind an unknown event, continues the same run over the same stream |
| Reader.Session.Dump | src/master/rs_request_dump.c:188-239 | The reader thread puts in the ring exactly the encoded frames of the events it has gone through, and goes through all there are before it waits, if and only if the pool grants a chunk for every frame of the run; otherwise it ends in front of the first frame refused |
| Frames.BuildPosFrame | src/master/rs_filter_binlog.c:46-66 | The chunk is the encoded position frame and its length computed up front is its size, the cut by snprintf included |
| Frames.BuildRowFrame | src/master/rs_filter_binlog.c:46-102 | The chunk is the encoded row frame and its length computed up front is its size |
| Frames.SplitEncode | src/slave/rs_redis_thread.c:51-64 | Frame round trip: the slave recovers position text, type, table name and row payload of every good frame, the payload being exactly the rest |
| Frames.TypedChunk | src/slave/rs_redis_thread.c:87-115 | Any chunk with a newline in front of its first NUL: the byte behind it decides, 0 for a position alone, a row type for rows behind a table name that ends in a NUL, and everything else is turned down |
| Frames.UntypedChunk | src/slave/rs_redis_thread.c:51-56 | A chunk without a newline in front of its first NUL, or with nothing behind that, is turned down |
| Frames.SplitByIndices | src/slave/rs_redis_thread.c:87-115 | The dispatch length arithmetic gives exactly the bytes behind the table name |
| Numbers.StrToU32 | src/core/rs_string.c:8-19 | The forward loop computes the value of the longest digit prefix modulo 2^32 |
| Numbers.EstrToU32 | src/core/rs_string.c:78-90 | The backward loop computes the value of the longest digit suffix modulo 2^32, for every text; it is undefined exactly for texts of digits only and for more than ten digits |
| Numbers.UintToStr | src/core/rs_string.c:186-202 | The buffer filled backwards holds the decimal digits of the number |
| Bytes.DigitsRoundTrip | src/core/rs_string.c:186-202 | Printed numbers read back as themselves |
| DumpCommand.SendDumpCmd | src/slave/rs_io_thread.c:126-152 | The packet is the length of the command text followed by the text |
| DumpCommand.ParseDumpCmd | src/master/rs_request_dump.c:126-186 | On any bytes, the parser that moves a pointer through the buffer computes the command the format function gives, gives up, or has an undefined outcome, as that function says |
| DumpCommand.TablesOutcome | src/master/rs_request_dump.c:140-181 | What becomes of any list in its commas and a NUL: turned down when empty, undefined without four bytes behind it, and else the list, or none where it begins with a comma, and the value of these bytes |
| DumpCommand.NoList | src/master/rs_request_dump.c:140-152 | A list that does not begin with a comma, or has no other, is turned down, and one without a NUL leads the search out of the command |
| DumpCommand.NoComma | src/master/rs_request_dump.c:126-129 | A command without a comma in front of its first NUL is turned down, and undefined without a NUL |
| DumpCommand.NoNewline | src/master/rs_request_dump.c:135-138 | So is a command without a newline behind its comma |
| DumpCommand.CommandRoundTrip | src/master/rs_request_dump.c:126-181 | Command round trip for every start position, list and sleep value: an empty list is turned down, a list beginning with a comma counts as none, anything else comes back exactly, with the number of the file |
| Slave.Applier.FlushSlaveInfo | src/slave/rs_redis_thread.c:133-175 | Writes the position exactly when enough frames have come in or enough time has gone by |
| Slave.Applier.Consume | src/slave/rs_redis_thread.c:48-77 | One frame: the position is kept, the handler of a registered table gets the rows of its payload, and the thread goes on exactly where the frame can be taken apart, its table is registered, and the decoding and every handler it calls succeed |
| Slave.EndIff | src/slave/rs_redis_thread.c:48-77 | The thread gives up exactly on a frame it cannot take apart, a table without handlers, and an error of the decoder or a handler; it crashes or loops exactly with the decoder |
| Slave.Applier.ConsumeAll | src/slave/rs_redis_thread.c:23-78 | Over any frames the master made and any failing handlers: up to the first frame that ends the thread, exactly the handler calls of the row frames and the rows these hand on, in order; slave.info holds the position of the frame lag frames back, all of them applied, and lag is less than the flush interval while the thread goes on |
| Slave.MadeIsAll | src/slave/rs_redis_thread.c:87-115 | The handler calls made for frames the thread goes on after are all the calls these frames stand for |
| Reconnect.StampSurvives | src/slave/rs_io_thread.c:126-152 | The stamp made for event k, taken apart by the slave, sent back and parsed by the master, names the place behind event k, where exactly the later events lie |
| Reconnect.Takeover | src/master/rs_request_dump.c:126-233 | The row frames up to any stamped frame and those of the session its position starts are those of an undisturbed run, if and only if the cut is safe |
| Reconnect.ManyTakeovers | src/master/rs_request_dump.c:126-233 | One takeover after the other, each by the position of any frame the session before made: every command leads to the place stamped, and the row frames of all sessions are those of an undisturbed run if and only if all cuts are safe |
| Reconnect.HandlerCallsExact | src/slave/rs_redis_thread.c:87-115 | A slave that consumes every frame of a run calls the handlers exactly for the rows events of listed tables, in binlog order |
| Reconnect.StreamIsClean | src/master/rs_parse_binlog.c:142-182 | No name read from any well-formed binlog contains a NUL, and rows events have a row type, so every frame can be taken apart |
| EndToEnd.CallsArePrefixOfDue | src/slave/rs_redis_thread.c:23-115 | Through both rings and the stream, in every run in which the frames and the command have chunks with room: what the slave has applied are the first frames of the events read, looking the list up in the command at every event, and their handler calls are the first of the calls due |
| EndToEnd.RowsArePrefixOfDue | src/slave/rs_redis_thread.c:23-115 | From the bytes of the binlog files: at every moment of such a run, the rows handed on for the frames applied are the first of the rows written for the tables asked for |
| EndToEnd.PutIsFilled | src/master/rs_filter_binlog.c:46-106 | In every run, with or without room, what the reader hands over is what it wrote, in order |
| EndToEnd.ListStays | src/master/rs_request_dump.c:114-181 | Where the command has a chunk with room, every look at the table list in any such run finds the list the slave sent |
| EndToEnd.ListSpoils | src/master/rs_request_dump.c:114-181 | Where it has not: a run from the start in which, after the first frame is written behind it, the list is its beginning followed by the text of that frame up to its NUL |
| Spsc.SlotsDiffer | src/core/rs_buf.c:193-198 | Items fewer than num apart never share a slot |
| Spsc.StepsKeepInv | src/core/rs_buf.c:146-206 | Every interleaved step, with stale copies of the other counter, keeps rn <= wn <= rn + num and both pointers in track modulo num |
| Spsc.ProducerSlotIsFree | src/core/rs_buf.c:178-191 | The slot a producer claims is none of those the consumer may read |
| Spsc.ConsumerReadsHead | src/core/rs_buf.c:146-160 | The slot a consumer claims holds the oldest item |
| Spsc.RefinesFifo | src/core/rs_buf.c:146-206 | Refinement: each step leaves the bounded queue as it is, appends the item written while there was room, or removes the head |
| Buffers.RingBuffer.Set | src/core/rs_buf.c:178-191 | Claims the slot to fill, or reports full exactly when num items are queued |
| Buffers.RingBuffer.SetAdvance | src/core/rs_buf.c:193-206 | Appends the filled slot to the queue |
| Buffers.RingBuffer.Get | src/core/rs_buf.c:146-160 | Reports empty exactly on an empty queue; otherwise gives the slot of the head |
| Buffers.RingBuffer.GetAdvance | src/core/rs_buf.c:162-176 | Removes the head of the queue |
| Buffers.TmpBuf.SendTmpbuf | src/core/rs_buf.c:27-54 | Succeeds exactly if no write answers 0, on an empty buffer without any write; then exactly what was buffered is written out, however the writes split it, and otherwise written plus unread bytes are as they were |
| Buffers.TmpBuf.RecvTmpbuf | src/core/rs_buf.c:56-96 | Returns exactly the next bytes of buffer and stream, if and only if they fit the buffer and arrive, unless a read went past the end of the buffer, which is reported exactly when more was read than the buffer holds and takes a second read |
| ChunkRing.FreeKeepsInv | src/master/rs_filter_binlog.c:40-44 | Freeing the chunk of the last round frees a live chunk, once, and clears the slot; ownership is kept |
| ChunkRing.AllocKeepsInv | src/master/rs_filter_binlog.c:50-58 | A chunk with memory of its own, put in the cleared slot, keeps every slot the owner of a distinct live chunk |
| ChunkRing.CommitKeepsInv | src/master/rs_filter_binlog.c:105 | Handing the slot over appends what is in its chunk to the payloads put in the ring |
| ChunkRing.ProduceKeepsInv | src/master/rs_filter_binlog.c:29-106 | Every step of a producer, on either process, keeps ownership, distinct memory and the lengths of all payloads, also when it writes past the end of its chunk or the pool has none |
| ChunkRing.ConsumeKeepsInv | src/master/rs_request_dump.c:43-91 | So does every step of a consumer |
| ChunkRing.ClaimedIsLive | src/master/rs_request_dump.c:77-84 | A consumer never follows a pointer to a freed chunk: it finds one as long as the next payload handed over |
| ChunkRing.ProduceKeepsExact | src/master/rs_filter_binlog.c:29-106 | As long as the chunks asked for have room, no step of a producer changes what was handed over |
| ChunkRing.ConsumeKeepsExact | src/master/rs_request_dump.c:43-91 | Nor does a consumer, and what it copies is the next payload as it was handed over |
| ChunkRing.ClaimedChunkIsStable | src/master/rs_filter_binlog.c:29-106 | While the consumer has a claim, no step of the producer touches its slot or frees its chunk, and none changes the contents as long as chunks have room |
| ChunkRing.StoreChangesIff | src/master/rs_filter_binlog.c:60-102 | Writing to a chunk changes the contents of another one that has room for them if and only if that one lies behind it, so near that the data reach it, and differs there |
| ChunkRing.ProduceKeepsHeld | src/master/rs_request_dump.c:114-115 | What else lives in the pool, as the command does, is never changed by a producer whose chunks have room, if it has room itself |
| ChunkRing.LiveChunksFitRing | src/master/rs_filter_binlog.c:29-106 | Live chunks never outnumber the slots |
| Wire.AppendCarries | src/master/rs_request_dump.c:77-84 | Copying a frame in the send buffer adds exactly this frame to those under way |
| Wire.WriteCarries | src/core/rs_buf.c:38-48 | A write of any size changes none of the bytes under way |
| Wire.ReadCarries | src/core/rs_buf.c:80-88 | A read of any size that fits changes none of the bytes under way |
| Wire.AskCarries | src/core/rs_buf.c:61-78 | Asking for bytes moves what is buffered without losing or repeating any |
| Wire.LengthIsNext | src/slave/rs_io_thread.c:79-82 | Four bytes received as a length are the length of the next frame |
| Wire.BodyIsNext | src/slave/rs_io_thread.c:84-97 | A body received is the next frame, and the frames behind it remain under way |
| Wire.QuietMeansDelivered | src/core/rs_buf.c:56-96 | With nothing sent or buffered and the receiver waiting, no frame is under way |
| Wire.SomeReadOverrunsIff | src/core/rs_buf.c:80-88 | The next read may run past the end of the buffer if and only if something is buffered already and, together with what is on its way, it is more than the buffer holds |
| Wire.RequestOverrunsIff | src/core/rs_buf.c:77-88 | Some way of splitting the stream makes a request run past the end of the emptied buffer if and only if it lacks at least two bytes and more is on its way than the buffer holds |
| Transport.DoKeepsGood | src/slave/rs_io_thread.c:64-100 | Every step of the four threads, wherever it writes, keeps both rings and their pools, the buffers and the stream consistent, and payloads handed over are never taken back |
| Transport.RunIsGood | src/master/rs_request_dump.c:43-91 | Every state of every run is consistent, on tables of any sizes and with pools that run out |
| Transport.DoKeepsExact | src/slave/rs_io_thread.c:64-100 | No step changes anything handed over on either process, as long as the frames the reader makes have room in the chunks of both pools: the lengths the slave asks for are those of these frames |
| Transport.RunIsExact | src/slave/rs_io_thread.c:64-100 | So nothing is changed in any run all of whose frames have sizes that both class searches answer rightly |
| Transport.Delivery | src/slave/rs_io_thread.c:64-100 | Delivery, in every run and at every moment: the slave has applied as many frames, of the same lengths and in the same order, as the first the master handed over; and these very frames, where every frame has room in the chunks of both pools |
| Transport.HeldIsKept | src/master/rs_request_dump.c:114-115 | In such a run everything else in both pools that has room stays as it was |
| Overruns.MasterSpoils | src/master/rs_filter_binlog.c:50-102 | That condition is needed on the master: for every frame its class search answers too low, a run from the start in which the slave is sent the frame with its end replaced by the beginning of the next |
| Overruns.SlaveSpoils | src/slave/rs_io_thread.c:84-97 | And on the slave, whatever the table of the master: both frames are handed over and sent as they are, and the slave applies the first with its end replaced by the beginning of the second |
| Overruns.CommandSpoils | src/master/rs_request_dump.c:114-115 | And for the command: a run from the start in which the first frame replaces the end of a command whose length the search answers too low |
| Overruns.SpoiltIff | src/master/rs_filter_binlog.c:50-102 | The frame applied is another one than was handed over, unless the bytes written over it happen to be its own |
| Overruns.ShippedTablesDiffer | src/slave/rs_slave_info.c:52-54 | With the shipped configuration of both processes frames of 544 bytes have room in the chunks of the master and none in those of the slave; with frames of 240 bytes it is the other way round |
| Liveness.StepLowers | src/master/rs_request_dump.c:43-91 | Where payloads fit the buffers, every step outside the reader thread lowers a measure of the work left, unless it only looks again; that never raises it |
| Liveness.SomeProgress | src/master/rs_request_dump.c:43-91 | While the slave runs and something handed over is not applied, some thread outside the reader can lower it, given that the pool of the slave grants a chunk |
| Liveness.StretchIsBounded | src/master/rs_request_dump.c:43-91 | However the threads are scheduled between two steps of the reader, the steps that are more than looking again are at most the work left at the start |
| Liveness.StretchEndsApplied | src/slave/rs_redis_thread.c:23-78 | And where only looking again is left, everything handed over has been applied, unchanged where chunks have had room, unless the receiver has stopped, for want of a chunk or at a read past its buffer, or the consumer has given up |
| Liveness.Drain | src/slave/rs_redis_thread.c:23-78 | From every state in which the slave runs, some run without the reader, no longer than the work left, applies everything handed over: one in which chunks are granted and no handler fails |
| Liveness.OversizedIsNeverCopied | src/master/rs_request_dump.c:62-90 | A payload that does not fit the send buffer is never copied, in any run: neither it nor anything behind it is ever applied |
| Liveness.QuietMeansAllApplied | src/slave/rs_redis_thread.c:23-78 | Rings empty, nothing buffered, receiver waiting: as much has been applied as was handed over |
| Liveness.AskNeverStops | src/slave/rs_io_thread.c:79-82 | Asking for a length never fails for its size |
| Liveness.AskBodyNeverStops | src/slave/rs_io_thread.c:93-97 | Nor does asking for a body: every length that arrives is that of a payload handed over |
| ClassTable.BuildSizes | src/core/rs_palloc.c:193-214 | For every initial size and growth factor: the sizes of the turns below the chunk size, then the chunk size, or a division by zero exactly where a turn comes to size zero; from a factor of one up strictly increasing when it moves the first size, all equal but the last when it does not |
| ClassTable.GrowthGoesOn | src/core/rs_palloc.c:205 | Where the growth factor moves a size, the next size is larger and is moved again |
| ClassTable.NoGrowth | src/core/rs_palloc.c:205 | Where it does not, the next size is the same |
| ClassTable.ShrinkingSizes | src/core/rs_palloc.c:205 | With a factor below one the sizes never increase from turn to turn |
| ClassTable.PallocId | src/core/rs_palloc.c:106-149 | For a size that is no class size the least class that fits; overflow exactly above the chunk size; for a class size the lower bound the search has when it hits |
| ClassTable.RoomIff | src/core/rs_palloc.c:106-149 | The chunk handed out for a request has room for it if and only if the size is none of the classes, or the first class, or one whose predecessor is a midpoint of the binary search on the way to it |
| ClassTable.MiddleClassTooSmall | src/core/rs_palloc.c:129-137 | In every table of three or more classes a request for the middle class gets the first, and a chunk that is too small |
| ClassTable.AllRequestsHaveRoomIff | src/core/rs_palloc.c:106-149 | Every request gets a chunk with room for it if and only if the table has at most two classes |
| SlabClasses.PopInv | src/core/rs_palloc.c:245-248 | The chunk taken from the stack was not live, and every chunk stays live, stacked, lost or untouched, once |
| SlabClasses.BumpInv | src/core/rs_palloc.c:249-259 | The chunk cut from the slab was never handed out, and the accounts of the class stay exact |
| SlabClasses.PushInv | src/core/rs_palloc.c:295 | A chunk given back is on the stack and no longer live, and nowhere else |
| SlabClasses.LoseInv | src/core/rs_palloc.c:280-289 | When the stack cannot grow the chunk is lost, and the accounts stay exact with it |
| SlabClasses.AddSlabInv | src/core/rs_palloc.c:56-58 | A slab above the others, in a class with none left, keeps the accounts exact |
| SlabClasses.LiveInSlab | src/core/rs_palloc.c:241-259 | A live chunk lies inside one slab of its class on a chunk boundary |
| SlabClasses.LiveDisjoint | src/core/rs_palloc.c:241-259 | Two live chunks of a class never overlap |
| Pools.Pool.constructor | src/core/rs_palloc.c:159-216 | Classes without slabs, the whole budget free |
| Pools.Pool.Pmemalloc | src/core/rs_palloc.c:69-104 | Takes exactly the size off the budget at the current top, or changes nothing when the budget is too small |
| Pools.Pool.PallocGrow | src/core/rs_palloc.c:10-34 | Makes room in the slab table, doubling it from 16 only when it is full, and changes nothing else |
| Pools.Pool.PallocNew | src/core/rs_palloc.c:36-67 | Adds a slab at the top if and only if the budget covers it; otherwise only the slab table may have grown |
| Pools.Pool.Take | src/core/rs_palloc.c:241-259 | The chunk given back last, else the next untouched one |
| Pools.Pool.Palloc | src/core/rs_palloc.c:219-262 | The chunk given back last, else the next untouched one, else the first of a new slab: it was not live, becomes live, and nothing else changes hands; it fails if and only if nothing is stacked, the slab is used up and the budget does not cover another |
| Pools.Pool.Request | src/core/rs_palloc.c:106-149 | A request by size: refused exactly when nothing of its class is left and the budget does not cover a slab; the chunk granted is one of the class searched, was not live and becomes live, and has room for the size if and only if the class search answers that size rightly |
| Pools.Pool.Pfree | src/core/rs_palloc.c:264-297 | The chunk is no longer live; it is lost if and only if the stack is full and cannot grow, and otherwise the next one handed out; a full stack that can grow is doubled from 16 |
| Pools.LiveChunksDisjoint | src/core/rs_palloc.c:219-297 | In every valid pool, live chunks of all classes are pairwise disjoint and lie inside the memory handed out |
| Pools.WritesStayApartIff | src/core/rs_palloc.c:219-262 | Where the next chunk of the slab is live too, writing a request to its chunk stays apart from every other live chunk if and only if it has room in its own |
| Pools.NextCutIsNeighbour | src/core/rs_palloc.c:249-259 | Two chunks cut from a slab one after the other lie directly behind each other |
| Pools.Conservation | src/core/rs_palloc.c:69-104 | Slab bytes plus free bytes are the budget, and in each class slabs times chunks is live plus lost plus stacked plus untouched |
| ColumnTypes.DecimalFits | src/slave/rs_binlog_row.c:415-427 | Storage bound: for every scale up to the precision the computed size has room for every value, 256^size >= 10^precision |
| ColumnTypes.DigitsFit | src/slave/rs_binlog_row.c:282 | Nine-digit groups and the leftover table together have room for any number of digits |
| ColumnTypes.LeftoverIsLeast | src/slave/rs_binlog_row.c:282 | The table of leftovers has the least number of bytes that holds so many digits and a sign; without the sign seven digits would fit in three bytes, where it has four |
| ColumnTypes.BinSizeIsWritten | src/slave/rs_binlog_row.c:415-427 | For every precision and scale the computed size is the one MySQL writes: nine digits to four bytes, and as few as hold those left over with a sign |
| RowImages.DmBinlogRow | src/slave/rs_binlog_row.c:430-631 | The nested loops make exactly the handler calls, and end in exactly the way, of the column-by-column specification, which copies each value to its field or to a chunk of the data pool, on every input and whichever call to a handler fails |
| RowImages.ParseColumnValues | src/slave/rs_binlog_row.c:521-597 | The column loop of one row computes the specified columns and cursors, unused and NULL columns included, and stops where a value cannot be copied |
| RowRoundTrip.OwnLayout | src/slave/rs_binlog_row.c:28-413 | Where the metadata of a column stands, the parse handler of its type finds the layout of the column, whose type code, width and metadata are those of its SQL type |
| RowRoundTrip.BitIsMisread | src/slave/rs_binlog_row.c:317-329 | Of a BIT column of any length nothing is ever read: an eighth of the bits left over from whole bytes is taken for its size |
| RowRoundTrip.LongVarstringFaults | src/slave/rs_binlog_row.c:347-361 | A VARSTRING column is read by a length of as many bytes as the second of its metadata says, and beyond four the decoder leaves its memory |
| RowRoundTrip.LayoutsDiffer | src/slave/rs_binlog_row.c:294-413 | Layouts of different sizes take different numbers of bytes from the same data |
| RowRoundTrip.ReadIff | src/slave/rs_binlog_row.c:546-589 | A column that is not NULL is read to its value and its end exactly when the layout read for it is its own |
| RowRoundTrip.BitmapBit | src/slave/rs_binlog_row.c:534-544 | The shift and mask of the decoder find bit i of a bitmap written eight flags to a byte |
| RowRoundTrip.InStepIff | src/slave/rs_binlog_row.c:521-597 | Through a row with any NULLs the decoder reads every column where it was written if and only if every column that is not NULL finds its own layout at the metadata cursor |
| RowEvents.RowsInStepIff | src/slave/rs_binlog_row.c:498-628 | The same through all rows of an event, with the metadata length last looked up carried from row to row |
| RowEvents.AgreeingRows | src/slave/rs_binlog_row.c:498-628 | And then the calls are the rows in order, write for type 23, delete for 25, and for 24 before-update and update in turn, up to the first row with a value that cannot be copied; without one all data is used up |
| RowDelivery.InStepExactlyWhenLayoutsAgree | src/slave/rs_binlog_row.c:430-631 | For whole payloads of every table of supported columns: the decoder reads every column where it was written if and only if the layouts agree and every value can be copied, conditions on the table, the NULLs and the lengths of values alone |
| RowDelivery.RowsRoundTrip | src/slave/rs_binlog_row.c:430-631 | Row image round trip: when the layouts agree, decoding the payload calls the handlers the event type asks for on exactly these rows in this order, up to the first value that cannot be copied, which decides the end |
| RowDelivery.RoundTripIff | src/slave/rs_binlog_row.c:557-586 | So where the layouts agree, the rows come back if and only if every value has room where it goes |
| RowDelivery.PlacedIff | src/slave/rs_binlog_row.c:557-586 | Exactly which values are copied: all past a column without a place, those with room into a field, and into a chunk of the data pool those that are not empty and whose length is none the class search answers too low; other places are refused and nothing else is |
| RowDelivery.UnusedColumnsStay | src/slave/rs_binlog_row.c:504-536 | On every payload, a column missing from the bitmap of its image is left as it was in every call, where the images before and after an update have a bitmap each |
| RowDelivery.EmptyValueFaults | src/slave/rs_binlog_row.c:570-582 | The table of the repository, an INT and a pooled VARCHAR: a row with an empty VARCHAR ends in a fault before its handler is called, whatever the pool |
| RowDelivery.NullFreeRoundTrip | src/slave/rs_binlog_row.c:430-631 | Rows without NULLs come back if and only if every value can be copied where it goes, over every mix of fixed, varchar, blob, char and decimal columns |
| RowDelivery.EvenTableRoundTrip | src/slave/rs_binlog_row.c:596 | Where all columns have metadata of one length, NULLs may stand anywhere but at the very first value, and the rows come back if and only if the values can be copied |
| RowDelivery.FirstNullFaults | src/slave/rs_binlog_row.c:534-596 | A NULL as the first value of an event makes the decoder follow a null pointer, before any handler is called |
| RowOutcomes.AllComeBackIff | src/slave/rs_binlog_row.c:430-631 | Exactly when the decoder is right: for every table whose columns and places hold at least a byte and every choice of NULLs, all rows with these NULLs whose values can be copied come back as they were written if and only if the layouts agree |
| RowOutcomes.WrongLayoutWrongValue | src/slave/rs_binlog_row.c:294-413 | Every column has a value that no wrong layout reads back |
| RowOutcomes.NullVarcharIsMisread | src/slave/rs_binlog_row.c:596 | An integer, a NULL VARCHAR and a long VARCHAR never come back, whatever their values |
| RowDelivery.FrameRoundTrip | src/slave/rs_redis_thread.c:87-115 | A row frame taken apart by the slave and decoded calls the handlers of its table on exactly its rows, up to the first value that cannot be copied |
| Config.FeedAppend | src/core/rs_conf.c:65-198 | The character machine over joined text is the machine over the parts, one after the other |
| Config.ConfReader.Next | src/core/rs_conf.c:65-198 | One turn of the character loop has exactly the effect the specification of the machine gives it |
| Config.ConfReader.Buffer | src/core/rs_conf.c:62-198 | A whole buffer has the effect of its characters in order, up to the one that ends the reading |
| Config.InitConf | src/core/rs_conf.c:50-205 | What is applied, and success, depend on the bytes of the file alone and not on how reads cut it |
| ConfigText.OneLine | src/core/rs_conf.c:65-198 | Every kind of line, in or out of the wanted section, has exactly its effect when it keeps the limits and ends the reading when it does not |
| ConfigText.FeedLines | src/core/rs_conf.c:65-198 | Any sequence of lines from any point between lines applies exactly its settings, if and only if all lines keep the limits |
| ConfigText.ReadsWhatIsWritten | src/core/rs_conf.c:20-216 | Reading what was written succeeds if and only if all lines keep the limits (section names, keys, key plus value, registered keys), and then applies exactly the settings of the wanted section in order |
| ConfigText.LastLineNeedsNewline | src/core/rs_conf.c:76-205 | A last setting without its newline is dropped although the reader reports success: the end-of-file branches inside the loop are never reached |
| ConfigText.LongKeysOverrun | src/core/rs_conf.c:25-26 | A key of 13 to 20 characters never gets through: the limit checked is 20, the buffer holds 12 |
| SessionSlots.StepKeepsGood | src/master/rs_request_dump.c:303-422 | Each get or free keeps the free list duplicate-free and opens or closes at most one slot, as it reports |
| SessionSlots.RunConserves | src/master/rs_request_dump.c:303-422 | Over any run of gets and frees a slot is handed out exactly as often as taken back, or once more while open |
| SessionSlots.FreePlusOpen | src/master/rs_request_dump.c:282-298 | Free and open slots always add up to all slots |
| SessionSlots.CreateReqdump | src/master/rs_request_dump.c:241-300 | A table of any number of slots, all free, in index order; without slots the countdown runs past zero and the outcome is undefined |
| SessionSlots.SlotTable.GetReqdumpData | src/master/rs_request_dump.c:303-336 | Hands out the closed slot at the head and opens it; follows a null pointer exactly when the list is empty |
| SessionSlots.SlotTable.FreeReqdumpData | src/master/rs_request_dump.c:338-422 | Closes an open slot and puts it at the head; a closed slot is left alone |
| SessionSlots.SlotTable.FreeallReqdumpData | src/master/rs_request_dump.c:424-433 | Every slot closed, and all of them free |
| SessionSlots.ExhaustedIff | src/master/rs_request_dump.c:314-325 | The free list is empty exactly when every slot is open |
| SessionSlots.ChainIsTheList | src/master/rs_request_dump.c:285-298 | The pointers determine one finite chain: following them from the head meets each free slot once and ends |

## Left out

- Growing files, inotify, sleeping and polling: a binlog is taken as the complete bytes of its files, and a run ends where the reader would wait for more.
- Torn event bodies: files consist of whole events up to their end or up to a torn header (`WellFormed`), with names and column lists within the sizes of the C buffers; elsewhere the C code reads or writes outside its buffers.
- Reader.Session.Dump: file and index offsets and numbers are below 2^32, where the C counters are exact; the time between an empty read and the look at the index file is not modelled.
- Reader.FindNext: for an index of binlog names, which end in a number below 2^32 behind something else; what the scan answers for other text is `Numbers.EstrToU32`.
- DumpCommand.ParseDumpCmd: the length and room of the buffer for the file name are not modelled, and where the outcome is undefined the model says only that.
- Reader.Session.CreateData: states the frame written; whether its chunk has room for it is `Pools.Pool.Request`, and what happens when it has not is `Overruns.MasterSpoils`.
- Reader.Session.Dump: the list is a constant of the class; that it stays so in the chunk it is read from, and when not, is `EndToEnd.ListStays` and `EndToEnd.ListSpoils`.
- ChunkRing.ProduceKeepsInv: which address the pool grants is left open, but for memory of its own; that pools grant such addresses is `Pools.LiveChunksDisjoint`. The ring's own array and the tables of a session count among the other chunks of the pool (`held`).
- Overruns.SlaveSpoils: the model writes a received frame at once when its last byte is there; the C code writes the part that is buffered when it asks for the body.
- Streams.NoFileSkipped: needs an index in increasing order; the reader itself takes the first line with a larger number.
- Resume.ResumeIff: needs rows inside BEGIN and COMMIT or XID behind a table map of their statement (`Grouped`); `Resume.SentIff` has no such condition.
- Resume.FilterExact: of several table maps in front of one statement only the last is kept by the C code, so rows are held against that one.
- TableLists.ListedIffMember: for names of at most 127 characters together; longer ones are `LongestNamesMatchPrefixes`.
- A session whose command carries no table list: the C code hands the null list to strstr, which is undefined.
- Ring counters are unbounded integers; the C counters are 64-bit and are not expected to wrap.
- Memory ordering below single steps: the steps of Spsc interleave sequentially.
- Buffers.TmpBuf.RecvTmpbuf: ends at a read past the buffer, with no word on the memory behind it; when that can happen is `Wire.RequestOverrunsIff`.
- Liveness.SomeProgress: for payloads that fit both buffers and a receive buffer of at least four bytes; a larger payload is `Liveness.OversizedIsNeverCopied`. Nothing is said about fair scheduling.
- Transport.Delivery: one connection. The slave's reconnect loop, which keeps stale buffered bytes and frees the chunk of its slot a second time, is not part of this model.
- Liveness.Drain: says that such a run exists; a receiver that finds its pool empty and a consumer whose handler fails end the slave's thread in other runs.
- Failed writes and reads end a connection and are modelled only as the end of a run.
- Pools.Pool.Palloc: for the preallocated pool; oversized requests and the page-allocating pool go to malloc, and a failed realloc of the slab table is left out. A failed realloc of the free stack is modelled.
- ClassTable.BuildSizes: the growth factor is a fraction instead of a double, and sizes do not wrap at 2^32.
- ClassTable.PallocId: for strictly increasing tables, as a growth factor that moves the first size builds them.
- RowOutcomes.AllComeBackIff: for columns that hold at least one byte, in places that take one (`PlacesFit`); a VARCHAR(0) has only the empty value, which some wrong layouts read back.
- WrittenLogs.BinlogArrives: logs in which rows stand behind their map, with one rows event of it outside a transaction (`GoodLog`); others are `Resume.SentIff`.
- RowDelivery.RowsRoundTrip: full row images of at most 250 columns. VARSTRING columns are decoded as the C code does but have no written form here; ENUM and SET have none either, and of partial images only `RowDelivery.UnusedColumnsStay` is stated.
- The caller's object is a list of places, each with its room, without the length in front of HEX fields; the bytes next to a place that is too small are not modelled, and such a copy counts as a fault, as does one past the end of a chunk. Values of skipped columns are recorded as read although no handler sees them.
- A data pool without a chunk left for a value, which ends the slave's thread: every value of a pool column is taken to get the chunk its class search names.
- A row handler is recorded as a call, which may fail; what it does with its row is up to the table.
- Bitmap lengths of more than 2^32 - 8 columns, where the C arithmetic wraps.
- Redis replies, command counters and the flush of replies before slave.info is written.
- Hash tables are sets of names; the C lookup compares prefixes within a bucket.
- Opening the configuration file, and turning its values into numbers and strings.
- SessionSlots.SlotTable.FreeReqdumpData: one atomic operation; cancelling threads, closing files and the unlocked first look at the open flag are left out.
- Signals, daemon mode, logging, process reload and teardown.
