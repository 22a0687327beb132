# Verified model of the LearnMuduo reactor library

A Dafny model of the parts of LearnMuduo, a C++ reactor library, whose
correctness is a matter of state, interleaving or arithmetic, with proofs of
what each is for.  `dafny verify dfyconfig.toml` checks all of it.

The model is organised as the library is:

- **Event loop** (`EventLoop`).  The task list and its semaphore eventfd as atomic
  steps of any number of threads.  Tasks run once and in order; no interleaving
  loses a wake-up, but for one step, which is named, and which happens when the loop
  thread queues a task for itself before it loops.  A quit stored before `loop()`
  is cleared by it.
- **Calendar and time zones** (`Calendar`, `UtcTime`, `TimeZone`, `TzFile`, over
  `Options`, `CInts` and `Bytes`).  The closed-form date functions are proved, operation by
  32-bit operation, to count days in an independently defined Gregorian calendar,
  with the sharp first and last day.  Breaking a second down into UTC fields and
  local time through a transition table are inverted by the functions meant to
  invert them, exactly when a stated condition on the table holds.  The zone-file
  reader restores every block written as sections 3.1 and 3.2 of RFC 8536 say.
- **Byte pipeline** (`Buffer`, `Adler`, `Codec`, `SendPath`, `Callbacks`, `TcpConnection`,
  `Pipeline`).  The compacting buffer is a FIFO of bytes; the decoder delivers the same
  messages however the stream was cut.  Until a fault the send path loses, repeats and
  reorders nothing, with callbacks that run in place, in the middle of the send that
  posts them, and call back in turn; but that the bytes a high-water callback sends
  overtake the remainder that crossed the mark, which keeps the order exactly when the
  two could be swapped.  `shutdownWrite` is issued over unsent bytes exactly when a
  callback shuts down with nothing buffered while a send it is called from still owes its
  remainder: a state that is reached, and never without such a high-water callback.
  Composed, framed messages arrive as they were sent, while after an unframed body, which
  is what `send` hands over, nothing does, for any printable type name.
- **Timers** (`OrderedSet`, `Timers`, `TimerQueue`).  The two ordered sets over an
  explicit heap of timers, so that deletion and reuse of addresses are visible, under
  callbacks that create, add and cancel timers in the middle of a round.
- **Pollers** (`Channel`, `PollPoller`, `EpollPoller`, `Pollers`).  The swap-remove
  array with back indices, and the three-state marks beside the kernel's table; both
  refine one map from descriptors to masks.
- **Monitors** (`ThreadPool`, `ConsumerProducerQueue`).  Threads that sleep, are woken,
  wake for no reason and compete again for the lock.
- **Digits** (`Digits`).  Integer printing into a character array.

Each stateful part has two layers.  A state machine (`State`, `Action`, `Enabled`,
`Next`, `After`) says what every atomic step does, and lemmas prove what holds over
every run.  What a run has queued, given, taken out or asked for is computed a second time,
from its actions alone, by functions that do not look at the machine's state (`Queued`,
`QuitAsked`, `Replay`, `Booked`), and proved to be what the machine has.  A class with the source's fields has the source's methods, each proved
to take exactly the machine's step (`View() == Next(old(View()), …)`).  The source's
assertions are proof obligations in these methods, so that a method's precondition is
what the source asserts of its caller.  Two assertions can fail whatever the caller does.
To the strict one at the end of `append` the methods that come to it return whether it
holds, and say exactly when.  The one in `getExpired` fails for a timer that expires at
the very timestamp of a round; the runs of `Timers` do not exclude such rounds.

Where the code departs from its evident intent, the model follows the code, with a
lemma that says exactly when that matters, except for the following readings:

- `isInLoopThread` (net/eventLoop.h:55) is taken as `==`, as its name, its use at
  net/eventLoop.cpp:83 and the comment at net/eventLoop.h:49 say.
- `resetTimerfd` (net/timerQueue.cpp:76-84) never stores the expiration; it is taken
  to arm the descriptor for it.  Reading the descriptor clears the arming.
- `cancelTimer` (net/timerQueue.cpp:45-47) does nothing; cancelling is `cancelInLoop`.
- `gmtime_r` and `timegm` are the file's own UTC functions, as the FIXMEs at
  base/timeZone.cc:273 and 288 intend.
- `SocketUtils::readv` is a stub; a scatter read delivers any bytes that fit, or fails.
- A failed direct write (net/tcpConnection.cpp:201-214) counts as zero bytes sent,
  where the source leaves -1 and then asserts it is not negative.
- The packet format (applications/protobuf/codec/protobufCodec.h:11-19) puts the
  length first, `fillEmptyBuffer` computes it and does not; `Frame` adds it.

Departures that are kept, each with its exact condition: `append`'s assertion that the
write position stays strictly inside (`Buffer.StrictAssertionFailsExactly`,
`Codec.SendAssertionsExactly`), the missing length (`Codec.UnframedBodyBlocksExactly`), the state
`shutdown_mt` stores (`Callbacks.ShutdownHappensExactlyWhenIdle`), the high-water callback
before the remainder is buffered (`Callbacks.SendInsideHighWaterOvertakes`,
`Callbacks.ShutdownOverUnsentExactly`), the assertion in `getExpired`
(`Timers.AssertionsHoldExactly`), slots added with an empty mask and
channels enabled again (`PollPoller.UpdateKeepsAgreementExactly`), and local times that
do not come back (`TimeZone.LocalRoundTripExactly`).

## Model

| member | source | states |
|---|---|---|
| `Calendar.ClosedFormsCountDays` | base/date.cc:18-40 | on every day from 1 March -4800 to the last whose arithmetic fits, `getYearMonthDay` is the date reached by that many calendar steps under the leap rules, it is valid, and `getJulianDayNumber` gives the day back |
| `Calendar.OverflowsExactlyAfterLastDay` | base/date.cc:27-40 | from the first day on, some intermediate of `getYearMonthDay` leaves 32 bits exactly on days after 536838867 |
| `Calendar.EveryDateIsCounted` | base/date.cc:18-40 | every valid date of the range is the date of its own day number |
| `Calendar.PromisedYearsAreCounted` | base/date.h:28-33 | in particular every valid date of the years -4799 to 1400000, which include those the header promises, is in that range |
| `Calendar.DayBeforeFirstCollides` | base/date.cc:18-40 | the first date is sharp: the day before it is given the same day number |
| `Calendar.UnixEpochDay` | base/date.cc:42 | 1 January 1970 is day 2440588 |
| `Calendar.JulianDayIsDayCount` | base/date.cc:18-25 | `getJulianDayNumber` is an explicit count of days by March-based years, shifted |
| `Calendar.NextDayCount` | base/date.cc:18-25 | the count of the calendar successor is one more, across month ends, year ends and leap days |
| `Calendar.YearMonthDayOfDayCount` | base/date.cc:27-40 | `getYearMonthDay` inverts `getJulianDayNumber` on valid dates |
| `Calendar.NthDateCount` | base/date.cc:18-25 | the date after n calendar steps is valid and has day count n |
| `UtcTime.FillHMS` | base/timeZone.cc:73-79 | the fields written are the hours, minutes and seconds of the second of day |
| `UtcTime.WithHMS` | base/timeZone.cc:73-79 | hours, minutes and seconds are in range and add up to the second of day |
| `UtcTime.ToUtcTime` | base/timeZone.cc:305-331 | filling the struct in order computes the function `ToUtc`, overflow included |
| `UtcTime.SplitDayRoundsDown` | base/timeZone.cc:310-316 | truncating division with its correction rounds down, for negative seconds too |
| `UtcTime.ToUtcExact` | base/timeZone.cc:305-331 | the fields are the calendar date, time of day and weekday of the second |
| `UtcTime.ToUtcWithYearDay` | base/timeZone.cc:325-329 | with the day of the year asked for, it is computed for every second from year -4799 on, and every other field is as without it |
| `UtcTime.FromUtcExact` | base/timeZone.cc:333-346 | a valid broken-down time names the second of its day and time of day |
| `UtcTime.UtcRoundTrip` | base/timeZone.cc:305-346 | `fromUtcTime(toUtcTime(s)) == s` with all fields valid, for every second of the calendar range, negative ones included |
| `UtcTime.UtcRoundTripBack` | base/timeZone.cc:305-346 | and the other way, on every valid broken-down time |
| `UtcTime.WeekdayInRangeExactlyFromDayMinusOne` | base/timeZone.cc:323 | `tm_wday` is in 0..6 exactly from Julian day -1 on, or on a Sunday |
| `UtcTime.WeekdayAdvances` | base/timeZone.cc:323 | the weekday goes up by one a day, modulo 7, from a Thursday on 1 January 1970 |
| `UtcTime.YearDayCountsFromNewYear` | base/timeZone.cc:325-329 | `tm_yday` days back through the calendar is 1 January of the same year |
| `TimeZone.LowerBound` | base/timeZone.cc:221-224 | the halving search returns a boundary: what precedes is less, what follows is not |
| `TimeZone.FindsTheCoveringTransition` | base/timeZone.cc:210-242 | on an increasing table the search returns transition i if and only if i is the last at or before the time, and -1 if and only if none is |
| `TimeZone.FindsTheTypeInForce` | base/timeZone.cc:210-242 | so `findLocaltime` answers with the type of the last transition at or before the time, and with the first type before them all, and with no other, in either order in which the table increases |
| `TimeZone.ToLocalTimeExactly` | base/timeZone.cc:260-280 | `toLocalTime` gives the daylight saving flag and offset of that type, and the date and time of day of the second plus that offset |
| `TimeZone.FromLocalTimeExactly` | base/timeZone.cc:282-303 | `fromLocalTime` takes off the offset in force at that local time, and an hour more exactly if the time claims daylight saving and the second so found is standard time at the same hour and minute |
| `TimeZone.BothOrdersIncrease` | base/timeZone.cc:36-60 | a well-spaced table is sorted in UTC order and in local order |
| `TimeZone.RepeatedFindsNext` | base/timeZone.cc:282-303 | in a repeated stretch of a well-spaced table the local lookup lands one transition too late, and the tried second shows the later type |
| `TimeZone.UnrepeatedFindsSame` | base/timeZone.cc:282-303 | elsewhere, on any sorted table, it lands on the transition the second came from |
| `TimeZone.RepeatedFindsLater` | base/timeZone.cc:282-303 | in a repeated stretch of any sorted table it lands on a later transition, with a smaller offset |
| `TimeZone.LocalRoundTripExactly` | base/timeZone.cc:260-303 | on every table sorted in both orders `fromLocalTime(toLocalTime(s)) == s` if and only if the clock reading of s was not repeated, or the correction recovers it: daylight saving, found again an hour behind, and the tried second standard and at the same hour and minute |
| `TimeZone.WellSpacedRoundTripExactly` | base/timeZone.cc:260-303 | on a well-spaced table that is, if and only if the reading was not repeated, or the repetition ends daylight saving by one hour |
| `TimeZone.TableInvertibleExactly` | base/timeZone.cc:260-303 | on a well-spaced table every second comes back if and only if every backward shift ends daylight saving by one hour |
| `TimeZone.DaylightSavingRoundTrip` | base/timeZone.cc:282-303 | with alternating standard and daylight saving time an hour apart, gaps over an hour and a standard first type, every second comes back, both passes of the repeated hour included |
| `TimeZone.StandardShiftLosesRepeatedSeconds` | base/timeZone.cc:291-301 | when standard time moves back, exactly the repeated seconds come back wrong |
| `TimeZone.LastSecondIsRepeated` | base/timeZone.cc:282-303 | before every backward shift there is a repeated second |
| `Bytes.EncodeInt32` | net/endian.h:18-20 | four bytes, most significant first, that add up to the integer modulo 2 to the 32 |
| `Bytes.Int32RoundTrip` | net/endian.h:18-32 | every signed 32-bit integer survives the network order |
| `Bytes.BytesRoundTrip` | net/endian.h:18-32 | and every four bytes are the encoding of what they decode to |
| `TzFile.File.ReadBytes` | base/timeZone.cc:109-116 | the next n bytes, or the exception when fewer are left |
| `TzFile.File.ReadInt32` | base/timeZone.cc:118-125 | the next big-endian integer, or the exception |
| `TzFile.File.ReadUInt8` | base/timeZone.cc:127-134 | the next byte, or the exception |
| `TzFile.ReadHeader` | base/timeZone.cc:147-158 | the three counts used, exactly when the magic and all header bytes are there |
| `TzFile.ReadTimes` | base/timeZone.cc:160-166 | the transition times, exactly when all are there |
| `TzFile.ReadIndices` | base/timeZone.cc:168-172 | the type indices, exactly when all are there |
| `TzFile.ReadTypes` | base/timeZone.cc:174-181 | the types, or, when the data runs out, those before |
| `TzFile.ReadTimeZoneFile` | base/timeZone.cc:140-208 | completes exactly on readable bytes, with the table and abbreviations they hold; otherwise says whether an exception was caught or a type index was out of range |
| `TzFile.EncodedBlockReadsBack` | base/timeZone.cc:140-208 | every version-1 header and data block encoded per sections 3.1 and 3.2 of RFC 8536 reads back as its types, its transitions with local time equal to UTC time plus offset, and its abbreviations |
| `EventLoop.StepConserves` | net/eventLoop.cpp:115-140 | each step keeps: begun, then the rest of the batch, then pending, are the tasks queued |
| `EventLoop.TasksRunOnceInOrder` | net/eventLoop.cpp:115-140 | over every run tasks begin once each, in the order queued, tasks queued by tasks included |
| `EventLoop.QueuedTasksRunInOrder` | net/eventLoop.cpp:115-140 | those are the tasks the run's calls of `queueTask` hand over, by those calls alone: begun, then the batch, then pending |
| `EventLoop.StepKeepsInvExactly` | net/eventLoop.cpp:58-76 | every step of any thread keeps the signalling invariant, except exactly the one that loses a wake-up |
| `EventLoop.CarefulRunKeepsInv` | net/eventLoop.cpp:58-160 | so does every run without that step |
| `EventLoop.NoWakeupIsLost` | net/eventLoop.cpp:65-76 | over every run of any threads without the step that loses a wake-up: tasks pending while polling or executing, or a quit stored while polling, mean a positive eventfd or a thread about to write it |
| `EventLoop.EventfdCounts` | net/eventLoop.cpp:148-160 | the eventfd's value is the number of writes less the number of reads, over any run, and every read finds it positive |
| `EventLoop.PrequeuedTaskSleeps` | net/eventLoop.cpp:121-123 | after the excluded step the loop polls with a task in its list and nothing to wake it |
| `EventLoop.EarlyQuitIsForgotten` | net/eventLoop.cpp:62 | a quit stored before `loop()` is cleared, and the loop polls |
| `EventLoop.QuitIsAsked` | net/eventLoop.cpp:142-146 | quit is set exactly if some `quit_mt` was not followed by a start of the loop |
| `EventLoop.LoopEndsExactlyIfAsked` | net/eventLoop.cpp:61-76 | over every run from the start the loop ends at its check exactly then, and polls otherwise |
| `EventLoop.QuitEndsTheLoop` | net/eventLoop.cpp:142-146 | after `quit_mt`, whatever any thread does, the next check ends the loop, unless it is started again before |
| `EventLoop.EndingNeverPolls` | net/eventLoop.cpp:65-76 | with quit set, a loop that is not polling never polls again before it is started again |
| `EventLoop.BatchRuns` | net/eventLoop.cpp:136-137 | the swapped-out list is begun entirely, in order |
| `EventLoop.StoredWorkIsDelivered` | net/eventLoop.cpp:65-76 | once every writer has written, poll returns for the eventfd, and the next pass, with no other thread in between, begins every task queued so far, and leaves the loop if quit was stored |
| `EventLoop.QuitWakesAndEnds` | net/eventLoop.cpp:142-146 | a `quit_mt` of another thread while the loop polls wakes it, and that pass begins every task queued and ends the loop |
| `EventLoop.QueuedWorkIsDone` | net/eventLoop.cpp:126-140 | whatever other threads do, every task queued by now has been begun once the loop has come to its next swap and finished the batch |
| `EventLoop.Loop.PushTask` | net/eventLoop.cpp:115-124 | the task joins the pending ones at the end, as the machine's push does; says whether the eventfd is to be written |
| `EventLoop.Loop.StoreQuit` | net/eventLoop.cpp:142-146 | quit is set, as the machine's step does |
| `EventLoop.Loop.SetAsyncTaskEvent` | net/eventLoop.cpp:148-153 | adds one to the eventfd |
| `EventLoop.Loop.ResetAsyncTaskEvent` | net/eventLoop.cpp:155-160 | takes one from the semaphore; under the invariant the read succeeds |
| `EventLoop.Loop.ExecuteAsyncTasks` | net/eventLoop.cpp:126-140 | undisturbed, begins every pending task in order and leaves the list empty |
| `Buffer.WritableAfter` | net/buffer.h:94-119 | what `ensureSpace(len)` leaves writable is at least len |
| `Buffer.Buffer.Compact` | net/buffer.h:111-116 | moving bytes forward over themselves keeps the contents and puts them first |
| `Buffer.Buffer.Grow` | net/buffer.h:116-118 | resizing keeps the contents |
| `Buffer.Buffer.MakeSpace` | net/buffer.h:111-119 | keeps the contents; the room is the front and back together, or the growth |
| `Buffer.Buffer.EnsureSpace` | net/buffer.h:94-100 | keeps the contents and leaves the room stated |
| `Buffer.Buffer.HasWritten` | net/buffer.h:62-65 | the bytes stored there join the contents |
| `Buffer.Buffer.Append` | net/buffer.h:48-58 | the contents are the old ones followed by the data; the strict assertion holds unless the append fills the array |
| `Buffer.StrictAssertionFailsExactly` | net/buffer.h:57 | which appends those are, before the call |
| `Buffer.Buffer.Retrieve` | net/buffer.h:70-77 | the first len bytes leave the contents, the rest stay |
| `Buffer.Buffer.RetrieveAll` | net/buffer.h:79-82 | the contents are empty |
| `Buffer.Buffer.AppendInt32` | net/buffer.h:43-46 | the four bytes of the integer join the contents; exactly when the strict assertion holds |
| `Buffer.Buffer.PeekInt32` | net/buffer.h:87-92 | the integer of the first four bytes; on a buffer that was empty, the one appended |
| `Buffer.Buffer.ReadFromFd` | net/buffer.cpp:10-35 | whatever the read delivers, into the writable part and the spare array, joins the contents in order; a failure changes nothing and saves errno; the strict assertion fails exactly on a spill at least as long as the space at the front |
| `Adler.CheckSumExactly` | applications/protobuf/codec/protobufCodec.cpp:62-67 | the checksum is Adler-32 as section 8.2 of RFC 1950 defines it: the sum of the bytes and the sum weighted by their places, each modulo 65521, taken as one signed 32-bit integer |
| `Adler.OneByteShows` | applications/protobuf/codec/protobufCodec.cpp:62-67 | one byte changed anywhere always changes it |
| `Codec.DecodeHead` | applications/protobuf/codec/protobufCodec.cpp:32-50 | a good head takes at least 14 bytes and no more than there are |
| `Codec.OnMessage` | applications/protobuf/codec/protobufCodec.cpp:32-52 | the loop computes `Decode`: messages delivered, bytes left, error reported; each iteration takes at least 14 bytes |
| `Codec.HeadIsStable` | applications/protobuf/codec/protobufCodec.cpp:33-51 | more bytes behind a complete or bad head do not change it |
| `Codec.DecodeInTwo` | applications/protobuf/codec/protobufCodec.cpp:32-52 | decoding in two goes is decoding at once |
| `Codec.RestIsSettled` | applications/protobuf/codec/protobufCodec.cpp:32-52 | nothing more can be delivered from what is kept |
| `Codec.FeedDecodesStream` | applications/protobuf/codec/protobufCodec.cpp:32-52 | feeding chunk by chunk delivers what the whole stream does |
| `Codec.ChunkingIndependence` | applications/protobuf/codec/protobufCodec.cpp:32-52 | messages delivered and bytes kept depend only on the concatenated stream |
| `Codec.NothingAfterBadFrame` | applications/protobuf/codec/protobufCodec.cpp:35-48 | a bad frame stays at the head, nothing after it is ever delivered, and the error repeats |
| `Codec.FillCovered` | applications/protobuf/codec/protobufCodec.cpp:107-123 | the buffer holds what the checksum covers: name length, name, NUL, data; and exactly when its appends' assertions hold |
| `Codec.FillEmptyBuffer` | applications/protobuf/codec/protobufCodec.cpp:107-132 | the buffer holds the body of the packet format, checksum last; and exactly when its appends' assertions hold |
| `Codec.SendAssertionsExactly` | applications/protobuf/codec/protobufCodec.cpp:54-58 | for the new buffer of `send`, for which sizes of name and data they do not |
| `Codec.BodyRoundTripExactly` | applications/protobuf/codec/protobufCodec.cpp:60-91 | `parse` of the body that is filled in for a message restores it if and only if its type has a name, is known, and the library restores its own bytes |
| `Codec.ParsesExactly` | applications/protobuf/codec/protobufCodec.cpp:60-91 | of any body: a message is restored if and only if the body is length, known name, any byte, and data the library restores as that message, followed by the checksum of all these; `CheckSumError` exactly if the last four bytes are not the checksum of the rest; `InvalidNameLen` exactly if they are and the name does not fit; `UnknownMessageType` and `ParseError` exactly if it fits and is not known, or the data is not restored |
| `Codec.CarriesExactly` | applications/protobuf/codec/protobufCodec.cpp:62-81 | the pieces into which a body is cut are the only ones it can be made of |
| `Codec.OneWrongByteUnseals` | applications/protobuf/codec/protobufCodec.cpp:62-67 | one byte of a body changed anywhere, the checksum included, makes the checksum wrong |
| `Codec.GoodHeadExactly` | applications/protobuf/codec/protobufCodec.cpp:32-50 | a message is taken from the front if and only if its frame is there: length, and a body of that form |
| `Codec.BadHeadExactly` | applications/protobuf/codec/protobufCodec.cpp:35-48 | `InvalidLength` exactly if enough bytes are there and the length is out of range, another error exactly if a whole frame is there whose body gets that error |
| `Codec.DeliveredComeFromFrames` | applications/protobuf/codec/protobufCodec.cpp:32-52 | any bytes decode as the frames of the messages delivered, one after the other, and a rest that begins with none; so no message comes from a corrupted frame |
| `Codec.OneWrongByteBlocks` | applications/protobuf/codec/protobufCodec.cpp:35-48 | so a frame with one byte behind its length changed on the way is reported as `CheckSumError`, stays at the head, and nothing is delivered |
| `Codec.FrameDecodes` | applications/protobuf/codec/protobufCodec.cpp:32-52 | a frame at the head is delivered and removed |
| `Codec.FrameDecodesExactly` | applications/protobuf/codec/protobufCodec.cpp:32-52 | alone, it is decoded as its message if and only if its length is one the codec allows and the library restores the message |
| `Codec.FramesDecode` | applications/protobuf/codec/protobufCodec.cpp:32-52 | a stream of frames delivers exactly its messages and leaves nothing |
| `Codec.PrefixDeliversPrefix` | applications/protobuf/codec/protobufCodec.cpp:32-52 | cut off anywhere, it delivers the first messages, without error |
| `Codec.UnframedBodyRejectedExactly` | applications/protobuf/codec/protobufCodec.cpp:54-58 | without its length the body makes the decoder take the type name for a body: `InvalidLength` exactly when the name has fewer than nine characters or more than a frame may have, otherwise what `parse` makes of it |
| `Codec.NameIsNoBody` | applications/protobuf/codec/protobufCodec.cpp:69-71 | a name shorter than nine, or whose first byte is 5 or more, is never parsed as a body |
| `Codec.UnframedBodyBlocksExactly` | applications/protobuf/codec/protobufCodec.cpp:54-58 | once `send` has sent a message the receiver is delivered nothing, ever, whatever follows and however the stream is split, exactly if the type name is no body |
| `Channel.Channel.constructor` | net/channel.cpp:12-20 | no events, index -1 |
| `Channel.Channel.EnableRead` | net/channel.h:27 | reading on, writing as before |
| `Channel.Channel.EnableWrite` | net/channel.h:28 | writing on, reading as before |
| `Channel.Channel.DisableRead` | net/channel.h:29 | reading off, writing as before |
| `Channel.Channel.DisableWrite` | net/channel.h:30 | writing off, reading as before |
| `Channel.Channel.DisableAll` | net/channel.h:31 | no events |
| `SendPath.StepKeepsInv` | net/tcpConnection.cpp:60-236 | each callback keeps: bytes given are bytes the kernel took followed by the buffer, and the write bit is on exactly while the buffer is not empty |
| `SendPath.SendPathConserves` | net/tcpConnection.cpp:188-236 | over every run and every outcome of the writes, until a fault the kernel has a prefix of the bytes given and the rest is buffered with the write bit on; with callbacks that act, see `CallbacksConserve` |
| `SendPath.ConnectionTallies` | net/tcpConnection.cpp:60-236 | over every run the state, the reading switch, the bytes given, how many of them were written and how many wait, the callbacks posted, in order, and the shutdowns issued are what counting through the run's actions gives, and the write bit is on exactly while some wait and the connection is not down |
| `SendPath.WriteCompleteMeansAllSent` | net/tcpConnection.cpp:66-72 | a write-complete callback is posted only with everything sent |
| `SendPath.HighWaterMarkOnCrossing` | net/tcpConnection.cpp:223-230 | the high-water callback is posted exactly by the step that takes the buffer across the mark, with the new length |
| `Callbacks.SendInsideHighWaterOvertakes` | net/tcpConnection.cpp:223-234 | what the high-water callback sends, before the remainder is buffered, overtakes it, whatever was buffered before and whatever else the callback does: order and invariant survive exactly when remainder and inner bytes commute |
| `Callbacks.EventKeepsInvExactly` | net/tcpConnection.cpp:188-236 | an event whose callbacks' own sends are in order keeps the send path's invariant exactly if a fault is met or its high-water callback sends what commutes |
| `Callbacks.CallbacksConserve` | net/tcpConnection.cpp:188-236 | so conservation holds over every run in which they commute, with callbacks nested to any depth |
| `Callbacks.QuietRunsArePlain` | net/tcpConnection.cpp:60-236 | which every run whose callbacks do nothing is |
| `Callbacks.StraightRunsAreFlat` | net/tcpConnection.cpp:60-236 | conversely, with callbacks nested to any depth, of which no high-water callback does anything and no drain's begins to close, every run is one of the send path, each callback's calls taken as steps after the one that calls it |
| `Callbacks.CallbacksTally` | net/tcpConnection.cpp:60-236 | so over such runs counting through the callbacks' calls gives the state, the reading switch, the bytes given, how many were written and wait, the callbacks posted and the shutdowns issued |
| `Callbacks.OnlyConnectedActs` | net/tcpConnection.cpp:130-178 | in any state but CONNECTED a callback changes nothing but the reading switch |
| `Callbacks.SendKeeps` | net/tcpConnection.cpp:188-236 | with any callbacks, at any depth, the write bit is right and no byte is missing but those the sends in progress owe |
| `Callbacks.EventKeepsScheduled` | net/tcpConnection.cpp:85-137 | a shutdown task is due only on an established connection in state CONNECTING, and then only one |
| `Callbacks.IssuedExactly` | net/tcpConnection.cpp:66-76 | the events that issue `shutdownWrite`: a callback that shuts down with nothing buffered, the task with nothing buffered, and the drain after whose callback the state is DISCONNECTING and nothing is buffered; and which are over unsent bytes |
| `Callbacks.ShutdownOverUnsentExactly` | net/tcpConnection.cpp:123-136 | after any run, an event issues it over unsent bytes exactly if in it a callback shuts down with nothing buffered while a send it is called from owes a remainder |
| `Callbacks.ShutdownInsideHighWaterExactly` | net/tcpConnection.cpp:224-234 | a high-water callback that only shuts down issues it, before the remainder is buffered, exactly if nothing was buffered when the send began |
| `Callbacks.ShutdownOverUnsentIsReached` | net/tcpConnection.cpp:224-234 | a first message longer than the mark, of which one byte is written, comes to that |
| `Callbacks.ShutdownNeverOverUnsent` | net/tcpConnection.cpp:123-128 | over every run of events whose high-water callbacks do not shut down, `shutdownWrite` is never issued over bytes given and unsent |
| `Callbacks.ConnectingNeverShutsDown` | net/tcpConnection.cpp:73-75 | an established connection in state CONNECTING stays there, and only the posted task can shut it down, whatever callbacks do |
| `Callbacks.ShutdownHappensExactlyWhenIdle` | net/tcpConnection.cpp:130-137 | after `shutdown_mt` from another thread, with any events before its task runs and any after, `shutdownWrite` is issued once if nothing is buffered as the task runs, and otherwise never |
| `TcpConnection.TcpConnection.WriteDirectly` | net/tcpConnection.cpp:195-216 | the machine's direct write; `SendInLoop` runs the callback it posts |
| `TcpConnection.TcpConnection.QueueRemainder` | net/tcpConnection.cpp:232-235 | the remainder is buffered and the write bit on, and exactly when the append's assertion holds |
| `TcpConnection.TcpConnection.PostHighWater` | net/tcpConnection.cpp:224-230 | posts the high-water callback exactly on crossing the mark |
| `TcpConnection.TcpConnection.SendRemainder` | net/tcpConnection.cpp:221-235 | posts and runs the callback, if the mark is crossed, and then buffers |
| `TcpConnection.TcpConnection.RunCallback` | net/tcpConnection.cpp:130-178 | what a callback does, in place, to the real connection |
| `TcpConnection.TcpConnection.ShutdownOnLoop` | net/tcpConnection.cpp:130-137 | `shutdown_mt` on the loop thread: its task runs at once |
| `TcpConnection.TcpConnection.ForceClose` | net/tcpConnection.cpp:270-277 | DISCONNECTING from CONNECTED or DISCONNECTING, and from no other |
| `TcpConnection.TcpConnection.SendInLoop` | net/tcpConnection.cpp:188-236 | the machine's send with its callbacks run in place, on the real buffer and channel; without any, exactly when the append's assertion holds |
| `TcpConnection.TcpConnection.ShutdownInLoop` | net/tcpConnection.cpp:123-128 | shuts down unless writing |
| `TcpConnection.TcpConnection.RunShutdownTask` | net/tcpConnection.cpp:133-135 | the posted task |
| `TcpConnection.TcpConnection.HandleWrite` | net/tcpConnection.cpp:60-83 | the machine's write event, its callback run before the test of the state |
| `TcpConnection.TcpConnection.FinishDrain` | net/tcpConnection.cpp:66-72 | writing off, then the write-complete callback |
| `TcpConnection.TcpConnection.Shutdown` | net/tcpConnection.cpp:130-137 | from another thread: stores CONNECTING and posts its task, if connected |
| `TcpConnection.TcpConnection.HandleClose` | net/tcpConnection.cpp:85-92 | disconnected, no events |
| `TcpConnection.TcpConnection.ConnectionEstablished` | net/tcpConnection.cpp:103-108 | connected and reading, writing as before |
| `TcpConnection.TcpConnection.ConnectionDestroyed` | net/tcpConnection.cpp:113-121 | disconnected, no events, if connected |
| `Pipeline.MessagesArriveInOrder` | net/tcpConnection.cpp:188-236 | frames sent over any run of events in order and received in any chunks are delivered as a prefix of the messages, in order, and all of them once drained and arrived |
| `Pipeline.NothingSentUnframedArrives` | applications/protobuf/codec/protobufCodec.cpp:54-58 | when the first message sent is the body that `send` makes, nothing is ever delivered, over any run in order and any chunks, if its type name is no body, as none is that is shorter than nine or begins with a byte of 5 or more |
| `OrderedSet.FoundAtLowerBound` | net/timerQueue.cpp:112 | `lower_bound` on an ordered set finds a pair that is present |
| `OrderedSet.InsertMembers` | net/timerQueue.cpp:159-164 | insertion adds the pair in order, and says whether it was new |
| `OrderedSet.EraseMembers` | net/timerQueue.cpp:120-121 | erasure removes exactly the pair, and counts it |
| `Timers.StepKeepsShape` | net/timerQueue.cpp:49-185 | every step keeps the agreement of the two sets and the distinctness of the timers |
| `Timers.SetsAlwaysAgree` | net/timerQueue.cpp:86-185 | after any run with any callbacks the two sets hold the same timers, each keyed by its current expiration; every live timer is there, in the round or waiting; and the next step touches only live timers |
| `Timers.StepsAreSafe` | net/timerQueue.cpp:97-142 | no step dereferences a deleted timer |
| `Timers.InsertsAndErasesSucceed` | net/timerQueue.cpp:107-184 | every assertion on sizes, insertions and erasures holds |
| `Timers.RoundTakesExactlyTheExpired` | net/timerQueue.cpp:106-126 | a round takes exactly the timers that expire before its timestamp, in order |
| `Timers.RoundCallsEachOnce` | net/timerQueue.cpp:86-104 | from any round's beginning to its end, with any steps in between and after any run from the start, each timer it took is called once, in their order, cancelled in the meantime or not, and nothing else is |
| `Timers.ExpiryAssertionExactly` | net/timerQueue.cpp:113 | the assertion holds if and only if no timer expires at the very timestamp |
| `Timers.AssertionsHoldExactly` | net/timerQueue.cpp:107-184 | so the only step that fails an assertion is a round at the very timestamp at which some timer expires |
| `Timers.ExpiryAssertionIsFailed` | net/timerQueue.cpp:113 | which comes about: a timer for time 5, and a round at time 5 |
| `Timers.RoundEndReinsertsOrDeletes` | net/timerQueue.cpp:128-142 | at its end each timer of a round is in the sets again, one interval after the timestamp, or is deleted, as the next row says which; no other timer is touched |
| `Timers.RoundReinsertsExactly` | net/timerQueue.cpp:86-149 | from any round's beginning to its end, with any steps in between and after any run from the start: a timer of the round is in the sets again, for its interval after the round's timestamp, if and only if it repeats and no `cancelInLoop` of it came in between; otherwise none with its sequence number is left |
| `Timers.OnlyItsOwnStepsTouch` | net/timerQueue.cpp:128-185 | a timer is changed or deleted only by its own cancellation and by the end of a round that called it |
| `Timers.CancelTakesEffectExactly` | net/timerQueue.cpp:172-185 | a cancelled timer is gone, or goes when the running round ends, if and only if it had been inserted |
| `Timers.DoomedUntilRoundEnds` | net/timerQueue.cpp:134-141 | cancelled while its round runs, it stays cancelled through every callback and is deleted by the end |
| `Timers.GoneStaysGone` | net/timerQueue.cpp:86-185 | a deleted timer's sequence number never returns, even at the same address |
| `Timers.CancelledNeverRunsLater` | net/timerQueue.cpp:86-185 | over any run a cancelled timer is gone once its round ends, and a gone timer is never called |
| `Timers.CancelledTimerStops` | net/timerQueue.cpp:86-185 | after any run from the start, cancelling an inserted timer stops it: from the end of the round then running, or at once if none is, it is never called again |
| `Timers.OneShotRunsAtMostOnce` | net/timerQueue.cpp:128-142 | a timer created not to repeat is called at most once, whatever came before and comes after |
| `Timers.NoMissedDeadline` | net/timerQueue.cpp:49-55 | outside a round the descriptor is armed no later than any timer in the sets expires, after any run |
| `Timers.ArmedExactly` | net/timerQueue.cpp:49-55 | an insertion arms for the timer's expiration exactly if every timer in the sets expires later; the end of a round arms for the earliest in the sets, if that is a valid time; nothing else arms, and the beginning of a round, which reads the descriptor, clears it |
| `Timers.StepKeepsDeadline` | net/timerQueue.cpp:49-149 | each step keeps that, with what holds during a round |
| `TimerQueue.TimerQueue.constructor` | net/timerQueue.cpp:16-25 | empty sets, no round |
| `Timers.CreatedAsAsked` | net/timer.cpp:10-17 | the next timer created, after any run, has the time, interval and repetition asked for, and the number of timers created until then as its sequence number |
| `TimerQueue.TimerQueue.CreateTimer` | net/timer.cpp:10-17 | a fresh sequence number no live timer has |
| `TimerQueue.TimerQueue.InsertTimer` | net/timerQueue.cpp:151-170 | both sets take the timer; whether it is the earliest |
| `TimerQueue.TimerQueue.AddTimerInLoop` | net/timerQueue.cpp:49-55 | the machine's insertion, arming if earliest |
| `TimerQueue.TimerQueue.CancelInLoop` | net/timerQueue.cpp:172-185 | the machine's cancellation |
| `TimerQueue.TimerQueue.GetExpired` | net/timerQueue.cpp:106-126 | takes the entries before the sentry and erases their ids, each of which is there |
| `TimerQueue.TimerQueue.BeginRound` | net/timerQueue.cpp:86-96 | the machine's start of a round |
| `TimerQueue.TimerQueue.RunNext` | net/timerQueue.cpp:97-99 | the machine's call of the next callback |
| `TimerQueue.TimerQueue.ResetTimer` | net/timerQueue.cpp:131-142 | one timer restarted and reinserted, or deleted, as the machine's step does; which of the two, see `RoundReinsertsExactly` |
| `TimerQueue.TimerQueue.Reset` | net/timerQueue.cpp:128-149 | all of them, then arming for the earliest if that is valid |
| `TimerQueue.TimerQueue.EndRound` | net/timerQueue.cpp:100-104 | the machine's end of a round |
| `PollPoller.UpdateAssertsExactly` | net/poller/pollPoller.cpp:36-53 | the assertions let an update through exactly if the channel is new and its descriptor free, or it is the one registered and its mask was not empty (or its descriptor is 0) |
| `PollPoller.RemoveAssertsExactly` | net/poller/pollPoller.cpp:64-75 | those of `removeChannel` let through exactly the removal of a registered channel whose mask is empty |
| `PollPoller.UpdateKeepsAgreementExactly` | net/poller/pollPoller.cpp:33-62 | an update keeps map, indices and slots in bijection, each slot decoding to its owner and polled exactly if the mask is not empty, if and only if it neither adds an empty mask nor re-enables |
| `PollPoller.RemoveKeepsAgreement` | net/poller/pollPoller.cpp:64-88 | a removal finds the channel it moves and keeps the bijection |
| `PollPoller.PolledExactly` | net/poller/pollPoller.cpp:33-62 | poll(2) watches exactly the registered descriptors with a mask that is not empty, for that mask |
| `PollPoller.UpdateSetsMask` | net/poller/pollPoller.cpp:33-62 | an update sets one entry of the map of masks |
| `PollPoller.RemoveDropsMask` | net/poller/pollPoller.cpp:64-88 | a removal drops one |
| `PollPoller.EmptyAddBreaksNextRemoval` | net/poller/pollPoller.cpp:81-86 | after adding an empty mask, removing another channel follows a null pointer or gives descriptor 0 the wrong slot |
| `PollPoller.EmptyAddIsNeverWatched` | net/poller/pollPoller.cpp:41-60 | such a channel passes the assertions when enabled and is still not watched |
| `PollPoller.ReenabledIsNotWatched` | net/poller/pollPoller.cpp:53-60 | nor is descriptor 0 once re-enabled |
| `PollPoller.RemovedStaysOut` | net/poller/pollPoller.cpp:64-88 | a removed channel keeps its index |
| `PollPoller.RetiredForGood` | net/poller/pollPoller.cpp:36-53 | so that it can never be added or removed again, whatever the others do |
| `PollPoller.ReportsExactlyTheReady` | net/poller/pollPoller.cpp:90-102 | stopping early loses nothing: the channels reported are exactly those with a ready slot, each once, in slot order |
| `PollPoller.UpdateForgetsEvents` | net/poller/pollPoller.cpp:33-62 | an update forgets what poll(2) found for its channel, and for no other |
| `PollPoller.RemoveMovesEvents` | net/poller/pollPoller.cpp:76-87 | a removal keeps what poll(2) found for every other channel, the one it moves included |
| `PollPoller.ReadyAtExactly` | net/poller/pollPoller.cpp:91-92 | the positions of the ready slots, increasing and complete |
| `PollPoller.ActiveFollowsReady` | net/poller/pollPoller.cpp:90-102 | the k-th channel reported is the owner of the k-th ready slot |
| `PollPoller.PollPoller.UpdateChannel` | net/poller/pollPoller.cpp:33-62 | the machine's update, assertions included |
| `PollPoller.PollPoller.RemoveChannel` | net/poller/pollPoller.cpp:64-88 | the machine's removal, by swapping with the last slot |
| `PollPoller.PollPoller.FillActiveChannels` | net/poller/pollPoller.cpp:90-102 | reports what `Active` says, and sets exactly those channels' current events to their slots' |
| `EpollPoller.UpdateIsLegal` | net/poller/epollPoller.cpp:45-73 | which updates the assertions let through, and that the kernel accepts each |
| `EpollPoller.UpdateMirrors` | net/poller/epollPoller.cpp:45-73 | the kernel's table stays the channels marked added, with their current masks |
| `EpollPoller.RemoveIsLegal` | net/poller/epollPoller.cpp:75-92 | which removals the assertions let through, and that the kernel accepts each |
| `EpollPoller.RemoveMirrors` | net/poller/epollPoller.cpp:75-92 | and the table still mirrors the marks |
| `EpollPoller.WatchedExactly` | net/poller/epollPoller.cpp:45-73 | the kernel watches exactly the registered descriptors with a mask that is not empty |
| `EpollPoller.UpdateSetsMask` | net/poller/epollPoller.cpp:45-73 | an update sets one entry of the map of masks |
| `EpollPoller.RemoveDropsMask` | net/poller/epollPoller.cpp:75-92 | a removal drops one |
| `EpollPoller.EpollPoller.UpdateChannel` | net/poller/epollPoller.cpp:45-73 | the machine's update |
| `EpollPoller.EpollPoller.RemoveChannel` | net/poller/epollPoller.cpp:75-92 | the machine's removal |
| `EpollPoller.EpollPoller.Update` | net/poller/epollPoller.cpp:103-118 | an accepted call changes the kernel's table as asked |
| `Pollers.PollStepRefines` | net/poller/pollPoller.cpp:33-88 | a step refines the map's step, and keeps the agreement exactly if careful |
| `Pollers.PollRunRefines` | net/poller/pollPoller.cpp:33-88 | over every careful run the poll poller refines the map |
| `Pollers.EpollRunRefines` | net/poller/epollPoller.cpp:45-92 | over every run the epoll poller's assertions let through, every epoll_ctl call is accepted and poller and kernel refine the map |
| `Pollers.PollLegalIsEpollLegal` | net/poller/epollPoller.cpp:45-92 | what the poll poller's assertions let through the epoll poller's do |
| `Pollers.PollersWatchTheSame` | net/poller/epollPoller.cpp:45-92 | over every run legal and careful under the poll poller the epoll poller is legal too, and the kernel watches the same descriptors for the same masks through either |
| `ThreadPool.StepKeepsPlaced` | base/threadPool.cpp:57-112 | a thread is in one place, and only workers are inside `take` |
| `ThreadPool.StepKeepsSignalled` | base/threadPool.cpp:57-112 | each step keeps the queue within capacity, a woken thread for every queued task while one sleeps in `take`, and queue and woken producers at capacity while one sleeps in `run` |
| `ThreadPool.NotifyOneSuffices` | base/threadPool.cpp:57-112 | over every run: capacity kept; a queued task means a worker not asleep in `take`, and one asleep nowhere unless all are inside `run`; an asleep producer means queue plus woken producers at least the capacity; tasks leave in order, once |
| `ThreadPool.QueueFollowsCalls` | base/threadPool.cpp:57-112 | over every run the tasks queued, put in and taken out are those of a bounded list given the same calls, without any sleeping or waking, and the threads inside `run` and `take` those the list has not served |
| `ThreadPool.NothingMovesInRun` | base/threadPool.cpp:57-70 | once every worker is inside `run` with the queue full, nothing is taken and they stay there |
| `ThreadPool.LastOneFoundItFull` | base/threadPool.cpp:62-64 | the last worker to go there found the queue full |
| `ThreadPool.SomeoneCanTake` | base/threadPool.cpp:98-112 | otherwise some worker can take the first task at once |
| `ThreadPool.EveryThreadCanStep` | base/threadPool.cpp:57-112 | any thread, in any state reached, has a step to take, and an asleep one only that of waking without cause |
| `ThreadPool.StuckExactly` | base/threadPool.cpp:57-112 | with tasks queued, no task is ever taken again, whatever any thread does, if and only if every worker is inside `run` |
| `ThreadPool.StuckIsReached` | base/threadPool.cpp:57-112 | the pool does get stuck: one worker, one place, and a task that submits another |
| `ThreadPool.ThreadPool.Offer` | base/threadPool.cpp:62-68 | `run` from its loop test to waiting or unlocking: the task joins the queue at its end exactly if there is room |
| `ThreadPool.ThreadPool.Run` | base/threadPool.cpp:57-70 | the same for a call of `run`, as the machine's step |
| `ThreadPool.ThreadPool.RunAgain` | base/threadPool.cpp:62-64 | the same for a producer woken, with the task it came with |
| `ThreadPool.ThreadPool.Ask` | base/threadPool.cpp:100-111 | `take` from its loop test to waiting or unlocking: the first task leaves the queue and is returned |
| `ThreadPool.ThreadPool.Take` | base/threadPool.cpp:98-112 | the machine's step of a call of `take` |
| `ThreadPool.ThreadPool.TakeAgain` | base/threadPool.cpp:100-102 | the machine's step of a worker woken |
| `ConsumerProducerQueue.StepKeepsWakeups` | base/consumerProducerQueue.h:23-58 | if a thread sleeps although its condition holds, some thread is between its unlock and its notify_all |
| `ConsumerProducerQueue.StepConserves` | base/consumerProducerQueue.h:23-57 | items that left followed by items queued are the items added, within the size |
| `ConsumerProducerQueue.NotifyAllSuffices` | base/consumerProducerQueue.h:23-58 | over every run: size and order kept, clearing included; with no notification on its way a sleeping consumer means an empty queue, a sleeping producer a full one, and both only with size zero |
| `ConsumerProducerQueue.QueueFollowsCalls` | base/consumerProducerQueue.h:23-58 | over every run the items queued, added and gone are those of a bounded list given the same calls, without any sleeping or waking: a call brings its item, a thread woken the one it came with; the threads inside `add` and `consume` wait for what the list has not given them, and those about to notify have changed the list since they last did |
| `ConsumerProducerQueue.ConsumerProducerQueue.Add` | base/consumerProducerQueue.h:23-29 | with room, the item joins the queue at its end; without, nothing changes but that the thread waits |
| `ConsumerProducerQueue.ConsumerProducerQueue.Consume` | base/consumerProducerQueue.h:31-38 | the first item leaves the queue and is returned; if there is none, the thread waits |
| `ConsumerProducerQueue.ConsumerProducerQueue.Clear` | base/consumerProducerQueue.h:52-58 | every item leaves, in order |
| `ConsumerProducerQueue.ConsumerProducerQueue.NotifyAll` | base/consumerProducerQueue.h:28 | every sleeper is woken |
| `Digits.NumeralSplits` | base/convertFormatUtils.h:56-61 | a numeral's last digit and the rest are remainder and quotient |
| `Digits.OneNumeral` | base/convertFormatUtils.h:51-71 | a number has exactly one numeral |
| `Digits.PrintedReadsBack` | base/convertFormatUtils.h:51-71 | what is printed reads back as the value, and is the only thing that could have been printed |
| `Digits.TruncDigit` | base/convertFormatUtils.h:58-59 | truncating `%` and `/` give the digits of the magnitude, for negative values too |
| `Digits.WriteDigits` | base/convertFormatUtils.h:56-61 | at most 20 digits, 19 of a negative value, least significant first, no leading zero |
| `Digits.Convert` | base/convertFormatUtils.h:51-71 | for every signed and unsigned 64-bit value, the minimum included: the printed value, at most 20 characters and a NUL, nothing else touched |
| `Digits.WriteHexDigits` | base/convertFormatUtils.h:78-83 | at most 16 hexadecimal digits, likewise |
| `Digits.ConvertHex` | base/convertFormatUtils.h:73-89 | for every 64-bit value the hexadecimal numeral and a NUL, nothing else touched |
| `Digits.FormatInteger` | base/logStream.cc:56-64 | the value printed if 32 bytes are available, which is always enough, and nothing otherwise |

## Left out

- Sockets, acceptor, addresses, `TcpServer`, `EventLoopThread`: system calls and object lifetimes.
- The protobuf runtime and generated code: type names, serialising, parsing and recognising are function parameters of `Codec`; a message whose bytes the library does not restore is covered by the round trip's condition.
- `readTimeZoneFile` on a file that cannot be opened, and the stack array of `readBytes` for a huge or negative count: a negative count ends as `Undefined`.
- `TzFile.ReadTimeZoneFile`: an index outside the types is undefined behaviour in the source; the model stops there.
- `tm_zone`, and the range check `TimeZone` does not make on it.
- `TimeZone.LocalRoundTripExactly`: asks for a table sorted in both orders, as the source's binary searches do.
- `TimeZone.WellSpacedRoundTripExactly`: asks for gaps that exceed every difference of offsets, without which the condition is the longer one of `LocalRoundTripExactly`.
- `TimeZone.RepeatedFindsNext`: asks for the same; without it the lookup may land further on.
- `TimeZone.TableInvertibleExactly`: asks for the same.
- `Buffer` sizes are unbounded, where `append` takes an `int`; allocation does not fail.
- `Channel.Channel.EnableRead`: changes the mask; the call of `update()` is the machine's `Update`, in `Pollers`.
- `Channel.Channel.EnableWrite`: likewise.
- `Channel.Channel.DisableRead`: likewise.
- `Channel.Channel.DisableWrite`: likewise.
- `Channel.Channel.DisableAll`: likewise.
- `Codec.OnMessage`: callbacks that leave the buffer alone; one that consumes it is outside what the source says of the callback.
- `EventLoop`: `postTask_mt` on the loop thread, which calls the task at once; the activity of the other channels; the eventfd's maximum value; `pollReturnTime`.
- `EventLoop.Loop.ExecuteAsyncTasks`: states the call with no other thread in between; interleavings are the state machine's.
- Destructors of tasks, which the source runs after `m_executingAsyncTask` is false again.
- `Callbacks`: calls of other threads come between events; a callback that destroys the server, or leaves by an exception; connection, close and message callbacks are events of their own (`Runs`), as nothing that concerns the model follows them where they are called; `send_mt`'s captured references; `handleClose` from DISCONNECTING, which its assertion forbids; an unset high-water callback; `connectionEstablished` is called once, as the server does (net/tcpServer.cpp:83).
- `TcpConnection.TcpConnection.SendInLoop`: with callbacks that act, `strict` is what its own append asserts; those of inner sends are not reported.
- `TcpConnection.TcpConnection.HandleClose`: its callbacks come last, on a connection that is down, where they change nothing.
- `TcpConnection.TcpConnection.ConnectionEstablished`: the tie; its callback comes last and is a `Runs`.
- `TcpConnection.TcpConnection.ConnectionDestroyed`: the removal of the channel, whose assertion is in `Enabled`.
- `Timers`: timer objects are values in an explicit heap, not objects; intervals are whole microseconds, not doubles; the sequence counter does not wrap; `addTimer_mt`'s capture of a local by reference; `howMuchTimeFromNow`.
- `Timers.NoMissedDeadline`: speaks of the arming requested; when the descriptor fires is the kernel's.
- `TimerQueue.TimerQueue.BeginRound`: `handleRead` is cut where callbacks run, as they may call the other methods; its timestamp is positive, as the clock's is.
- `PollPoller`: poll(2) itself, errors and its timeout; `revents` is whatever it left; channels are freed by nobody.
- `Pollers`: hang-up and error reporting, and the growing event list of the epoll poller, whose reporting would only add an easy member.
- `ThreadPool`: `start`, `stop` and a pool without threads, where `run` calls the task at once; a stopping pool does not signal its producers.
- `ConsumerProducerQueue`: the unlocked reads `isFull`, `isEmpty` and `length` from outside.
- Fairness of the scheduler and of lock acquisition: the monitors' theorems are about what can happen, not how soon.
- `Digits`: `formatSI`, `formatIEC` and doubles, which depend on floating-point rounding.
- Logging, stack traces, thread-local storage, `StringPiece`, `CountdownLatch`, `BlockingQueue`, `BoundedBlockingQueue`: easy members, or the same story as the queues here.
