# A verified model of the real-time experimentation library

The library runs real-time tasks on Linux and measures them. A periodic task sleeps until a release time, runs a job,
logs when the job began and ended into a ring buffer, and moves the release time on by one period. When the task stops,
the ring is flushed to a statistics file. A reader of such files numbers the records, recomputes the instant at which
each job was released, decides which jobs were late, and draws up a histogram of the response times. Around this there
are the experiments: chains of servers that a signal takes into SCHED_FIFO and back, the driver that configures and
starts them, a converter of scheduler traces, and the search for a busy loop of a given duration.

The project follows that structure, one module for each component.

| module | what it models |
|---|---|
| `UtilityTime`, `TimeText` | two-field times: comparison, arithmetic under aliasing, printing and parsing |
| `Common` | minimum, maximum, reallocation, and facts about sequences |
| `Stdio`, `ByteFormat` | a file with a read position and an end-of-file flag; numbers, times, records and headers as bytes |
| `Job`, `Task` | the ring buffer of job statistics; the periodic release loop and the flush of the ring |
| `TaskFile`, `TaskFileLaws` | reading a statistics file; what reading promises about writing |
| `ResponseTimes`, `StatsReport` | the linked list of response times; one report row for each record |
| `Pipeline` | all of these together, from the release of a job to its row in the report |
| `TaskStop` | stopping a task, as the steps of two threads |
| `FifoChain` | the SIGUSR1 handshake along a chain of servers, as the steps of all processes |
| `ProcConfig`, `ProcArgv` | the configuration of an experiment: lists of processes, and their argument vectors |
| `SchedDelay`, `SchedCpuTime`, `SchedVcd` | a scheduler trace: delays, processor time, and the value change dump |
| `LineReader` | reading lines into a growing buffer |
| `BusyloopSearch`, `FreqList` | the search for a loop count; the list of frequencies of a CPU |

Code that changes objects in place is modelled by classes and methods over arrays and linked nodes. Each such method is
proved against a function or a predicate on values, and the promises of the library are lemmas about those. Protocols are
state machines, and their lemmas are about every run.

The main results:

- **Every row of a report belongs to the job whose record it shows** (`Pipeline.RecordAndReport`): for every periodic run
  of any length, any number of slots and both overrun modes, the row numbered `j` shows the record that job `j` logged,
  measured from the instant that job slept until; the late jobs counted are those that ended after that instant plus the
  deadline of the task; and a CDF that is asked for is that of the times from those instants to the ends of the same jobs.
- **What a task writes comes back** (`TaskFileLaws.FileRoundTrip`), and every non-empty prefix of a file gives 0
  exactly if it ends between two records (`CutBeforeRecords`, `CutInRecords`). Whatever the callbacks refuse, nothing is
  handed out after it, and the code tells which one it was. Every field of a file stands where the layout puts it
  (`ByteFormat.HeaderLayout`, `ByteFormat.PreambleLayout`, `ByteFormat.RecordLayout`).
- **The ring is the last or the first records of its history** (`Job.RingAfterRefines`, `Job.RingBuffer.Save`).
- **The list of response times is the histogram of its inputs**, and its cumulative counts count them.
- **In a chain of any length, whatever the interleaving, every server is in SCHED_FIFO during the client's request**, the
  servers in SCHED_FIFO being a suffix of the chain on the way in and a prefix on the way out.
- **Every program of a trace is charged exactly at the switches that take it off a CPU**, and what is charged to all of them
  adds up to the spans of all CPUs (`SchedCpuTime.AccountTimes`).
- **A task is cancelled only between setting and clearing its flag**, if it cannot preempt the stopper and the stopper's
  sleeps succeed; and under any scheduling it starts at most one job after it was told to stop.

## Where the code does less than its documentation says

The model follows the code. Each of these is a lemma, with the exact condition under which the promise is kept.

- `task_stop` can wait forever for an aperiodic task, even one that cannot preempt it: exactly if it is called while the
  flag is not set. It certainly does if the task is in its job or past it, and it may if the task is about to set the flag,
  because the stopper can sleep through the whole release (`TaskStop.CallReturnsExactlyInsideRelease`, `TaskStop.StopDuringJobNeverReturns`,
  `TaskStop.MissedBeforeRelease`).
- The program of an aperiodic task can be killed, contrary to task.h:258-262, even one that cannot preempt the stopper:
  exactly if `task_stop` finds it about to enter the release, or between the return of the release and the clearing of the
  flag, or inside a release that does not act on a pending cancellation before it returns (`TaskStop.CallKillsJobExactly`;
  `TaskStop.KilledInsideJob` and `TaskStop.KilledAfterRelease` are such runs).
- A file with disabled statistics is never read with result 0, contrary to task.h:400-423
  (`TaskFileLaws.DisabledFileIsNeverReadSuccessfully`).
- Times in the header keep 32 bits of their seconds (`ByteFormat.TimeSurvivesHeader`), and the release of a job is
  recomputed with a 32-bit multiplier (`StatsReport.ReleaseOfJob`).
- Printed times with more than 18 digits of seconds are not parsed (`TimeText.PrintThenParse`).
- When a higher CPU number turns up in a trace, processor time can be lost (`SchedCpuTime.TotalIsWholeExactly`,
  `SchedCpuTime.GrowthLosesTime`).
- The usage text of the driver promises that -v and -x are forced to their values, and shows a line with an -x of its own
  (bwi-client_server/main.c:617-637). An option on the line is overwritten in place of the appended one, and a number
  arrives only if it has fewer digits than the placeholder it is printed over. A vector is as wanted exactly if neither
  happens (`ProcArgv.OptionsArrive`, `ProcArgv.ClientVector`, `ProcArgv.UsageLineFails`, `ProcArgv.SubserverArrives`,
  `ProcArgv.DurationArrives`).
- A frequency that is not followed by whitespace is not listed, and whitespace that does not follow a frequency is listed as
  0 Hz. The list is that of the numbers on the line exactly if each of them is followed by one whitespace character and none
  stands first (`FreqList.FieldsAreWords`, `FreqList.ListIsWhatIsShown`).

## Model

| member | source | states |
|---|---|---|
| UtilityTime.NormalFormIsUnique | utility_time.h:68-76 | two normalised times with the same total nanoseconds are equal |
| UtilityTime.ComparisonsAreTheOrderOfTotals | utility_time.h:559-730 | on normalised times each of the six comparisons holds exactly if it holds of the total nanoseconds |
| UtilityTime.Add | utility_time.h:775-781 | the sum is normalised, and its total is the sum of the totals, even for operands with a second or more of nanoseconds |
| UtilityTime.Sub | utility_time.h:866-881 | the difference of normalised times is normalised, and its total is the difference of the totals, or zero if that is negative |
| UtilityTime.Times | utility_time.h:933-943 | the product has n times the total |
| UtilityTime.FromUnit | utility_time.h:231-253 | a count of seconds, milli-, micro- or nanoseconds becomes a normalised time of exactly that many nanoseconds |
| UtilityTime.AddInto | utility_time.h:775-781 | the sum in memory is right whichever of the operands and the result are the same object |
| UtilityTime.Increment | utility_time.h:833-837 | the target grows by the total of the increment, also if it is itself the increment |
| UtilityTime.SubInto | utility_time.h:866-881 | the cut-off difference in memory is right under every overlap |
| UtilityTime.MulInto | utility_time.h:933-943 | repeated addition yields n times the old total of the operand, also if the result is the operand |
| TimeText.ToStringInto | utility_time.h:504-510 | 0 exactly if the text and its terminator fit, else the least sufficient size; the buffer holds as much of the text as fits |
| TimeText.ToStringDyn | utility_time.h:529-538 | the allocated string is the whole text, never a truncated one |
| TimeText.ReadFraction | utility_time.h:352-371 | consumes up to nine digits, and denotes them padded with zeros on the right |
| TimeText.StringToTime | utility_time.h:320-380 | the time and end pointer are those that the grammar of seconds and fraction assigns to the text |
| TimeText.ParsesSecondsAndFraction | utility_time.h:335-379 | "D.F" followed by other text is D seconds and the first nine digits of F, and no more is consumed |
| TimeText.ParsesSecondsAlone | utility_time.h:335-379 | a dot with no digit after it is not consumed |
| TimeText.ParsesNothing | utility_time.h:320-334 | nothing is converted of a text that starts with no digit or with more than eighteen |
| TimeText.DecimalLength | utility_time.h:504-510 | a printed number has more than w digits exactly if it is at least ten to the w |
| TimeText.PrintThenParse | utility_time.h:504-510 | parsing what is printed gives the time back with everything consumed exactly if the seconds are below ten to the 18th; otherwise nothing is converted |
| ByteFormat.UnsignedRoundTrip | task.h:207-213 | an unsigned number that fits its width is decoded from its bytes, in either byte order |
| ByteFormat.SignedRoundTrip | job.h:75-79 | so is a two's complement number |
| ByteFormat.RecordRoundTrip | job.h:75-79 | so is a pair of start and finishing time |
| ByteFormat.TimeSurvivesHeader | task.c:469-477 | a normalised time survives the header exactly if its seconds fit 32 bits |
| ByteFormat.PreambleRoundTrip | task.c:101-106 | the three ring counters survive the preamble if they fit an unsigned long |
| ByteFormat.FixedHeaderFacts | task.h:152-201 | any bytes that start like a written header pass the compatibility check and show its flags, name length and times |
| ByteFormat.HeaderRoundTrip | task.c:391-513 | whatever follows it, a header reads back as the name, flags and times (in 32 bits) it was written from |
| ByteFormat.HeaderIsLocal | task.c:599-683 | what is read from a header does not depend on the bytes after it |
| ByteFormat.UnsignedLayout | task.h:207-213 | each byte of a number is that of its weight, the lowest first or last as the host has it |
| ByteFormat.HeaderLayout | task.h:152-201 | a file starts with the byte order, three widths, two flags, seven times of twice 32 bits, the length of the name, and the name, each at its place |
| ByteFormat.PreambleLayout | task.h:207-213 | then come the oldest position, the lost jobs and the jobs logged, each as an unsigned long |
| ByteFormat.RecordLayout | job.h:75-79 | a record is the start and then the finish of a job, each with the nanoseconds behind the seconds, in two's complement |
| Job.KeptIsFirstOrLast | job.h:266-271 | what a ring of m slots keeps of n records are the first min(n, m) of them without wrapping, and the last min(n, m) with it |
| Job.KeptIsNumberedFromOldest | job.h:360-372 | the k-th record kept is the one logged by job `oldest + k` |
| Job.Ring.Counters | job.c:264-316 | in every reachable state: overrun exactly if there were more writes than slots, records kept plus records lost are the writes, the overrun count is (writes - 1) div slots, and the oldest position is one after the lost ones when wrapping |
| Job.Ring.SavedSlotsAreKept | job.c:236-252 | the slots, in the order in which they are saved, hold what is to be kept of the history |
| Job.Ring.SavedSlotSteps | job.c:236-259 | stepping by one modulo the size runs through exactly those slots and meets the end index after the last one and not before |
| Job.LoggedRefinesFirst | job.c:44-57 | without wrapping, a write keeps the first records in place and only counts the others |
| Job.LoggedRefinesLast | job.c:53-57 | with wrapping, a write into a ring that is not full or has wrapped already drops the oldest record if it has to |
| Job.LoggedRefinesWrap | job.c:44-52 | so does the write that wraps |
| Job.LoggedRefines | job.c:42-58 | in either mode a write makes the ring refine the history with one more record |
| Job.RingAfterRefines | job.c:42-58 | so every reachable ring refines the history of all that was logged into it |
| Job.RingBuffer.constructor | job.c:196-220 | a new ring has an empty history |
| Job.RingBuffer.Log | job.c:42-62 | a logged record becomes the last of the history, in the state that follows |
| Job.SaveOrder | job.c:236-259 | the order in which slots are saved: it starts, steps and ends like the loop index, and its slots hold what is kept, oldest first |
| Job.SaveRound | job.c:249-259 | the do-while stays in bounds, ends, and writes the encodings of what it goes through, once each |
| Job.RingBuffer.Save | job.c:228-262 | appends to the file exactly the last min(n, m) records of the history, oldest first, or the first min(n, m) without wrapping |
| Job.JobStart | job.c:36-65 | logs the record of one job if there is a ring, and nothing otherwise; fails as often as the clock |
| Task.RunEndIsFirstStop | task.c:36-50 | no round before the end has a failed call or sees the stop flag; the round that ends the loop does |
| Task.TaskObject.constructor | task.c:361-518 | the first release time is t_0 + offset, and the log holds the encoded header |
| Task.TaskObject.RunOnce | task.c:38-47 | one round logs one record, moves the release time on by one period, and returns minus the errors of the sleep and of the clock |
| Task.TaskObject.RunPeriodic | task.c:35-50 | the instants slept until are one period apart from the first release on, the record of each round is logged in order, and the errors of the last round are returned |
| Task.SpacedAt | task.c:44-48 | so job j was released at t_0 + offset + (j - 1) periods |
| Task.TaskObject.Flush | task.c:83-118 | the oldest position, the lost jobs and the writes become what they are for so many writes into so many slots; they and the records kept are appended to the log, and the ring is gone |
| Task.LifeOfPeriodicTask | task.c:135-154 | from creation to flush, the file is that of the parameters and of the records logged until the run ended |
| TaskFile.FileReadBin | utility_file.c:159-176 | 0 with all bytes, -1 after the end, -2 with the rest of a short file |
| TaskFile.JobStatisticsRead | job.c:67-90 | 0 with the next record, -1 if none is left, -2 if a part of one is left |
| TaskFile.ReadJobRecords | task.c:719-740 | the records handed out and the code are those of the remaining bytes (`TaskFileLaws.ReadRecords` says which) |
| TaskFile.ReadRest | task.c:685-747 | the rest of a read, after the name, is that of the remaining bytes |
| TaskFile.TaskStatisticsRead | task.c:583-748 | reading with a cursor amounts to reading the bytes as a whole (`TaskFileLaws.ReadEnabledFile` says what that gives); after 0 or -4 the file is at its end |
| TaskFileLaws.ReadRecords | task.c:719-740 | for any callback: encoded records followed by less than one more are handed out in order up to the first one that is refused, and then the code is -2; if none is refused all are handed out, and the code is 0 exactly if nothing follows, else -3 |
| TaskFileLaws.SplitRecords | task.c:719-740 | any first part of encoded records is whole records and less than one more |
| TaskFileLaws.ReadEnabledFile | task.c:583-748 | for any callbacks: a file with enabled statistics and less than one more record gives its parameters and counters; the code is -1, and no record is handed out, exactly if they are refused; otherwise the records are handed out up to the first refusal |
| TaskFileLaws.FileRoundTrip | task.c:583-748 | so does the file of a task; if nothing is refused the result is 0, with its name, flags, times (in 32 bits), counters and the records kept |
| TaskFileLaws.ParametersSurvive | task.c:664-680 | the parameters come back unchanged exactly if all their seconds fit 32 bits |
| TaskFileLaws.CutBeforeRecords | task.c:598-704 | a file that ends before its records gives -3, or -4 if it is empty, and no callback |
| TaskFileLaws.CutInRecords | task.c:719-740 | a file that ends among its records gives 0 exactly if it ends between two of them, else -3, unless something is refused; the whole ones are handed out up to a refusal |
| TaskFileLaws.DisabledFileIsNeverReadSuccessfully | task.c:686-747 | the parameters of a task without statistics are handed out, but the code is -3, or -1 if they are refused |
| TaskFileLaws.ForeignFileIsRefused | task.c:615-636 | a header of a host with another byte order or other widths gives -3 and no callback |
| TaskFileLaws.ReadTwice | task.c:593-607 | after a successful read a second one gives -4 |
| ResponseTimes.Microseconds | read_task_stats_file.c:65-68 | the nearest microsecond, the greater one in the middle |
| ResponseTimes.OneMoreHistogram | read_task_stats_file.c:74-127 | counting a value at its place turns the histogram of the inputs into that of one input more |
| ResponseTimes.HistogramOfIsHistogram | read_task_stats_file.c:61-130 | after any insertions the values increase strictly, every input has a bar, and every count is the number of inputs with that value |
| ResponseTimes.HistogramIsUnique | read_task_stats_file.c:61-130 | no other list of bars has that property |
| ResponseTimes.CumulativeCountsInputs | read_task_stats_file.c:135-147 | each cumulative count is the number of inputs at or below its value |
| ResponseTimes.CumulativeEndsAtTotal | read_task_stats_file.c:135-147 | the counts add up to the number of inputs |
| ResponseTimes.CumulativeOfHistogram | read_task_stats_file.c:132-147 | both hold of the list after any insertions |
| ResponseTimes.ResponseTimeList.Find | read_task_stats_file.c:71-87 | the walk ends at the first node whose value is not less, with the node before it |
| ResponseTimes.ResponseTimeList.CountAt | read_task_stats_file.c:76-79 | one count grows, and neither values nor links change |
| ResponseTimes.ResponseTimeList.Splice | read_task_stats_file.c:98-127 | the new node is linked in at its place, in a chain without a cycle |
| ResponseTimes.ResponseTimeList.Link | read_task_stats_file.c:98-127 | the list has one bar more, at the place found |
| ResponseTimes.ResponseTimeList.Place | read_task_stats_file.c:71-129 | walk and change together count one more at the right place |
| ResponseTimes.ResponseTimeList.Insert | read_task_stats_file.c:61-130 | the acyclic list is the histogram of the inputs, the new one rounded to microseconds |
| ResponseTimes.ResponseTimeList.PrintCdf | read_task_stats_file.c:132-147 | there is one line for each value among the inputs, in increasing order, with the number of inputs at or below it, so the last line has their total |
| StatsReport.DeltaOf | read_task_stats_file.c:289-319 | sign and magnitude are those of the true difference, although only cut-off subtraction is used |
| StatsReport.ReleaseOfJob | read_task_stats_file.c:277-281 | the recomputed release is offset + (j - 1) periods exactly if j - 1 fits the 32-bit multiplier or the period is zero |
| StatsReport.RowFromIsExact | read_task_stats_file.c:277-410 | given a release, every column is the exact difference of instants, for a start and finish not before t_0; lateness and response time are exact for all |
| StatsReport.RowMeaning | read_task_stats_file.c:277-410 | so every column of job j is measured from t_0 + offset + (j - 1) periods |
| StatsReport.LateRowsAreLateJobs | read_task_stats_file.c:336-355 | the late rows are the records that finished after their absolute deadline |
| StatsReport.MulDyn | utility_time.h:959-967 | the allocated product has n times the total |
| StatsReport.TaskStats.PrintTaskStats | read_task_stats_file.c:222-260 | period, deadline, t_0 and offset are those read from the file, and the numbering of rows starts at its oldest position |
| StatsReport.TaskStats.ComputeRow | read_task_stats_file.c:277-410 | the row computed step by step is the row of that number and record |
| StatsReport.TaskStats.Count | read_task_stats_file.c:354-417 | the counters and the report stay those of the records seen |
| StatsReport.ResponseNs | read_task_stats_file.c:394-401 | what is put into the histogram is the response time of the row in nanoseconds, if that fits 64 bits |
| StatsReport.TaskStats.PrintJobStats | read_task_stats_file.c:262-420 | one more record is seen; rows, late count and histogram remain those of all records seen |
| Pipeline.ReadTaskStatsFile | read_task_stats_file.c:477-508 | the rows are those of the records read, numbered from the oldest; a requested CDF has a line for each of their response times and counts those at or below it, and there is none unless the file was read with result 0 |
| Pipeline.Report | read_task_stats_file.c:482-504 | so are those of any result of a read; the CDF is only made of a successful one that has jobs |
| Pipeline.FileOfRun | task.c:83-113 | reading the file of a run hands out the period, deadline, t_0, offset, counters and records that the report is made of |
| Pipeline.ReleaseIsDue | task.c:44-48 | the instant that job j slept until is the release that the report recomputes for it |
| Pipeline.JobRowIsExact | read_task_stats_file.c:277-410 | the row of job j measures from the instant that job slept until |
| Pipeline.KeptRowIsAttributed | read_task_stats_file.c:257-281 | the k-th record kept is that of job oldest + k, and its row measures from the release of exactly that job |
| Pipeline.RowsAreAttributed | read_task_stats_file.c:257-281 | this holds of all rows of a report |
| Pipeline.KeptLateJobs | read_task_stats_file.c:336-355 | the late rows of a report are as many as the jobs kept that ended after their release plus the deadline of the task |
| Pipeline.KeptResponses | read_task_stats_file.c:394-401 | what is put into the histogram for the jobs kept is the time from the release of each job to its end, or zero, in microseconds |
| Pipeline.ReportRun | read_task_stats_file.c:477-508 | the report of the file of a run has the rows of the jobs kept and the number of those that missed the deadline of the task, or instead of the rows the distribution of the times from their releases to their ends |
| Pipeline.RecordAndReport | read_task_stats_file.c:477-508 | a periodic task is run, flushed, read back and reported: every row shows the number, record and release of one and the same job; the late count is that of the jobs kept which ended later than the deadline of the task after t_0 + offset + (j - 1) periods; and a requested CDF is that of the times from these instants to the ends of the jobs kept |
| TaskStop.InvStep | task.c:563-581 | every step of either thread keeps the invariant of flag, cancellation and jobs started |
| TaskStop.InvHolds | task.c:563-581 | so the invariant holds in every reachable state |
| TaskStop.AtMostOneJobAfterStop | task.c:71-81 | in both modes and under any scheduling at most one job starts after the stop flag is set |
| TaskStop.AnyNumberOfJobs | task.c:35-81 | in both modes there is a run with any number of jobs in which nobody has called `task_stop` |
| TaskStop.LeavesOnlyIfStopped | task.c:77-81 | in every run a task that tests its loop condition leaves the loop exactly if the stop flag is set; without it, it has left only after a job with a failed call |
| TaskStop.CancelOnlyInsideRelease | task.c:563-580 | if the task cannot preempt the stopper and its sleeps succeed, the task is cancelled only while its flag is set |
| TaskStop.LostStep | task.c:567-580 | once the task is past its release with the stop flag set and no cancellation sent, it stays so, unless a sleep of the stopper fails |
| TaskStop.LostNeverReturns | task.c:567-580 | from there `task_stop` neither returns nor cancels, however it goes on |
| TaskStop.StopDuringJobNeverReturns | task.c:567-575 | so it is if it is called during a job or after it |
| TaskStop.MissedBeforeRelease | task.c:567-575 | and so it can be if it is called before the flag is set: there is a run in which the stopper sleeps through the whole release |
| TaskStop.CallReturnsExactlyInsideRelease | task.c:563-581 | a call for an aperiodic task returns, within two steps, in every continuation with successful sleeps exactly if it finds the flag set; and it can come to hang exactly if it does not |
| TaskStop.StopInsideReleaseCancels | task.c:567-580 | if it is called while the flag is set, its next two steps cancel the task |
| TaskStop.CallKillsJobExactly | task.c:563-581 | a call for an aperiodic task can get it killed in its program exactly if it finds it about to set the flag, or between the return of the release and the clearing of the flag, or inside a release that does not act on a cancellation |
| TaskStop.SafeCannotBeKilled | task.c:71-81 | a task that ends in its release, or is past its job, or is in a job that nobody is going to cancel, is not killed in its program, however it goes on |
| TaskStop.JobUnderCancellation | task.c:66-81 | once the cancellation has been issued, the task has been or can be killed in its program exactly if it is there, or has returned from the release without clearing the flag, or is in a release that does not act on the cancellation |
| TaskStop.KilledAfterRelease | task.c:66-81 | if the release function does not act on it, there is a run in which a cancellation issued inside the release kills the program of the task |
| TaskStop.KilledInsideJob | task.c:66-70 | there is such a run: the program of the task is killed |
| TaskStop.PreemptibleStopperCancelsJob | task.c:66-70 | without the requirement on preemption the task can be cancelled in the middle of a job |
| FifoChain.StepKeepsOwnLink | bwi-client_server/server.c:40-108 | a step of a handler keeps to what the process before it asked for |
| FifoChain.StepKeepsNextLink | bwi-client_server/server.c:48-65 | a server signals its subserver only when that is settled, and goes on only when it has done as asked |
| FifoChain.ClientStepKeepsInv | bwi-client_server/client.c:213-254 | a step of the client keeps every link of the chain |
| FifoChain.InvHolds | bwi-client_server/server.c:40-108 | in every reachable state every link of the chain is in order |
| FifoChain.AllAlike | bwi-client_server/server.c:76-105 | behind a process that has achieved all-on or all-off every server is on or off |
| FifoChain.OnesAreLast | bwi-client_server/server.c:76-105 | while servers go on, those that are on come last |
| FifoChain.OnesAreFirst | bwi-client_server/server.c:46-75 | while servers go off, those that are on come first |
| FifoChain.EveryServerIsFifoDuringRequest | bwi-client_server/client.c:213-243 | during the timed request every server of a chain of any length is in SCHED_FIFO; before and after it none is |
| FifoChain.EnteringIsSuffix | bwi-client_server/client.c:213-224 | while the client waits for the chain to enter, the servers in SCHED_FIFO are a suffix of it |
| FifoChain.LeavingIsPrefix | bwi-client_server/client.c:243-254 | while the client waits for the chain to leave, they are a prefix of it |
| FifoChain.ChainChanges | bwi-client_server/server.c:46-105 | a signalled server whose subservers are all off, or all on, can take itself and all of them into SCHED_FIFO, or out of it |
| FifoChain.HandshakeSucceeds | bwi-client_server/client.c:213-254 | for a chain of any length the client can get from the start to its request, and from the request back to the start |
| FifoChain.RequestsCanRepeat | bwi-client_server/client.c:213-254 | there is a run with any number of whole measurements |
| FifoChain.RequestIsReachable | bwi-client_server/client.c:213-237 | for a chain of any length there is a run that gets to the request |
| ProcConfig.OneMoreLine | bwi-client_server/main.c:379-417 | what one more line adds to the servers and clients asked for, and when it is refused |
| ProcConfig.ProcHead.Add | bwi-client_server/main.c:75-85 | the process becomes the last of its list |
| ProcConfig.Driver.AddServer | bwi-client_server/main.c:392-402 | a server with a subserver refers to the server directly before it in the list |
| ProcConfig.Driver.AddClient | bwi-client_server/main.c:403-411 | a client refers to the latest server before it, if there is one |
| ProcConfig.Driver.ParseLine | bwi-client_server/main.c:363-545 | a line is refused exactly if it is unknown or asks for a subserver before all servers; otherwise the lists are those asked for |
| ProcConfig.Driver.Load | bwi-client_server/main.c:696-713 | the lists are those of the whole configuration, or it is refused exactly if some line is |
| ProcConfig.Driver.StartServer | bwi-client_server/main.c:198-220 | a server is started after it was given the process ID of its subserver, which has been started |
| ProcConfig.Driver.CreateServers | bwi-client_server/main.c:194-223 | all servers are started in list order with the process IDs of those before them; it fails exactly if a fork does |
| ProcConfig.Driver.SetClientArgument | bwi-client_server/main.c:290-297 | the client is given the process ID of its server, which has been started, and nothing else changes |
| ProcConfig.Driver.SetVector | bwi-client_server/main.c:249-320 | the client gets its argument vector, with the numbers filled in that are known of it |
| ProcConfig.Driver.MakeClientArguments | bwi-client_server/main.c:730-731 | every client with a server is given the process ID of that started server, and every client gets its vector |
| ProcConfig.ChainIsSegment | bwi-client_server/main.c:392-402 | the subservers of a server are the servers just before it, back to the nearest one without a subserver |
| ProcConfig.VectorIsWanted | bwi-client_server/main.c:437-459 | the vector that a client gets is its program, the tokens of its line, and the options with their numbers, exactly if its line has none of the options that are filled in and the numbers have at most nine digits, or nineteen for the duration |
| ProcConfig.Drive | bwi-client_server/main.c:696-731 | from the configuration to the arguments: every process ID that is used was assigned by a fork before, and the vector of each client is that of its own line and of the process ID of its own server |
| ProcArgv.TokensOfConcat | bwi-client_server/main.c:225-270 | tokens do not reach across a delimiter |
| ProcArgv.NextToken | bwi-client_server/main.c:265-281 | one call of strtok takes the first token of what is left, terminates it, and changes nothing else |
| ProcArgv.CountTokens | bwi-client_server/main.c:250-270 | the counting pass counts the tokens of the text |
| ProcArgv.FillArgv | bwi-client_server/main.c:273-287 | a vector with room for those and NULL is filled within its bounds by pointers to all tokens, in order and without overlap |
| ProcArgv.FindArgvToAdjust | bwi-client_server/main.c:226-244 | the argument of the first token that is the option, within that token or else the next one, if there is one |
| ProcArgv.ReplacedString | bwi-client_server/main.c:293-296 | printing no more than fits over one argument leaves all the others as they are |
| ProcArgv.AdjustArgument | bwi-client_server/main.c:201-206 | exactly the argument of the first such option is overwritten, by what there is room for |
| ProcArgv.MakeArgv | bwi-client_server/main.c:245-323 | the vector holds the tokens of the text with what is known filled in |
| ProcArgv.ShownIsWhole | bwi-client_server/main.c:293-296 | a number arrives whole exactly if it has fewer digits than what it is printed over |
| ProcArgv.FitsMeans | bwi-client_server/main.c:437-468 | that is nine digits for an int and nineteen for an unsigned long |
| ProcArgv.ArgsTokens | bwi-client_server/main.c:427-468 | the tokens of an argument text are the program, those of the line, and the appended options |
| ProcArgv.EachIsFilled | bwi-client_server/main.c:290-319 | if the tokens before them are no such options, each appended option gets its own number when they are filled in one after the other |
| ProcArgv.FilledAsWanted | bwi-client_server/main.c:290-319 | all numbers arrive whole exactly if each has fewer digits than its placeholder |
| ProcArgv.FreeLineIsFilled | bwi-client_server/main.c:290-319 | if the line has none of the options that are filled in, each number stands behind its own option, whole exactly if all fit |
| ProcArgv.TakenFromLine | bwi-client_server/main.c:226-244 | if it has one, some token of the line or the first appended option ends up shorter than it was |
| ProcArgv.OptionsArrive | bwi-client_server/main.c:245-323 | the argument vector of a process is as wanted exactly if its line has none of the options that are filled in and every number has fewer digits than its placeholder |
| ProcArgv.ClientArguments | bwi-client_server/main.c:437-459 | so that of a client, on every line: its server, duration and tracing numbers all arrive exactly under that condition |
| ProcArgv.ClientVector | bwi-client_server/main.c:437-459 | written out: the vector is the program, the tokens of the line, -v and the server, -x and the duration, and -r and -l with their times, exactly if the line has none of these options and the numbers have at most nine digits, or nineteen for the duration |
| ProcArgv.UsageLineFails | bwi-client_server/main.c:617-637 | a client line that ends in "-x 60", like the one in the usage text, never gives the wanted vector |
| ProcArgv.EarlierOptionIsTaken | bwi-client_server/main.c:230-241 | an option on the line itself is overwritten instead, and the appended one keeps its placeholder |
| ProcArgv.OneOptionArrives | bwi-client_server/main.c:460-468 | the number of a single appended option stands last in the vector exactly if the line has no such option and the number fits |
| ProcArgv.SubserverArrives | bwi-client_server/main.c:200-207 | the process ID of the subserver stands last in the vector of a server exactly if its line has no -v and the ID has at most nine digits |
| ProcArgv.DurationArrives | bwi-client_server/main.c:298-304 | the duration stands last in the vector of hrt_cbs exactly if its line has no -x and the duration has at most nineteen digits |
| SchedDelay.WaitingMeansWokenUp | sched_switch.c:401-420 | a program is marked as waiting exactly if the last event that touched it was its wakeup, whose time is kept |
| SchedDelay.MaximumStep | sched_switch.c:402-412 | the maximum changes only at a switch-in right after a wakeup that took longer |
| SchedDelay.AfterIsMaxDelay | sched_switch.c:394-420 | for every event sequence it is the greatest delay from a wakeup to the switch-in that is the next event of the program, or zero, and the position is the first one that reached it |
| SchedDelay.Scan | sched_switch.c:394-420 | after the scan this holds of every program, for the events after the last comment |
| SchedCpuTime.CpuTables.Grow | sched_switch.c:188-204 | the tables reach the new highest CPU, and every CPU from the old highest one on is started anew |
| SchedCpuTime.CpuTables.Charged | sched_switch.c:303-311 | a switch is charged the time since the last one on its CPU, from the third of a segment on, and the tables follow |
| SchedCpuTime.CpuTables.Account | sched_switch.c:182-311 | one line adds its charge to the time of the program that it switches out, and changes no other |
| SchedCpuTime.SumCpusStep | sched_switch.c:303-311 | the sum over all CPUs grows by the charge of the line and nothing else |
| SchedCpuTime.ChargesAreCpuTimes | sched_switch.c:303-311 | all charges together are the spans of all segments of all CPUs |
| SchedCpuTime.ProgramTimesAddUp | sched_switch.c:303-311 | the sums of all programs add up to all charges |
| SchedCpuTime.AccountTimes | sched_switch.c:161-313 | the time of each program is the sum of the charges of the lines that switch out that program; the times of all programs add up to the spans of all segments of all CPUs |
| SchedCpuTime.OneSegment | sched_switch.c:198-202 | a CPU that is not started anew after a switch has one segment, all its switches |
| SchedCpuTime.TotalIsSumOfSpans | sched_switch.c:303-311 | then the total is the sum, over CPUs with at least two switches, of last minus second switch time |
| SchedCpuTime.NoGrowthNoRestart | sched_switch.c:188-204 | this is so if the first line already shows the highest CPU |
| SchedCpuTime.ChargedAndLost | sched_switch.c:303-311 | for every trace, what is charged for a CPU and what is lost at switches that come early after it was started anew make up the time from its second switch to its last |
| SchedCpuTime.LostSign | sched_switch.c:303-311 | if time goes on between switches, a CPU loses time exactly if there is such a switch |
| SchedCpuTime.TotalIsWholeExactly | sched_switch.c:188-311 | the total is at most the sum, over all CPUs, of last minus second switch time, and equal to it exactly if there is no such switch |
| SchedCpuTime.GrowthLosesTime | sched_switch.c:198-202 | there is a trace whose total is less than that, because a CPU number turns up late |
| SchedVcd.TagDenotes | sched_switch.c:509-514 | the identifier code of a program determines its index |
| SchedVcd.TagAt | sched_switch.c:509-514 | each character of a code is the digit of its weight to base 94, the lowest first, and there are as many as the index needs |
| SchedVcd.TagsAreDistinct | sched_switch.c:508-515 | no two programs share an identifier code |
| SchedVcd.Tag | sched_switch.c:511-514 | a code is not empty and has only the characters 33 to 126, as section 18.2 of IEEE 1364-2005 demands |
| SchedVcd.WriteTag | sched_switch.c:508-515 | the do-while writes the code and its terminator within the line buffer |
| SchedVcd.TopBit | sched_switch.c:315-315 | below twice a power of two the bit of that power tells whether the number reaches it |
| SchedVcd.HighestBit | sched_switch.c:314-318 | the digits found are enough for the highest CPU, and no fewer are |
| SchedVcd.BitStringAt | sched_switch.c:570-579 | the digit at each place is the bit of its weight |
| SchedVcd.BitStringShows | sched_switch.c:569-580 | the digits denote the CPU number |
| SchedVcd.PrintCpu | sched_switch.c:569-580 | every CPU up to the highest is printed in zeros and ones, or in L and H, with ones, or H, for the bits that are set |
| LineReader.LinesJoinToText | utility_file.c:50-103 | the lines joined by newlines are the text |
| LineReader.LineCount | utility_file.c:50-103 | there is one line more than there are newlines |
| LineReader.LinesAreUnique | utility_file.c:50-103 | no other lines without newlines join to that text |
| LineReader.GrownIsLeast | utility_file.c:78-90 | the buffer grows by a whole number of increments, and no fewer would leave room for the terminator |
| LineReader.Put | utility_file.c:75-90 | a stored byte is in bounds, and room for the terminator is left after it |
| LineReader.ReadBytes | utility_file.c:72-91 | the buffer holds the next line, and has grown by the least that is enough |
| LineReader.Readln | utility_file.c:50-103 | returns the next line of the text with its terminator and moves past its newline; -1 exactly after the end was met |
| LineReader.ReadFile | utility_file.c:105-137 | repeated reading hands out the lines of the text, each as a C string, until the callback refuses one |
| LineReader.AllLinesAreGiven | utility_file.c:114-131 | a callback that refuses nothing is given every line |
| LineReader.TextComesBack | utility_file.c:105-137 | the lines of a text without NUL that it is given join to the text |
| LineReader.StopsAtFirstRefusal | utility_file.c:127-130 | reading stops with -1 exactly if a line is refused, and nothing is given after that line |
| BusyloopSearch.LoopCount | utility_cpu.c:376-380 | the greatest whole number of loops not above frequency times duration; it is not negative if the duration is not |
| BusyloopSearch.BoundIsGrowth | utility_cpu.c:458-471 | the bound after n passes is the initial count times (11/10) to the n |
| BusyloopSearch.PassesAppend | utility_cpu.c:452-484 | a pass that missed the tolerance extends a sequence of such passes if its count is corrected by the whole loops that make up for the difference: upwards, by no more than a tenth, if it was too short, and downwards, by no more than the count, if it was too long |
| BusyloopSearch.Correct | utility_cpu.c:452-484 | the correction is that, or it is refused if it would be more |
| BusyloopSearch.NextPass | utility_cpu.c:452-484 | such a pass keeps every count within the bound |
| BusyloopSearch.Search | utility_cpu.c:429-488 | for every measurement oracle: each count but the first is the one before it, raised after a measurement that was too short and lowered after one that was too long, by the whole loops that make up for the difference; the count returned is the one last measured; success exactly if that was within tolerance or all passes were used; every count is within the bound for its pass and not below zero; and when each error is returned |
| FreqList.CountFields | utility_cpu.c:217-226 | the first pass counts the numbers that are followed by whitespace |
| FreqList.StoreFields | utility_cpu.c:228-247 | the second pass stores exactly as many, each of its own field with its sign, within the array |
| FreqList.Available | utility_cpu.c:217-247 | the list is the fields of the line in hertz, as strtoull reads them |
| FreqList.HertzIs | utility_cpu.c:243-243 | a field is an optional sign, digits, and other text: numbers of 2^64 and more become the greatest one, negative ones wrap around, and so does the product with 1000 |
| FreqList.AllComeBack | utility_cpu.c:217-247 | a line of numbers that each end with a whitespace character gives all of them, and what stands after the last one is not listed |
| FreqList.FieldsAreWords | utility_cpu.c:217-247 | for any line: what is listed are its words exactly if each is followed by one whitespace character and none stands first |
| FreqList.ListIsWhatIsShown | utility_cpu.c:217-247 | for any line of numbers that are not zero: the list is that of these numbers exactly under that condition |

## Left out

- Failures of allocation and of input and output, other than a file that was cut short or is at its end; a file that cannot
  be opened; a failed insertion into the list of response times.
- The measurements of overheads (`job_statistics_overhead`, `finish_to_start_overhead`), `busyloop` itself and its timing,
  clocks, CPU affinity, frequency governors and memory locking. What a clock or a sleep returns is a parameter.
- Padding between the fields of a timespec; integer overflow of seconds and of unsigned long counters. Widths that the code
  narrows to are modelled: 32-bit times in the header, the 32-bit multiplier, the 64-bit response time, the loop count.
- Rounding of floating point numbers: trace times, durations and loop counts are computed with reals.
- The garbage collection of times: an allocated result is a fresh value.
- A record that is cut short because its job was cancelled in the middle: a job of the model ends.
- The wrap-around of the 32-bit job count in `response_time_list` and of the late count.
- The text of reports: columns are values; the division by the total in a printed CDF, and the MATLAB form, which prints the
  same counts.
- ReadTaskStatsFile: the callbacks do not touch the file, so they are run on the records after the read, not between reads.
- FileRoundTrip: names of 2^32 - 1 bytes and more: a longer length does not fit the header, and for that length the size that
  the reader allocates wraps around to zero (task.c:641). A header with that length is read as if there were room.
- RecordAndReport: runs of less than 2^32 rounds, since later jobs get a wrong release (`ReleaseOfJob` says exactly which).
- RunPeriodic: the run is one that is told to stop in the end.
- The aperiodic loop is modelled as steps in `TaskStop`, not as a method; what it logs is what `JobStart` logs.
- CallKillsJobExactly: a task that has left its loop with a cancellation pending. The flush that follows writes to its file,
  which may act on the cancellation and lose records (task.c:101-113).
- InvHolds: in the handshake only one client drives a chain, and a fatal exit of any process ends the run. Sockets, the
  request itself, budgets, CBS and BWI calls are left out.
- LoopCount: the value of a product that does not fit an unsigned long long, which C leaves undefined.
- SubserverArrives: what getopt makes of the vector. An option of the line that lacks its argument, or a "--", can keep it
  from seeing what stands last. The same goes for DurationArrives.
- Search: the return value -4 does not occur, because the count that it tests is an unsigned long (utility_cpu.c:425-428, 467).
- Drive: the driver's four other lists of processes, which have no references between processes, the vectors of servers,
  which are the subject of `ProcArgv.SubserverArrives`, and the child's side of fork. A line is taken as the program it names
  and, for a client, the text after that. An unsigned long has 64 bits, and numbers that are printed are not negative.
- AccountTimes: interning of program, state and event names, and the parsing of trace lines; an element that realloc added
  has some value until it is set.
- Scan: process IDs have been replaced by program indices, and the two CPU numbers that stand for stopped and waiting do not
  occur in a trace.
- The rest of sched_switch.c: priorities, percentages, the MATLAB form, and the order of lines in the value change dump.
- The copy of utility_time.h under doc/timing, and the experiment programs other than the client-server driver.
