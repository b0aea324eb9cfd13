# A verified model of Icecream

Icecream distributes compile jobs over the machines of a network. Clients ask their local daemon, the daemon asks the
scheduler for a node, and the job travels to the daemon of that node. This project models the parts in which several
mutable structures, counters or byte positions must agree, and proves what they promise over every input or every run.

- **Scheduler** (`JobQueue`, `CompileServers`, `SchedulerSpec`, `SchedulerInv`, `SchedulerRuns`, `SchedulingAlgo`,
  `SchedulerFacts`, `Scheduler`, `Dispatch`, `SchedulerMeans`, `QueueExample`): `SchedulerSpec` says what each message does
  to a value, `SchedulerInv` proves the invariant for each, `SchedulerRuns` speaks about whole runs, and the class
  `Scheduler` is the imperative program with its walks that erase from lists; its methods are proved to do what the
  specification says. A pointer to a job or node is its id, the key under which it is stored, so that deletion is
  modelled and no deleted one is ever used.
- **Channel** (`Wire`, `Messages`, `ChannelSpec`, `Handshakes`, `Channel`, `Delivery`, `WireFormat`): encodings and
  version-dependent bodies, the receiving side as a function of the bytes received, two connected peers, the class
  `MsgChannel` with its growing, compacted buffers and any results of `read` and `send`, and a message from one such
  object to another.
- **Daemon** (`DaemonSpec`, `DaemonRuns`, `EnvCache`, `Daemon`, `DaemonMeans`): the client state machine with slots,
  children and environment transfers, theorems about whole runs of it, the cache and its clean-up, and the class `Daemon`
  whose handlers change counters, clients and cache in place.
- **MD5** (`Md5Spec`, `Md5`, `Md5Example`): the incremental implementation against RFC 1321.
- **Response files** (`Argv`, `ArgvForms`), **path normal forms** (`Paths`, `PathForms`) and **scheduler election**
  (`Election`).

What the specifications themselves mean is stated a second time, without their own functions: `Dispatch` and
`SchedulerMeans` speak of the stored fields of jobs and nodes, `DaemonMeans` counts clients by their fields, `WireFormat`
gives the layout of every message as a table of fields and versions, `ArgvForms` prints arguments in every way they can be
written, `Md5Example` computes a digest that the standard lists, and `PathForms` compares two independent normal forms.

What the code does where its comments or names say otherwise, and the model follows the code:

- `empty_queue` walks through the queue but keeps asking for the head job, so no later job overtakes a blocked head
  (scheduler/scheduler.cpp:989 and 1008): `QueueExample.HeadBlocks` is a reachable state in which the second job could
  go to an idle node at once while every round waits for the head.
- `get_earliest_client` need not return the earliest client (daemon/main.cpp:309-325). Two clients of equal niceness, the
  younger first in the map, show it (`DaemonRuns.EarlierLoses`); a client is chosen whatever the order of the map is if
  and only if it is ahead of every other waiting client on both id and niceness (`DaemonRuns.ChosenInEveryOrder`).
- `check_cache_size` can stop above its limit although an environment may go (daemon/main.cpp:1249-1338): the first
  received environment without its assembler ends the scan, and if that is the new one the loop breaks
  (`EnvCache.CleanedGivesUp`). Above the limit nothing may go if and only if the new environment itself may not
  (`EnvCache.CleanedStops`), which after a successful installation is so whenever its assembler is there and no native
  environment of its name may go (`EnvCache.InstalledStays`).
- `handle_get_native_env` removes a stale environment under the name of its tarball instead of its key
  (daemon/main.cpp:1412-1421), so it is handed out again unless the two are the same (`EnvCache.StaleStays`).
- `get_absfilename` counts an empty or "." component as one that ".." takes away, and leaves a ".." at the end
  (`PathForms.SkippedComponentDiffers`, `PathForms.LastUpDiffers`). `PathForms.FormsAgree` says for every absolute path
  whether the result is the canonical one: a ".." that takes away such a component spares a name, one that takes away a
  name at the canonical root takes a spared one back, and in the end none may be spared and the last component must be a
  name, or be empty at the root.
- `shorten_filename` starts over at the end of the name when it meets a slash at position 0 (services/comm.cpp:889-900),
  so that "/a/b" becomes "b" (`Messages.ShortenLoses`); it keeps as many of the last two directories as there are if
  and only if the name does not start with a slash or has a third one (`Messages.ShortenExact`).
- The self-test of the MD5 code lists the digest of "a" beside another text (client/md5.c:55); the other digests are those
  of section A.5 of RFC 1321, of which `Md5Example.DigestOfAbc` proves the one of "abc".
- A job that ends by its id while it is still queued would stay in the queue or make the log read a missing node:
  `SchedulerInv.DoneNeedsTold` proves exactly which messages do no harm.
- `cache_size` drifts above the sum of sizes when an environment is installed again; the model keeps the exact surplus.

System calls, clocks, other processes and peers are arguments of the methods: bytes read, results of `send`, success of
a child, files present, time. Assumptions on peers are stated as enabledness of events: daemons send one pending request
per client, name a job id only after they were told it, and clients send in each status what the client program sends.
The daemon's scheduler can be found and lost at any time, and all clients can end at any time; client ids start over.

## Model

| member | source | states |
|---|---|---|
| SchedulerRuns.ReachableInv | scheduler/scheduler.cpp:375-484 | In every state any run of messages, timers and sends can reach: the queued jobs are exactly the pending ones, each without a node and in one group of its own submitter and niceness; each assigned job is once in its node's list and in no other; listed nodes and jobs exist; counters are exact; a client has one pending request |
| SchedulerRuns.RunKeeps | scheduler/scheduler.cpp:1806-1866 | The invariant survives a whole run from any state that has it |
| SchedulerRuns.StepKeeps | scheduler/scheduler.cpp:1806-1866 | Every message a daemon may send at that point, and every round of the queue, keeps the invariant |
| SchedulerRuns.ReachableNode | scheduler/compileserver.cpp:158-214 | Over every run a node holds at most abs(maxJobs) + 1 + abs(maxJobs)/4 jobs of other nodes, whatever local jobs come and go and however pings flip the sign; its list has no repeats and no strangers; its counter of submitted jobs is their number |
| SchedulerRuns.DispatchOrder | scheduler/scheduler.cpp:385-484 | A dispatch serves a job of the smallest niceness queued, and jobs of one submitter at one niceness leave in the order they came |
| SchedulerRuns.BoundedBypass | scheduler/scheduler.cpp:979-1029 | While a group waits, others are served at most as often as jobs and groups were ahead of it, plus once for each request of smaller niceness that came in, over any run |
| SchedulerMeans.BypassNumbers | scheduler/scheduler.cpp:979-1029 | The same in numbers: others are served at most once for each request of a smaller niceness and each other submitter with requests of the same niceness that waited at the start, and once for each request of a smaller niceness that came in since |
| SchedulerRuns.StepMoves | scheduler/scheduler.cpp:428-484 | In one step a waiting group falls back only by an overtaking request, and every dispatch of another group brings it closer |
| SchedulerRuns.ServeMoves | scheduler/scheduler.cpp:468-484 | A delivered dispatch brings every other waiting group closer by exactly one; if the submitter is lost instead, by at least one |
| SchedulerRuns.GetCSMoves | scheduler/scheduler.cpp:385-406 | A request moves a waiting group back, by one, exactly if its niceness is smaller |
| SchedulerRuns.JobDoneMoves | scheduler/scheduler.cpp:1275-1393 | The end of any job never moves a waiting group back |
| SchedulerRuns.LoginMoves | scheduler/scheduler.cpp:1126-1187 | A login, stale nodes removed included, never moves a waiting group back |
| SchedulerInv.SubmitKeeps | scheduler/scheduler.cpp:488-560 | A new request keeps all structures in agreement |
| SchedulerInv.AssignKeeps | scheduler/scheduler.cpp:1031-1034 | Between taking the head from the queue and delivering the answer, only that job is assigned but not listed |
| SchedulerInv.DeliverKeeps | scheduler/scheduler.cpp:1067-1100 | Once delivered, the job is listed and the invariant whole again, if the node had room for a job of others |
| SchedulerInv.AssignedHasRoom | scheduler/scheduler.cpp:979-1029 | A node that gets the job of another node has a free slot or a preload slot; only the submitter itself can get one without |
| SchedulerInv.EmptyQueueKeeps | scheduler/scheduler.cpp:979-1124 | A round of the queue keeps the invariant for any choice of the picker, delayed, delivered or failed |
| SchedulerInv.RemoveDaemonKeeps | scheduler/scheduler.cpp:1706-1803 | Removing a daemon with all its jobs keeps the invariant, even while one job is assigned and not listed |
| SchedulerInv.JobBeginKeeps | scheduler/scheduler.cpp:1238-1273 | The begin of a compilation keeps the invariant; a message about a job that is not on that node changes nothing |
| SchedulerInv.EndJobKeeps | scheduler/scheduler.cpp:1345-1393 | Deleting a finished or a cancelled job keeps the invariant |
| SchedulerInv.JobDoneKeeps | scheduler/scheduler.cpp:1275-1393 | The end of a job, by id or by client, and the removal of a daemon that claims the job of others keep the invariant |
| SchedulerInv.DoneNeedsTold | scheduler/scheduler.cpp:1275-1393 | Any message about a job, from its node or its submitter, by job id or by client, keeps the invariant and reads no missing node for the log if and only if the daemon had been told the id (or reports its own failed request by client), or it claims by id to have submitted the job of another daemon |
| SchedulerInv.LoginKeeps | scheduler/scheduler.cpp:1126-1187 | A login keeps the invariant, with every stale node and its jobs gone |
| SchedulerInv.TouchKeeps | scheduler/scheduler.cpp:1395-1451 | Messages about what a node can do keep the invariant |
| SchedulerSpec.InitialInv | scheduler/scheduler.cpp:105-133 | The empty scheduler satisfies the invariant |
| SchedulerMeans.RequestRecorded | scheduler/scheduler.cpp:488-560 | A request becomes one more pending job with all fields asked for, its niceness cut to 0..20, and is queued |
| SchedulerMeans.GoneMeans | scheduler/scheduler.cpp:1706-1803 | With a daemon go exactly the jobs it submitted and the jobs it was to compile |
| SchedulerMeans.GoneNode | scheduler/scheduler.cpp:1706-1803 | Of another node exactly the gone submitter's jobs leave the list, which ends its being busy installing; what it had blacklisted on the gone node is forgotten |
| SchedulerMeans.EndByClient | scheduler/scheduler.cpp:1290-1323 | The end of a request by client id deletes exactly the pending job of that client |
| SchedulerMeans.EndById | scheduler/scheduler.cpp:1325-1393 | The end of a job by id deletes it if the node that compiles it or its submitter says so; any other daemon is removed, and an unknown id changes nothing |
| SchedulerMeans.LoginMeans | scheduler/scheduler.cpp:1126-1187 | After a login no other node has the same address and node name, exactly the jobs of such nodes are gone, and the new node is last, idle and under a fresh id |
| SchedulerMeans.PingMeans | scheduler/scheduler.cpp:937-946 | A node that was sent a ping is not eligible for any job; its answer restores the absolute value of its limit |
| SchedulerMeans.LocalTouches | scheduler/scheduler.cpp:562-576 | A local job gets the next id and replaces what was announced for its client |
| SchedulerMeans.BlacklistTouches | scheduler/scheduler.cpp:1435-1451 | The environment is blacklisted for every node of that name and for no other |
| JobQueue.EnqueueKeeps | scheduler/scheduler.cpp:385-406 | After an enqueue the groups are still non-empty, sorted by niceness, distinct in submitter and niceness, and ascending inside, and the jobs are the old ones and the new one |
| JobQueue.EnqueueCovered | scheduler/scheduler.cpp:385-406 | After an enqueue every job in a group is the new one under its own key or was in a group of the same submitter and niceness before |
| JobQueue.RemovalKeeps | scheduler/scheduler.cpp:428-484 | Taking or cancelling a job keeps the queue well formed and takes away that job only |
| JobQueue.RemovalCovered | scheduler/scheduler.cpp:468-484 | Every other job stays in a group of its submitter and niceness |
| JobQueue.DropSubmitterKeeps | scheduler/scheduler.cpp:1738-1760 | Dropping a submitter keeps the queue well formed, and of the jobs queued exactly those of other submitters remain |
| JobQueue.DispatchAdvances | scheduler/scheduler.cpp:468-484 | A dispatch brings every group that is not served one closer, exactly |
| JobQueue.EnqueueMoves | scheduler/scheduler.cpp:385-426 | An enqueue moves a group back by one exactly if the job has a smaller niceness |
| JobQueue.CancelMoves | scheduler/scheduler.cpp:1290-1323 | Cancelling a request moves no group back |
| JobQueue.DropMoves | scheduler/scheduler.cpp:1738-1760 | Dropping a submitter moves no other group back |
| JobQueue.ServedNext | scheduler/scheduler.cpp:428-437 | The head of the queue is the oldest job of its group, which has the smallest niceness of all |
| SchedulingAlgo.PickServerRoundRobin | scheduler/scheduling_algo.cpp:31-53 | The first of the nodes picked least recently |
| SchedulingAlgo.PickServerLeastBusy | scheduler/scheduling_algo.cpp:55-109 | Among the nodes within a millionth of the least load, one picked least recently; never none of a non-empty pool |
| SchedulingAlgo.RoundRobinVisitsEach | scheduler/scheduling_algo.cpp:31-53 | With n fixed eligible nodes and ids above all earlier picks, any n consecutive picks visit each node exactly once |
| SchedulingAlgo.PickIsOldest | scheduler/scheduling_algo.cpp:31-53 | The picker's choice is one the round-robin theorem speaks about |
| SchedulingAlgo.LoadMeans | scheduler/scheduling_algo.cpp:61-71 | The load times the slots is the number of jobs, plus one weighted share for each job the node itself submitted |
| SchedulerFacts.DeliverRecorded | scheduler/compileserver.cpp:324-328 | Delivering a job records the pick of that node and of no other, as the round-robin theorem assumes |
| CompileServers.CanInstall | scheduler/compileserver.cpp:135-156 | The platform of the first of the job's environments that runs on the node and that its submitter has not blacklisted there; none exactly if the node installs something (unless that is ignored), names no platform, or no environment qualifies, platforms compared with the twelve listed pairs |
| CompileServers.IsEligibleNow | scheduler/compileserver.cpp:168-214 | True exactly for a node that accepts jobs, speaks the version, has the features, can run and install an environment, may take the job of others, and has a free or preload slot, a load below 1000 and nothing to install, told on its fields |
| CompileServers.CurrentJobCountLocal | scheduler/compileserver.cpp:296-302 | A full local job counts as all slots, others as one |
| CompileServers.EnvsMatch | scheduler/scheduler.cpp:599-627 | The platform of an installed environment that the job asks for, or the submitter's own; for a node with a platform, none exactly if no version of the job's target has the name of an environment that runs there |
| CompileServers.PlatformPairs | scheduler/compileserver.cpp:97-128 | A platform runs on another one exactly for the twelve pairs of the table |
| CompileServers.InstallMeans | scheduler/compileserver.cpp:135-156 | A platform is found exactly if the node names one, is not installing (or that is ignored), and some environment of the job runs there and is not blacklisted; it is that of the first such environment |
| CompileServers.EligibleMeans | scheduler/compileserver.cpp:168-214 | Eligible ever and now, and offered to the algorithms, told on the fields of node, submitter and job |
| CompileServers.ReservedIs | scheduler/compileserver.cpp:296-302 | The slots of local jobs are the number of full jobs times all slots, plus the number of the others |
| CompileServers.InstalledMeans | scheduler/scheduler.cpp:599-627 | A node with a platform has an environment for a job exactly if the job is its own or one of its versions, for the job's target, bears the name of an environment that runs there |
| Dispatch.RemoteDispatch | scheduler/scheduler.cpp:979-1100 | In any round that gives the head to a node other than its submitter: that node matches the preferred host, speaks the minimal version, has the features, can isolate, takes jobs of others, accepts connections, is below load 1000, installs nothing, has a free or preload slot, and some environment of the job has its platform or one of the twelve pairs with it and is not blacklisted there |
| Dispatch.HeadWaits | scheduler/scheduler.cpp:979-1029 | The round changes nothing if and only if no listed node the job wants can take it now, its submitter has no free slot for it, and some listed node it wants could take it once free |
| Dispatch.OwnDispatch | scheduler/scheduler.cpp:979-1029 | The head goes to its own submitter only if that can take it like any other, or nobody can and it has a slot or nobody ever could |
| Dispatch.RemoteRecords | scheduler/scheduler.cpp:1031-1100 | The job then waits on that node, last in its list; the node is busy installing from now on exactly if it lacks the environment; no other node changes |
| Dispatch.RunDispatches | scheduler/scheduler.cpp:979-1124 | Every round in every run of the scheduler is one these theorems speak about |
| Scheduler.Scheduler.RemoveJob | scheduler/scheduler.cpp:137-146 | Erases the first occurrence of the job and nothing else |
| Scheduler.Scheduler.EnqueueJobRequest | scheduler/scheduler.cpp:385-406 | The in-place walk is the sorted insertion by niceness, joining an existing group of the submitter |
| Scheduler.Scheduler.EnqueueJobRequestsGroup | scheduler/scheduler.cpp:408-426 | The group goes behind all of its niceness |
| Scheduler.Scheduler.RemoveJobRequest | scheduler/scheduler.cpp:468-484 | The job is taken out and the rest of its group goes behind its equals |
| Scheduler.Scheduler.FilterIneligibleServers | scheduler/scheduler.cpp:629-670 | Exactly the nodes that can be offered the job now (`CompileServers.EligibleMeans` tells on which fields), in the order of the list |
| Scheduler.Scheduler.PickPreferred | scheduler/scheduler.cpp:826-838 | The first node of the preferred name that may take the job |
| Scheduler.Scheduler.PickServer | scheduler/scheduler.cpp:795-891 | A node that may be picked (`Dispatch.PickMeans` tells which), none only if there is none; round robin and least busy keep their own promise |
| Scheduler.Scheduler.HandleEnd | scheduler/scheduler.cpp:1706-1803 | Loops over queue, jobs and nodes amount to: the daemon, its requests, the jobs it submitted and the jobs it compiled are gone everywhere, counters adjusted, blacklists forgotten |
| Scheduler.Scheduler.FindServer | scheduler/scheduler.cpp:979-1029 | The search walks through the whole queue but can only succeed at the head's position; its outcome is the node for the head, or to wait |
| QueueExample.HeadBlocks | scheduler/scheduler.cpp:979-1029 | In a reachable state every choice of the picker leaves the head waiting, although the second job could be placed at once |
| Scheduler.Scheduler.HandOut | scheduler/scheduler.cpp:1031-1124 | The job leaves its place in the queue for the node's list, or its unreachable submitter is removed with it |
| Scheduler.Scheduler.EmptyQueue | scheduler/scheduler.cpp:979-1124 | One round hands the head out as specified (`Dispatch` tells to whom), also when the answer cannot be sent, and says whether another round is due; the invariant holds afterwards |
| Scheduler.Scheduler.HandleCsRequest | scheduler/scheduler.cpp:488-560 | A request becomes one pending, queued, counted job |
| Scheduler.Scheduler.HandleJobBegin | scheduler/scheduler.cpp:1238-1273 | Starts the job exactly if it is on that node |
| Scheduler.Scheduler.CancelPending | scheduler/scheduler.cpp:1290-1323 | Of the jobs in the order of their ids, the pending one of that client is found and taken out of the queue |
| Scheduler.Scheduler.DequeueJob | scheduler/scheduler.cpp:1300-1320 | The walk over all groups of the submitter takes the job out of its one group |
| Scheduler.Scheduler.HandleJobDone | scheduler/scheduler.cpp:1275-1393 | The job ends by id or by client, or the daemon that lies is removed; reading the node's name for the log is safe |
| Scheduler.Scheduler.HandleLogin | scheduler/scheduler.cpp:1126-1187 | Stale nodes are removed while the list is walked, then the new node is listed; a blocked one is refused |
| Scheduler.Scheduler.DropStale | scheduler/scheduler.cpp:1168-1178 | Erasing from the list during the walk skips no stale node |
| Scheduler.Scheduler.SendPing | scheduler/scheduler.cpp:937-946 | A silent node gets no job until it answers, invariant kept |
| Scheduler.Scheduler.HandlePing | scheduler/scheduler.cpp:1395-1404 | An answered ping restores the limit, invariant kept |
| Scheduler.Scheduler.HandleStats | scheduler/scheduler.cpp:1406-1433 | Before protocol 25 the statistics also answer a ping |
| Scheduler.Scheduler.HandleRelogin | scheduler/scheduler.cpp:1189-1216 | New environments, no longer installing, invariant kept |
| Scheduler.Scheduler.HandleLocalJob | scheduler/scheduler.cpp:562-576 | A local job takes an id and a slot, or all slots, invariant kept |
| Scheduler.Scheduler.HandleLocalJobDone | scheduler/scheduler.cpp:578-590 | The local job's slots are free again, invariant kept |
| Scheduler.Scheduler.HandleBlacklistHostEnv | scheduler/scheduler.cpp:1435-1451 | Every node of that name is blacklisted for the environment |
| Wire.BigEndianInverse | services/comm.cpp:438-463 | Every 32-bit word is read back from its 4 bytes |
| Wire.LittleEndianInverse | services/comm.cpp:181-195 | Every version word is read back from its 4 bytes |
| Wire.ByteOrder | services/comm.cpp:438-463 | The first byte of a word is worth 2^24, and of a version word 1 |
| Wire.PutText | services/comm.cpp:465-489 | A string without NUL is read back, whatever follows it |
| Wire.PutList | services/comm.cpp:491-519 | A list of such strings is read back, although reading stops when the buffer is exhausted |
| Wire.PutEnvironments | services/comm.cpp:521-544 | A list of environments is read back |
| Wire.AppendText | services/comm.cpp:325-336 | What follows a string on the wire does not change its bytes |
| Messages.ShortenFilename | services/comm.cpp:889-900 | The loop over positions, its wrap-around at position 0 included |
| Messages.ShortenKeepsName | services/comm.cpp:889-900 | The shortened name is a tail of the name with the same base name and at most two directories |
| Messages.ShortenExact | services/comm.cpp:889-900 | It has as many of the last two directories as there are if and only if the name does not start with a slash or has a third one |
| Messages.ShortenLoses | services/comm.cpp:889-900 | "/a/b" becomes "b" |
| Messages.FlagsOf | services/job.cpp:31-57 | Exactly the flags of that class, in order |
| Messages.NonLocalFlags | services/job.cpp:59-70 | Exactly the flags that are not local, in order |
| Messages.GetCSRoundTrip | services/comm.cpp:1964-2043 | For every version, decoding gives the fields it carries and consumes exactly the body: file name shortened, minimal version coarsened to 31 or nothing in 31 to 33 and lost before |
| Messages.UseCSRoundTrip | services/comm.cpp:2045-2075 | The same; the matched job id only from version 28 on |
| Messages.JobDoneRoundTrip | services/comm.cpp:2356-2403 | The same; before version 39 an unknown job travels as exit code 200 |
| Messages.JobDoneKind | services/comm.cpp:2356-2403 | The reader takes the job for unknown exactly if it is, or if before version 39 it exited with 200; the exit code is lost exactly for unknown jobs before 39 |
| Messages.JobLocalBeginRoundTrip | services/comm.cpp:2297-2325 | The same; full jobs from 44, niceness from 45 on |
| Messages.LoginRoundTrip | services/comm.cpp:2444-2485 | The same; no-remote from 26, features from 42 on |
| Messages.CompileFileRoundTrip | services/comm.cpp:2100-2199 | The same, the compiler name of the environment from 30, files from 34 and 35 on |
| Messages.FlagsArrive | services/comm.cpp:2105-2190 | From 41 on all non-local flags arrive in their order as one class; before, both classes keep theirs and only the clang marker is new |
| Messages.TaggedInverse | services/comm.cpp:2107-2124 | Flags tagged with a class on arrival are those flags |
| Messages.MsgRoundTrip | services/comm.cpp:1157-1316 | Any message of the model, whatever follows it, is decoded to what the version carries and leaves exactly what follows |
| Messages.AppendMsg | services/comm.cpp:325-336 | What follows a message does not change its bytes |
| WireFormat.FrameBytes | services/comm.cpp:1316-1340 | For every message and version a frame is the length, the type number and the fields of the message's table, each with the version that introduced it: the bytes, written down independently of the writers |
| WireFormat.NothingLost | services/comm.cpp:1964-2485 | From version 45 on the reader sees the whole message, but for what the writer itself leaves out |
| WireFormat.ArrivesSince | services/comm.cpp:1964-2485 | For each version-dependent field, from which version on the reader sees it, and its value before |
| WireFormat.CompilerMeans | services/comm.cpp:2201-2217 | The environment's compiler is clang for names that hold one of four words, otherwise g++ for C++ and gcc |
| WireFormat.ReadsMalformed | services/comm.cpp:438-481 | What a word, a length of 0 or beyond the bytes that are there, and a string with a NUL in its middle are read as |
| WireFormat.WrongLength | services/comm.cpp:1157-1316 | A message that does not use up its length, or whose type is unknown, breaks the channel |
| WireFormat.FirstWord | services/comm.cpp:181-217 | A peer's first version word, least significant byte first, breaks the channel below 21 and above 2^20, and is otherwise answered with the smaller version |
| ChannelSpec.FeedChunks | services/comm.cpp:114-298 | Receiving two chunks one after the other is receiving them at once, words sent back included, in every state of handshake and framing |
| ChannelSpec.FragmentationIrrelevant | services/comm.cpp:114-298 | Any number of chunks of any size have the effect of their concatenation |
| ChannelSpec.Handshake | services/comm.cpp:171-241 | After any prefix of what a peer sends: the answer goes out exactly with the fourth byte, the version is the smaller one exactly from the eighth on, and every later byte is still unread |
| ChannelSpec.TakeFirst | services/comm.cpp:1157-1316 | A complete frame yields its message and leaves what is behind it |
| ChannelSpec.TakeNone | services/comm.cpp:243-298 | An incomplete frame yields nothing and no error |
| ChannelSpec.EndToEnd | services/comm.cpp:1157-1346 | Whatever the chunks and whenever messages are asked for, those taken are the first sent, in order, and the rest is still to come, to the byte |
| ChannelSpec.Conversation | services/comm.cpp:1005-1346 | From the first byte on, whatever the chunks and whenever messages are asked for, the messages taken are the first ones sent, in order, without an error; once all bytes have come and no message waits, they are all of them |
| ChannelSpec.AllTaken | services/comm.cpp:1157-1316 | When all frames were received and no message waits, all were taken |
| ChannelSpec.FramesAppend | services/comm.cpp:1316-1346 | Sending messages one after the other is sending the sequence |
| Handshakes.Agreement | services/comm.cpp:171-241 | In every interleaving and fragmentation of the words and first messages of two peers neither fails, and a ready peer speaks the smaller version with all bytes behind the two words left to the messages |
| Handshakes.NoDeadlock | services/comm.cpp:1005-1022 | Once nothing is in flight both peers are ready and agree |
| Handshakes.RunKeeps | services/comm.cpp:171-241 | What each peer has sent depends only on how much it received, over any run |
| Channel.MsgChannel.ChopInput | services/comm.cpp:300-312 | Compaction in place keeps the unread bytes |
| Channel.MsgChannel.EnlargeInput | services/comm.cpp:119-124 | Growing keeps the unread bytes |
| Channel.MsgChannel.ChopOutput | services/comm.cpp:314-323 | Compaction of the output keeps what is to be sent |
| Channel.MsgChannel.WriteFull | services/comm.cpp:325-336 | Appends to what is to be sent, inside the grown buffer; right because between calls the output starts at offset 0 |
| Channel.MsgChannel.FlushWritebuf | services/comm.cpp:361-436 | For any answers of send: nothing is lost, doubled or reordered, and after success nothing is left and the offset is 0 |
| Channel.MsgChannel.FirstVersion | services/comm.cpp:181-217 | Proposes the smaller version, or fails for an unsupported one |
| Channel.MsgChannel.SecondVersion | services/comm.cpp:218-232 | Accepts exactly the proposal |
| Channel.MsgChannel.NeedProto | services/comm.cpp:171-241 | The loop of the handshake is the specified step, and writes exactly its answer |
| Channel.MsgChannel.NeedLen | services/comm.cpp:261-284 | Reads the length and makes room for the message |
| Channel.MsgChannel.UpdateState | services/comm.cpp:169-298 | The state machine is the specified one; a failed answer breaks the channel |
| Channel.MsgChannel.FillBuffer | services/comm.cpp:114-156 | Room for at least 128 bytes, so that waiting bytes are always read |
| Channel.MsgChannel.ReadABit | services/comm.cpp:114-167 | One read feeds the bytes read to the specified reader |
| Channel.MsgChannel.WaitForProtocol | services/comm.cpp:1054-1089 | Success means the handshake is over, with the effect of the chunks read |
| Channel.MsgChannel.SendMsg | services/comm.cpp:1316-1346 | On success exactly the words of the handshake and then the frame were written, in order, and the receiving side is what the bytes read meanwhile make of it: nothing received is lost |
| Channel.MsgChannel.Frame | services/comm.cpp:1325-1340 | The placeholder is replaced by the length of what was written |
| Channel.MsgChannel.SendToChannel | services/comm.cpp:1928-1935 | The message writes its type and the body of its version |
| Channel.MsgChannel.SendGetCS | services/comm.cpp:2012-2043 | Field by field what the specified encoding has |
| Channel.MsgChannel.SendUseCS | services/comm.cpp:2062-2075 | Field by field what the specified encoding has |
| Channel.MsgChannel.SendJobDone | services/comm.cpp:2382-2403 | Field by field what the specified encoding has |
| Channel.MsgChannel.SendJobLocalBegin | services/comm.cpp:2313-2325 | Field by field what the specified encoding has |
| Channel.MsgChannel.SendLogin | services/comm.cpp:2469-2485 | Field by field what the specified encoding has |
| Channel.MsgChannel.SendCompileFile | services/comm.cpp:2158-2199 | Field by field what the specified encoding has |
| Channel.MsgChannel.ReadWord | services/comm.cpp:438-456 | The cursor moves over a word if there is one |
| Channel.MsgChannel.ReadText | services/comm.cpp:465-481 | The cursor moves over a string if all of it is there |
| Channel.MsgChannel.ReadList | services/comm.cpp:491-508 | The loop reads the specified list |
| Channel.MsgChannel.ReadEnvironments | services/comm.cpp:531-544 | The loop reads the specified list of pairs |
| Channel.MsgChannel.FillGetCS | services/comm.cpp:1964-2010 | Reads what the specified decoding reads |
| Channel.MsgChannel.FillUseCS | services/comm.cpp:2045-2060 | Reads what the specified decoding reads |
| Channel.MsgChannel.FillJobDone | services/comm.cpp:2356-2380 | Reads what the specified decoding reads |
| Channel.MsgChannel.FillJobLocalBegin | services/comm.cpp:2297-2311 | Reads what the specified decoding reads |
| Channel.MsgChannel.FillLogin | services/comm.cpp:2444-2467 | Reads what the specified decoding reads |
| Channel.MsgChannel.FillCompileFile | services/comm.cpp:2100-2156 | Reads what the specified decoding reads |
| Channel.MsgChannel.GetMsg | services/comm.cpp:1157-1316 | Takes the complete message, checks that it used up its length, and goes on with the next frame; without a message nothing is taken |
| Delivery.Deliver | services/comm.cpp:1157-1350 | A message sent by one channel object and read by another in pieces of any size is taken as what the receiver is to see of it; nothing else is written, and both can go on |
| Delivery.Complete | services/comm.cpp:232-300 | A message is complete exactly when all bytes of its frame are there |
| Channel.MsgChannel.constructor | services/comm.cpp:923-1022 | A new channel writes its version first |
| DaemonSpec.Reachable | daemon/main.cpp:1504-1660 | In every state that any run can reach, with the scheduler found and lost and all clients ended at any time: active_processes is exactly the weighted number of clients that work, current_kids the number of live children, at most one full job runs, and compile children with working clients stay within M, with a full job within 2M-1 |
| DaemonMeans.ReachableCounts | daemon/main.cpp:1504-1660 | The same on the clients' fields: in every reachable state one slot is counted for each running job and all for a full one, one child for each client with a living child, at most one full job runs, and jobs and compile children fit the slots, beside a full job all but one |
| DaemonMeans.StatusMeans | daemon/main.cpp:981-1086 | From which status and by what a client comes into each status |
| DaemonMeans.KnowsMeans | daemon/main.cpp:1839-1879 | Which job id, niceness, fullness and environment a client then has |
| DaemonSpec.StepKeeps | daemon/main.cpp:981-1247 | Every event of a client, a child or the scheduler, and the end of all clients, keeps that and what each status implies, and no counter underflows |
| DaemonRuns.WithScheduler | daemon/main.cpp:1839-1862 | Runs in which a client waits for the scheduler, then for another node; and in which, after the scheduler was lost, a client id is used again |
| DaemonSpec.LostLater | daemon/main.cpp:798-812 | A failed message to the scheduler in the course of an event amounts to the loss of the scheduler behind it |
| DaemonSpec.CountersCover | daemon/main.cpp:1504-1512 | The counters cover what any client holds |
| DaemonSpec.ChangedBound | daemon/main.cpp:1532-1618 | Starting a job where a slot is free keeps the bound, a full job included |
| DaemonSpec.Rendezvous | daemon/main.cpp:1039-1247 | Over any course of one transfer: it ends finalized exactly if both the end of the transfer and the success of the child came and nothing failed; then no pipe and no child is left |
| DaemonRuns.FinalizedExactly | daemon/main.cpp:1039-1247 | Over any run of the daemon, with any other clients in between, the scheduler found and lost, and client ids used again: the calls of finalize_install_environment are exactly the transfers for which both the end of the transfer and the success of the child came since they started and nothing failed, each once, at the later of the two |
| DaemonSpec.InstallCountsOnce | daemon/main.cpp:1151-1217 | current_kids falls by one exactly when the install child's end is seen or it is killed |
| DaemonSpec.EndKeeps | daemon/main.cpp:1716-1813 | Ending a client keeps the counters exact; a compile child may outlive its client |
| DaemonSpec.EndIsStep | daemon/main.cpp:1716-1813 | For a client without compile child that is the End event |
| DaemonSpec.CompileDoneStep | daemon/main.cpp:1620-1660 | Counting the child off before ending its client counts it once |
| Daemon.Daemon.AcceptClient | daemon/main.cpp:2137-2142 | A new client joins under the next id |
| Daemon.Daemon.SendScheduler | daemon/main.cpp:798-812 | A failed send loses the scheduler |
| Daemon.Daemon.CloseScheduler | daemon/main.cpp:822-836 | The scheduler is lost, if there was one |
| Daemon.Daemon.Reconnect | daemon/main.cpp:2227-2269 | A scheduler that is found and can be greeted is connected, and the load counts as unreported |
| Daemon.Daemon.MaybeStats | daemon/main.cpp:838-910 | A load is told when it is due and changed by much or reached or left its maximum, and kept unless telling it failed |
| Daemon.Daemon.SchedulerClosed | daemon/main.cpp:2060-2067 | The scheduler is lost and then all clients end |
| Daemon.Daemon.EndRound | daemon/main.cpp:2219-2222 | All clients end exactly if the round lost the scheduler |
| Daemon.Daemon.GetEarliestClient | daemon/main.cpp:309-325 | The client a walk in the map's order chooses; none exactly if nobody is in that status, and nobody beats it on both id and niceness |
| DaemonRuns.ChosenInEveryOrder | daemon/main.cpp:309-325 | A client is chosen in every order of the map if and only if it is ahead of every other waiting client on both id and niceness |
| DaemonRuns.EarlierLoses | daemon/main.cpp:309-325 | Of two clients with equal niceness the one that comes first in the map is chosen, even if it is the younger |
| DaemonRuns.EarliestUnbeaten | daemon/main.cpp:309-325 | Somebody is chosen exactly if somebody waits, and nobody beats the chosen one on both |
| Daemon.Daemon.HandleOldRequest | daemon/main.cpp:1532-1618 | While a slot is free the next client is started, or ended if it cannot be: the state afterwards is the run of exactly these events; nothing is left to start unless slots, load or a lost scheduler forbid it; of the cache only time stamps change |
| DaemonRuns.ServedOnce | daemon/main.cpp:1532-1618 | Told from the state before: every client that waits is served at most once, started exactly if it can be reached or its child forked and ended otherwise, local jobs before jobs for this node before compile jobs, no compile job under load; all other clients are as before |
| DaemonRuns.NextRank | daemon/main.cpp:1532-1618 | The next client waits, and nobody of a higher rank does |
| Daemon.Daemon.StartLocalJob | daemon/main.cpp:1538-1559 | One slot, or all of them, is taken |
| Daemon.Daemon.StartPendingJob | daemon/main.cpp:1562-1578 | One slot is taken |
| Daemon.Daemon.StartCompileJob | daemon/main.cpp:1585-1612 | One child is started |
| Daemon.Daemon.HandleTransferEnv | daemon/main.cpp:1039-1086 | The install child is counted, or the client ended and its transfer cancelled |
| Daemon.Daemon.HandleChunk | daemon/main.cpp:1088-1126 | A written chunk changes nothing, a failed write ends the client |
| Daemon.Daemon.HandleTransferEnd | daemon/main.cpp:1128-1149 | Waits for the child, or finalizes the environment if the child has ended; the cache grows and is cleaned up exactly then, and its surplus by the size overwritten |
| Daemon.Daemon.HandleInstallChildDone | daemon/main.cpp:1151-1185 | Counts the child off once and cancels, waits or finalizes: finalized exactly if it succeeded and the transfer has ended, with the exact effect on cache and surplus |
| Daemon.Daemon.FinishTransferEnv | daemon/main.cpp:1187-1247 | Only a cancelled transfer closes or kills anything; any other is finalized once, stored with its size and time, and the cache cleaned up after it; the load is measured anew |
| Daemon.Daemon.HandleEnd | daemon/main.cpp:1716-1813 | Gives back what the client holds, and tells the scheduler of its unfinished job; no client has a job id in a status the source rules out |
| DaemonMeans.NoticeMeans | daemon/main.cpp:1750-1813 | A client that holds a job id gives it back when it goes, except one that waited for another node and exits with 119; a request without an id is given back by the client's id, a waiting compile job as the compiling side, a running local job as such, and nobody else is mentioned |
| Daemon.Daemon.ClearChildren | daemon/main.cpp:1815-1837 | All clients end, ids start over, the counters are zero, and exactly the live compile children were waited for |
| Daemon.Daemon.HandleJobDone | daemon/main.cpp:1504-1530 | A working client gives back its slots once; the message names its job |
| Daemon.Daemon.HandleCompileDone | daemon/main.cpp:1620-1660 | The child is counted off once and its client ends; the environment is stamped, or removed if its compiler is missing |
| Daemon.Daemon.HandleCompileFile | daemon/main.cpp:1662-1684 | A working client goes on, and its job is one for itself; another waits for a slot |
| Daemon.Daemon.HandleGetCs | daemon/main.cpp:1839-1862 | Waits for the scheduler, or without one for a slot |
| Daemon.Daemon.HandleLocalJob | daemon/main.cpp:1871-1879 | Waits for a slot, or for all |
| Daemon.Daemon.SchedulerUseCs | daemon/main.cpp:981-1037 | The client waits for a slot here, goes to another node, or is ended if it cannot be told |
| Daemon.Daemon.HandleGetNativeEnv | daemon/main.cpp:1386-1442 | Without a file that is needed the client ends; otherwise it is answered at once exactly if the environment is there, and waits while it is made, which is started once |
| Daemon.Daemon.FinishGetNativeEnv | daemon/main.cpp:1444-1459 | The client that waits is told or ended |
| Daemon.Daemon.EndPending | daemon/main.cpp:1475-1489 | Exactly the clients that wait for the environment go; the repeated scan terminates |
| Daemon.Daemon.CreateEnvFinished | daemon/main.cpp:1461-1502 | A new environment is stored with its size and time, the cache cleaned up, and every client that waits for it told or ended; a failed one leaves no trace and its clients end |
| Daemon.Daemon.TellPending | daemon/main.cpp:1497-1500 | The walk tells or ends every client that waits for the environment and leaves the others as they are |
| DaemonMeans.ToldMeans | daemon/main.cpp:1461-1502 | Exactly the clients that wait for the environment are told, or gone if they cannot be reached; all others stay as they are |
| EnvCache.StaleStays | daemon/main.cpp:1412-1421 | An environment whose files have changed is removed if and only if its key is the name of its tarball; if that name is no key, nothing changes |
| Daemon.Daemon.CheckCacheSize | daemon/main.cpp:1249-1338 | The loop computes the clean-up `Cleaned`: one environment per pass, in the order of the maps' keys, as long as the cache is above its limit and a pick may go |
| EnvCache.CleanedKeeps | daemon/main.cpp:1249-1338 | Only environments that are missing, or idle and unused, go, and never the received new one; the others keep size and time; the size stays right; it ends under the limit or when nothing is picked |
| EnvCache.CleanedStops | daemon/main.cpp:1249-1338 | Above the limit nothing may go if and only if the new environment itself may not, which for a received one is so afterwards exactly if before |
| EnvCache.CleanedGivesUp | daemon/main.cpp:1263-1330 | The loop stops above the limit although another environment may go, if the new one has lost its files |
| EnvCache.InstalledStays | daemon/main.cpp:1219-1240 | An environment just installed survives with its size and time, and if its assembler is there and no native environment of its name may go, the clean-up ends under the limit or when nothing may go |
| DaemonMeans.MayGoMeans | daemon/main.cpp:1258-1327 | What may go, on the fields: 200 seconds, a day below 5 native environments, a year while one is made, or missing files |
| DaemonMeans.PickOldest | daemon/main.cpp:1258-1330 | If no environment is missing, the one that goes next, received or native, was used least recently of all that may go |
| DaemonMeans.NeededStays | daemon/main.cpp:1249-1338 | A received environment that a waiting or running compile job needs outlives every clean-up, unless its files are missing |
| DaemonMeans.UsedMeans | daemon/main.cpp:1270-1289 | Which clients' jobs make an environment count as used |
| DaemonMeans.StampMeans | daemon/main.cpp:1386-1502 | A used environment gets the time of its use and keeps its size, a new one has its size and the time at which it came, one that is asked for is being made, and no other received one changes |
| Daemon.Daemon.RemoveNativeEnvironment | daemon/main.cpp:1340-1355 | The cache size covers the size subtracted, and no other environment goes |
| Daemon.Daemon.RemoveEnvironment | daemon/main.cpp:1357-1366 | The cache size covers the size subtracted, and no other environment goes |
| Daemon.Daemon.AddReceived | daemon/main.cpp:1233-1240 | The cache size exceeds the sum of sizes exactly by what was overwritten without removal |
| DaemonSpec.UsedIs | daemon/main.cpp:1270-1289 | An environment counts as used exactly if the job of a client that installs, waits to compile or compiles needs it |
| EnvCache.OldestReceived | daemon/main.cpp:1258-1297 | The walk computes the pick `PickReceived` |
| EnvCache.ReceivedPicked | daemon/main.cpp:1258-1297 | A missing environment is picked if there is one, and otherwise the least recently used of the idle and unused ones; none only if none may go |
| EnvCache.OldestNative | daemon/main.cpp:1298-1327 | The walk computes the pick `PickNative` |
| EnvCache.NativePicked | daemon/main.cpp:1298-1327 | A missing one is picked if there is one, and otherwise the least recently used of the idle ones that are older than the bound; none only if there is none |
| EnvCache.StoreFacts | daemon/main.cpp:1233-1240 | Storing under a key replaces its size in the sum and keeps the order of keys |
| EnvCache.RemoveFacts | daemon/main.cpp:1340-1366 | Removing a key takes its size from the sum and nothing else from the map |
| Md5.State.Append | client/md5.c:343-386 | For every cutting of the message into pieces below 2^28 bytes, registers, buffer and counter stand for the whole blocks, the rest and the bit length modulo 2^64 of all that was appended |
| Md5.State.Finish | client/md5.c:389-413 | The digest of RFC 1321, sections 3.1 to 3.5, of all that was appended; `Md5Example.DigestOfAbc` shows that it is the standard's |
| Md5.State.Process | client/md5.c:173-330 | The four unrolled rounds are the compression of section 3.4 |
| Md5.Round1 | client/md5.c:219-243 | The 16 unrolled steps are the first 16 indexed operations |
| Md5.Round2 | client/md5.c:245-269 | The 16 unrolled steps are the next 16 indexed operations |
| Md5.Round3 | client/md5.c:271-295 | The 16 unrolled steps are the next 16 indexed operations |
| Md5.Round4 | client/md5.c:297-321 | The 16 unrolled steps are the last 16 indexed operations |
| Md5.State.Count | client/md5.c:348-360 | The two-word counter adds the bits with carry, modulo 2^64 |
| Md5.State.SaveLength | client/md5.c:400-403 | The 8 bytes of the counter, low-order first |
| Md5Spec.BlocksSplit | client/md5.c:362-386 | Blocks are the same whatever the pieces in which the message comes |
| Md5Spec.PaddedWhole | client/md5.c:405-408 | The padded message consists of whole blocks |
| Md5Spec.PaddingIs | client/md5.c:405-406 | The number of bytes taken from the pad array gives the padding |
| Md5Example.DigestOfAbc | client/md5.c:45-330 | The digest of "abc" is the one section A.5 of RFC 1321 lists: all 64 constants and shifts, the mixers, start values and byte orders enter into it |
| Md5Example.LengthOrder | client/md5.c:400-403 | The length in bits comes low-order byte first |
| Argv.BuildUndoesPrint | client/argv.c:170-278 | Splitting undoes the printer with backslashes and quotes for every non-empty list of arguments |
| ArgvForms.BuildUndoesForms | client/argv.c:170-278 | For every list of arguments, each written as any sequence of bare, single-quoted and double-quoted parts with a backslash wherever one is needed and anywhere else, and any of the six white-space characters in front, between and behind: the text is split into the arguments meant |
| Argv.BuildArgv | client/argv.c:170-278 | The vector, its doubling and its terminating null hold exactly the split arguments (`ArgvForms.BuildUndoesForms` tells which); all writes stay inside both buffers |
| Argv.ScanArg | client/argv.c:218-268 | The loop with its quote flags is the quoting state machine |
| Argv.OnlyWhitespace | client/argv.c:121-128 | True exactly for texts of spaces |
| Argv.CommandLine.ExpandArgv | client/argv.c:303-417 | Terminates on every file system, files that name themselves included, and leaves argument 0 followed by the recursive left-to-right expansion of the others, or exits exactly when that fails |
| Argv.CommandLine.Visit | client/argv.c:325-415 | An argument stays, is replaced by the arguments of its file, which are scanned again, or ends the program |
| Argv.CommandLine.Splice | client/argv.c:392-405 | The in-place move and copy replace one argument by the new ones, count and null correct, empty files included |
| Argv.Rescan | client/argv.c:407-412 | Rescanning the spliced arguments is the recursive expansion |
| Argv.ExpandConcat | client/argv.c:303-417 | The expansion of a list is that of its parts, the remaining limit passed on |
| ArgvForms.ExpandsUpTo | client/argv.c:303-417 | A command line that names files without further names is expanded to their contents if and only if it names at most 1999 |
| ArgvForms.SelfNamed | client/argv.c:303-417 | A file whose first argument names itself ends the program, whatever the limit |
| Paths.GetAbsFilename | client/remote.cpp:247-289 | The three rewriting loops terminate and compute a stack of components, then drop inner "." and empty ones; `PathForms.RelativeName` tells where the current directory enters |
| Paths.AbsNameForm | client/remote.cpp:247-289 | The result for a non-empty name is absolute, holds none of "/../", "/./", "//", and is its own absolute name |
| PathForms.AbsIsCanonical | client/remote.cpp:247-289 | On absolute paths without "." or empty components the absolute name is the canonical path if and only if the path does not end in ".." |
| PathForms.RelativeName | client/remote.cpp:247-259 | The absolute name of a relative name is that of the current directory, a slash and the name; of an absolute one it does not depend on the directory |
| PathForms.RelativeIsCanonical | client/remote.cpp:247-289 | In any canonical directory, the root included, the absolute name of a relative name without "." and empty components is the canonical path of directory, slash and name if and only if the name does not end in ".." |
| PathForms.InDirectory | client/remote.cpp:247-289 | "b" in "/a" is "/a/b" |
| PathForms.FormsAgree | client/remote.cpp:247-289 | The absolute name of an absolute path is its canonical path if and only if no name is spared in the end and the last component is neither "." nor "..", nor empty unless the canonical path is the root |
| PathForms.RunBalanced | client/remote.cpp:262-273 | Running both stacks side by side, the one never holds fewer names than the other, and if it holds no more, the same |
| PathForms.SkippedComponentDiffers | client/remote.cpp:260-272 | "/a//../b" and "/a/./../b" become "/a/b", where the canonical path is "/b" |
| PathForms.LastUpDiffers | client/remote.cpp:260-272 | "/a/.." stays, where the canonical path is "/" |
| Paths.GoUp | client/remote.cpp:262-273 | Replacing the leftmost "/../" with the component before it is the stack |
| Paths.TakeOut | client/remote.cpp:275-287 | Replacing a pattern by a slash takes the component out |
| Paths.FindJoin | client/remote.cpp:262-287 | Searching the text finds the first inner component of that name |
| Paths.Split | daemon/file_util.cpp:21-31 | The non-empty pieces between slashes |
| Paths.GetCanonicalizedPath | daemon/file_util.cpp:78-116 | ".." pops, "." does nothing, the rest is joined |
| Paths.CanonicalForm | daemon/file_util.cpp:78-116 | The canonical path is absolute, has no empty, "." or ".." component and is its own canonical path |
| Paths.GetRelativePath | daemon/file_util.cpp:37-66 | Up for what is not shared, then down |
| Paths.RelativeLeadsTo | daemon/file_util.cpp:37-116 | From a canonical path, the relative path to another one leads there |
| Paths.RelativeShortest | daemon/file_util.cpp:37-66 | Of all paths that lead from the one canonical path to the other, none has fewer components than the relative path |
| Election.ChooseScheduler | services/comm.cpp:1740-1793 | From any list of answers in any order: a suitable one of the largest version, of the smallest start time of that version, and the first of those; and whether several were suitable |
| Election.SuitableMeans | services/comm.cpp:1762-1768 | Net names agree up to the case of the 26 letters, versions are 1 to 127 |
| Election.GivesWayMeans | scheduler/scheduler.cpp:1979-1997 | A scheduler gives way exactly to one of its net, version 36 or later, that is newer, or as new and started earlier |
| Election.StrictOrder | scheduler/scheduler.cpp:1979-1997 | Giving way is a strict order, so two schedulers never both give way to each other |
| Election.ChoiceStands | scheduler/scheduler.cpp:1979-1997 | The answer of the largest version and then the smallest start time gives way to no other answering one of its net, and those that differ in version or start time give way to it |
| Election.AnnouncementRoundTrip | services/comm.cpp:1392-1436 | Version and start time survive the announcement, the net name as far as it fits |
| Election.ReplyRoundTrip | services/comm.cpp:1671-1734 | They survive the answer to a daemon of version 38 or later |
| Election.AnnouncementBytes | services/comm.cpp:1392-1406 | A packet has 268 bytes; the first of an announcement, its start time most significant byte first |
| Election.ReplyBytes | services/comm.cpp:1677-1693 | The same of the answer to a daemon |

## Left out

- SchedulerInv.JobDoneKeeps: assumes that a daemon names a job only after it was told its id, and a client id only for its own failed request; `SchedulerInv.DoneNeedsTold` shows exactly what is needed
- SchedulerInv.SubmitKeeps: requests for more than one node at a time (count above 1) and `masterJobFor` are not modelled
- Scheduler.Scheduler.PickServer: the random and the fastest algorithm are any choice from the pool, because the speed estimate is a floating-point heuristic
- SchedulingAlgo.PickServerLeastBusy: loads are exact reals
- Scheduler.Scheduler.HandleCsRequest: job ids are unbounded, so their wrap-around at 2^32 is not modelled
- Scheduler.Scheduler.EmptyQueue: the contents of the answer, the matched job id and job statistics are not modelled
- Channel.MsgChannel.ReadText: a string without a NUL inside its announced length ends there, where the program would read on
- Channel.MsgChannel.SendMsg: text channels, the size warning and compressed file chunks are not modelled
- Channel.MsgChannel.GetMsg: the last status that is fetched from a failing channel is not modelled; an error is final
- Channel.MsgChannel.UpdateState: the branches for a channel whose first version could not be sent are not modelled, because such a channel has failed
- Wire.PutList: lists, strings and numbers are those that fit their 32-bit length fields
- Messages.MsgRoundTrip: the six bodies with the most version-dependent fields, ping and end are modelled; the other message bodies would add easy members
- Daemon.Daemon.UsedEnvs: an environment transfer client without a job does not count as using an environment, where the program asserts that there is a job
- Daemon.Daemon.HandleEnd: a compile job is taken to bear an id above 0, as scheduler and daemon give them; the program tells nobody of one without
- Daemon.Daemon.SchedulerUseCs: covers the no-node answer too, which is the case of this node
- DaemonSpec.StepKeeps: clients send what the client program sends in each status, and a niceness of at most 20; the daemon itself does not check either
- Daemon.Daemon.TellPending: the walk goes on behind a client that it ended, where the program's iterator is no longer valid
- Md5.State.Append: pieces are below 2^28 bytes, because the program computes the bits of a piece in a signed 32-bit number
- Election.ReplyRoundTrip: answers to daemons older than version 38 depend on the byte order of the machines and are not modelled
- Argv.CommandLine.ExpandArgv: memory failure and freeing are not modelled; a file is its text up to the first NUL
- Paths.GetAbsFilename: the current directory is an argument
- Monitors, telnet commands, connection tests, compression, unpacking, fork and exec, signals and command-line parsing are not modelled
