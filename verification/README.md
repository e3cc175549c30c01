# ctforge, modelled and proved in Dafny

ctforge is a fleet-management system: a Go server, a C agent on every host, and a C daemon
(`ctforged`) that loads signed modules. This project models the parts of it whose correctness is
not visible from any single function, and proves what they promise for every input, every
schedule or every run. Nothing here executes the original programs.

`dafny verify dfyconfig.toml` checks the whole project.

## Layout

| file | models |
|---|---|
| Pool.dfy | the daemon's worker pool: ring buffer, condition variable, shutdown |
| Json.dfy, KeySearch.dfy | JSON values and their compact text; bracket counting; substring search as an automaton |
| Resmsg.dfy | cutting the `resmsg` value out of a daemon response without parsing it |
| Payload.dfy, Frames.dfy | the agent's payload cutter; length-prefixed frames over fragmented reads and writes |
| FlatJson.dfy | the agent's key lookup and unescaper against its own escaper |
| Cron.dfy, CronText.dfy | cron fields and the next matching minute; the notation given independently of the parser |
| Tasks.dfy, LeapDay.dfy | exactly-once scheduling; a schedule for 29 February |
| Modules.dfy | the daemon's intrusive module list on the heap, loading and unloading |
| Base64.dfy, Download.dfy | both encoders, the decoder, and chunked downloads built on them |
| Lines.dfy | the daemon's line assembly |
| Perms.dfy | access grants, visible hosts, deleting a group |
| Sessions.dfy | the session table; matching replies to waiting requests |
| Numbers.dfy | decimal numbers |
| ConfigFile.dfy, ConfigRoundTrip.dfy | the agent's configuration file as text, and what its two readers make of it |
| Agent.dfy | the agent's scan, binding, failures, settings and restarts |
| Store.dfy, Server.dfy | the agent store as an object; the server process, one locked section per step |
| Approval.dfy | the whole approval protocol: many servers, many agents, lost messages, crashes |
| Removal.dfy | exactly when removing an agent is permanent |

## Where the code and its promises part

Each of these is modelled as the code is, with a proved condition that is both necessary and
sufficient, and an example.

- `ctforge_extract_resmsg` returns the value that was sent, for every value, if and only if no
  object key inside the echoed `type` and `taskid` is `resmsg` or ends in an escaped quote
  followed by `resmsg` (`Resmsg.ExtractExact`, `Resmsg.EchoedKeyHidesAnswer`).
- `dup_payload_raw` returns an object or array payload if and only if no string field printed
  before it spells `payload` in that sense (`Payload.PayloadExact`,
  `Payload.SpelledTokenHidesPayload`).
- A task that was armed for its next match is started exactly once in every matching minute and
  in no other if and only if every tick that begins a matching minute and is followed by another
  tick has a further matching minute within 366 days (`Tasks.ExactlyOnce`;
  `LeapDay.StartedTwice` for 29 February). A task created with no match in the next 366 days
  keeps the due time of the request; `Tasks.ExactlyOnceFromCreate` has the exact condition for
  it too. Without a due time it is never started (`LeapDay.NeverStarted`); with one and a
  schedule that never matches it is started at every tick (`LeapDay.StartedAtEveryTick`).
- A saved configuration reads back with the held server id if and only if the id is one line and
  the last id line of the file is that id (`ConfigFile.KeepsIdExactly`). An address with a line
  break in it can add such a line (`ConfigFile.AddressReplacesId`, `Agent.ReboundToX`). An agent
  keeps its binding over a run, and is bound only to a server that approved it, exactly under
  that kind of condition at its restarts (`Agent.BindingIsWriteOnce`, `Approval.BoundForGood`,
  `Approval.ProvenanceExactly`); with ids and addresses of one line it always does
  (`Agent.TidyIsWriteOnce`, `Approval.ApprovalProvenance`).
- A module whose load went through can be unloaded by its name if and only if the name fits its
  buffer (`Modules.UnloadUndoesLoad`, `Modules.LongNameStays`). A name that does not fit must
  contain a `/`, because a single path component of that length does not exist.
- An agent's stored state is approved when an approving answer goes out to it if and only if the
  last step that turned the state since the handler read it is not a demotion
  (`Server.AnswerExactly`, `Approval.AcksAreEarned`, `Server.RejectedMeanwhile`).
- An administrator's approval stays in force under the same condition; a handshake that read the
  state earlier can put it back to pending (`Server.ApprovalSurvivesExactly`,
  `Server.ApprovalOverwritten`).
- A removed agent stays away if and only if no handler has already passed the blacklist check for
  it and no older copy of the blacklist is about to be written (`Removal.PermanentExactly`,
  `Removal.RemovalPermanent`, `Removal.RemovedAndBack`). Calls that do not overlap always remove
  it for good (`Store.RemovedForGood`).

## Model

| member | source | states |
|---|---|---|
| `Pool.NoLostWakeup` | src/ctforged/pool.c:48-121 | in every state any schedule reaches before shutdown, with any number of workers and spurious wakeups, a worker is blocked only while at least as many awake workers head for the queue as there are queued tasks |
| `Pool.FifoRefinement` | src/ctforged/pool.c:59-121 | accepted tasks are always the taken ones followed by the queued ones, in order, and the queue never exceeds its size |
| `Pool.OfferedExactly` | src/ctforged/pool.c:59-115 | over every run the accepted tasks are exactly, function and argument, those of the add events that name a function, find room and precede any destroy; the taken ones are the first of them and the queue is the rest |
| `Pool.RunsNextOffered` | src/ctforged/pool.c:98-113 | a worker that finds tasks waiting runs the next offered one, and no other worker changes |
| `Pool.HistoryGrows` | src/ctforged/pool.c:106-114 | a task once taken stays taken at its place in the history, so none is taken twice |
| `Pool.ShutdownIsFinal` | src/ctforged/pool.c:98-151 | after destroy, no run adds or takes a task and no worker blocks again |
| `Pool.WorkersDrainQueue` | src/ctforged/pool.c:89-121 | worker steps alone are bounded, and workers come to rest only when every accepted task was taken |
| `Pool.ShutdownCompletes` | src/ctforged/pool.c:123-174 | after destroy any worker schedule is finite and rests exactly when no thread is left, which is when the pool may be freed |
| `Pool.StepKeepsInv` | src/ctforged/pool.c:48-157 | every critical section keeps the pool's invariant |
| `Pool.ThreadPool.Create` | src/ctforged/pool.c:5-46 | null exactly for refused sizes, otherwise the initial pool |
| `Pool.ThreadPool.Enqueue` | src/ctforged/pool.c:48-87 | on the array with wrapping indices: 0 exactly for a function, room and no shutdown, and then the queue ends with this function and argument; otherwise nothing changes |
| `Pool.ThreadPool.CheckQueue` | src/ctforged/pool.c:98-118 | one pass under the mutex: the worker runs the oldest queued task, which leaves the queue, or blocks on an empty queue, or exits after shutdown; tail stays (head + count) mod size |
| `Pool.ThreadPool.TakeTask` | src/ctforged/pool.c:106-109 | the ring loses exactly its oldest task |
| `Pool.ThreadPool.FinishTask` | src/ctforged/pool.c:111-114 | a finished worker heads for the queue again |
| `Pool.ThreadPool.WakeSpuriously` | src/ctforged/pool.c:98-99 | a worker whose wait ends without a signal heads for the queue |
| `Pool.ThreadPool.Shutdown` | src/ctforged/pool.c:123-151 | sets the flag and wakes every blocked worker |
| `Pool.ThreadPool.Free` | src/ctforged/pool.c:159-174 | refuses while threads are left |
| `Json.PassValue` | src/ctforged/server.c:340-392 | a bracket counter that is at rest before a value is at rest after its text, whichever bracket kinds it counts |
| `Json.ClosesAtEnd` | src/clients/src/ctforge.c:281-307 | counting one bracket kind or both, an object's or array's text closes at its last character and not before |
| `KeySearch.StrstrByHit` | src/clients/src/ctforge.c:265-269 | the substring search finds exactly where the pattern automaton first completes |
| `KeySearch.RunQuoted` | src/clients/src/ctforge.c:265-269 | the text of a string completes a quoted word exactly if it is the word or ends in an escaped quote and the word |
| `KeySearch.RunValue` | src/ctforged/server.c:340-392 | the text of a value without such strings never completes the search |
| `KeySearch.FirstMention` | src/ctforged/server.c:340-392 | in a value with such a key the search first stops right before the text of some value inside it |
| `Resmsg.ExtractResmsg` | src/clients/src/ctforge.c:260-341 | the scanner computes `Extract` for every text and passes null through |
| `Resmsg.BracketEnd` | src/clients/src/ctforge.c:281-307 | the depth loop stops where one-kind bracket counting closes, or at the end |
| `Resmsg.StringEnd` | src/clients/src/ctforge.c:308-323 | the string loop stops after the first unescaped quote |
| `Resmsg.ScalarEnd` | src/clients/src/ctforge.c:324-329 | the scalar loop stops at the first delimiter |
| `Resmsg.ValueLengthText` | src/clients/src/ctforge.c:278-329 | followed by a comma or brace, every JSON value is cut out whole |
| `Resmsg.ExtractUnmentioned` | src/clients/src/ctforge.c:260-341 | if no earlier key is in the way, the response gives up exactly the value sent |
| `Resmsg.ExtractMentioned` | src/clients/src/ctforge.c:260-341 | an earlier key in the way makes the result the same text whatever was sent |
| `Resmsg.NoKeyUnchanged` | src/clients/src/ctforge.c:265-268 | a response without the key is returned as it is |
| `Resmsg.BlanksSkipped` | src/clients/src/ctforge.c:271-273 | blanks after the key do not matter |
| `Resmsg.ExtractExact` | src/ctforged/server.c:340-392 | for the daemon's responses: the value comes out for every value if and only if neither echoed field holds such a key |
| `Resmsg.EchoedKeyHidesAnswer` | src/ctforged/server.c:340-392 | a concrete echoed field for which some answer is not returned |
| `Payload.DupPayloadRaw` | src/clients/src/net.c:120-140 | the cutter computes `CutPayload` for every text |
| `Payload.BothEnd` | src/clients/src/net.c:126-139 | the loop stops where counting both bracket kinds closes, or reports failure |
| `Payload.ColonsSkipped` | src/clients/src/net.c:124-124 | blanks and colons after the key do not matter |
| `Payload.PayloadExact` | src/server/internal/proto/protocol.go:96-104 | for every message: the payload comes out as its exact text if it is an object or array and no earlier string field spells the word, and nothing comes out otherwise |
| `Payload.SpelledTokenHidesPayload` | src/clients/src/net.c:120-140 | a concrete message whose object payload does not come out |
| `Frames.BigEndianRoundTrip` | src/server/internal/proto/protocol.go:256-272 | the length header reads back |
| `Frames.HeaderBytes` | src/server/internal/proto/protocol.go:256-257 | the most significant byte comes first |
| `Frames.RefusedLengths` | src/clients/src/net.c:146-146 | a frame of no length or of more than 32 MiB is refused |
| `Frames.Socket.ReadAll` | src/clients/src/net.c:28-39 | exactly n bytes for every fragmentation with interruptions, and success whenever enough deliveries remain; it hangs exactly on the schedules of `Spins` |
| `Frames.SpinsAtEnd` | src/clients/src/net.c:28-39 | at the end of the stream the loop hangs exactly if no other error follows and an interruption comes first or EINTR is left over |
| `Frames.SpinsOnlyIf` | src/clients/src/net.c:28-39 | it hangs only after an interruption or a left-over EINTR, with no other error, and with bytes or deliveries missing |
| `Frames.InterruptedThenClosed` | src/clients/src/net.c:28-39 | a concrete schedule on which it hangs |
| `Frames.Socket.Receive` | src/clients/src/net.c:142-150 | the first frame of the stream or nothing; refused lengths are refused |
| `Frames.ReceiveAll` | src/server/internal/proto/protocol.go:265-286 | whatever the delivery schedule, the bodies received are a prefix of those sent, and all of them if the connection holds |
| `Frames.Wire.WriteAll` | src/clients/src/net.c:15-26 | partial writes add up to exactly the buffer, or a prefix on failure; it succeeds whenever enough writes get through |
| `Frames.Wire.SendFrame` | src/clients/src/net.c:72-78 | a sendable body becomes exactly its frame, or a first part of it on failure; any other is not sent at all |
| `Frames.ReceivePayloads` | src/clients/src/net.c:142-159 | end to end: the i-th payload text is exactly what the i-th message carried, under the condition of `PayloadExact` |
| `FlatJson.JsonEscape` | src/clients/src/net.c:42-70 | the escaper writes the units of the string's escaped body |
| `FlatJson.FindKeyIndex` | src/clients/src/util.c:69-88 | the scan finds what follows the first string that is the key and has a colon after it |
| `FlatJson.JsonGetString` | src/clients/src/util.c:90-124 | computes `GetString` for every text and never fills the buffer past its length |
| `FlatJson.DecodeEscape` | src/clients/src/util.c:90-124 | unescaping undoes `json_escape`, as far as the buffer goes |
| `FlatJson.EscapeExamples` | src/clients/src/net.c:42-70 | the escapes of section 7 of RFC 8259, by example |
| `FlatJson.DecodeCode` | src/clients/src/util.c:108-114 | a code of four hexadecimal digits gives its low byte |
| `FlatJson.DecodeNoCode` | src/clients/src/util.c:108-114 | a code without digits gives a question mark and its text is read on |
| `FlatJson.DecodeOther` | src/clients/src/util.c:115-115 | any other escape gives the character itself |
| `FlatJson.BlanksBeforeColon` | src/clients/src/util.c:75-79 | blanks may stand between a key and its colon |
| `FlatJson.FindKeyValue` | src/clients/src/util.c:69-88 | a value is never taken for a key, even if it spells one |
| `FlatJson.GetStringExact` | src/clients/src/util.c:69-124 | for every flat object: a present key gives its value cut to the buffer, an absent or non-string one gives nothing |
| `Cron.ParseField` | src/server/internal/tasks/tasks.go:343-381 | accepts exactly well-formed fields and lists exactly the union of what the parts denote, within the range |
| `Cron.AppendRange` | src/server/internal/tasks/tasks.go:376-378 | appends exactly every step-th value from low to high |
| `CronText.ParsePartText` | src/server/internal/tasks/tasks.go:346-378 | every part (star, empty, number or range, with or without a step) is read back from its text: refused if out of range or with a bad step, else exactly its range |
| `CronText.AtoiSigned` | src/server/internal/tasks/tasks.go:346-372 | a sign may stand before a number |
| `CronText.WordThen` | src/server/internal/tasks/tasks.go:324-324 | any blank ends a field |
| `CronText.BlankFirst` | src/server/internal/tasks/tasks.go:324-324 | blanks before a field do not matter |
| `CronText.FieldValid` | src/server/internal/tasks/tasks.go:343-381 | a written comma list is accepted exactly if all its parts are proper |
| `CronText.FieldExact` | src/server/internal/tasks/tasks.go:343-381 | it has exactly the values its parts denote, by low end, high end and remainder |
| `CronText.ParseFieldText` | src/server/internal/tasks/tasks.go:343-381 | `parseField` on a written field returns exactly those values |
| `CronText.ExprValid` | src/server/internal/tasks/tasks.go:323-341 | a written expression is accepted exactly if its five fields are proper |
| `CronText.ExprExact` | src/server/internal/tasks/tasks.go:323-341 | it matches exactly the moments its fields denote |
| `Cron.ParseCron` | src/server/internal/tasks/tasks.go:323-341 | accepts exactly five well-formed fields, and lists a moment exactly if the expression denotes it |
| `Cron.NextRun` | src/server/internal/tasks/tasks.go:393-410 | the first matching minute of the 366-day window, for any calendar |
| `Cron.FirstHitIsEarliest` | src/server/internal/tasks/tasks.go:399-409 | that minute matches, no earlier one does, and failure means none does |
| `Tasks.Manager.Create` | src/server/internal/tasks/tasks.go:137-158 | refuses bad requests without change; otherwise stores it armed for its next minute, with the request's own flag, schedule and command, and 60 s where no time limit is given |
| `Tasks.Manager.Tick` | src/server/internal/tasks/tasks.go:233-255 | starts exactly the enabled tasks with a due time that has come; of those only the due time changes, and no other task changes |
| `Tasks.DisabledNeverStarts` | src/server/internal/tasks/tasks.go:237-237 | a disabled task is never started or changed, whatever its due time |
| `Tasks.DisabledFromCreate` | src/server/internal/tasks/tasks.go:137-158 | the same from the moment of creation |
| `Tasks.ArmedTick` | src/server/internal/tasks/tasks.go:233-255 | a tick within a minute starts an armed task exactly if a new, matching minute has begun |
| `Tasks.ExactlyOnce` | src/server/internal/tasks/tasks.go:233-255 | over any run of ticks at most 60 s apart, the started minutes are exactly the matching minutes, in order, once each, if and only if every tick but the last that begins a matching minute has another one within 366 days |
| `Tasks.ExactlyOnceFromCreate` | src/server/internal/tasks/tasks.go:137-158 | the same from the moment of creation, also for a task with no match in the next 366 days and whatever due time the request carried: the exact condition in each case |
| `Tasks.UnarmedExactly` | src/server/internal/tasks/tasks.go:233-255 | the exact condition for a task whose due time has nothing to do with its schedule |
| `Tasks.StaysDue` | src/server/internal/tasks/tasks.go:244-252 | with no match ahead a start leaves the due time as it was, and every later tick starts it again |
| `LeapDay.StartedTwice` | src/server/internal/tasks/tasks.go:233-255 | on every 29 February a task for its midnight is started twice by two ticks of that minute |
| `LeapDay.DenotedMinutes` | src/server/internal/tasks/tasks.go:393-410 | in the calendar from 2024 on that schedule denotes exactly the midnights of 29 February |
| `LeapDay.NeverStarted` | src/server/internal/tasks/tasks.go:137-158 | created a day after a 29 February it is never started, although the next one matches |
| `LeapDay.StartedAtEveryTick` | src/server/internal/tasks/tasks.go:137-158 | a request for 30 February with a due time is started at every tick from then on |
| `Modules.ModuleList.ListAdd` | src/ctforged/payload.c:12-24 | on the heap: the node is first, links in both directions stay consistent |
| `Modules.ModuleList.Unlink` | src/ctforged/payload.c:26-30 | the neighbours are linked to each other, in both directions |
| `Modules.ModuleList.ListDel` | src/ctforged/payload.c:32-37 | exactly the k-th node leaves and its links are cleared |
| `Modules.ModuleList.Find` | src/ctforged/payload.c:39-82 | agrees with lookup in the sequence of entries |
| `Modules.ModuleList.AddModule` | src/ctforged/payload.c:50-60 | refuses a listed name, otherwise puts the module first |
| `Modules.ModuleList.DeleteModule` | src/ctforged/payload.c:62-67 | exactly that entry leaves |
| `Modules.Loader.Load` | src/ctforged/payload.c:255-392 | lists the module exactly if every check passes; on any failure, after `dlopen` and `dlclose`, list and library references are as before |
| `Modules.Loader.Start` | src/ctforged/payload.c:295-391 | once the library is open: the module is listed, or exactly that reference is given back |
| `Modules.Loader.Unload` | src/ctforged/payload.c:394-435 | removes exactly the named module and gives back one reference to its library, or reports that there is none |
| `Modules.RunsAreSound` | src/ctforged/payload.c:255-435 | after any run of loads and unloads, whatever handles `dlopen` returned, names are distinct and the library references held are exactly one for each listed module |
| `Modules.ListedWereInitialised` | src/ctforged/payload.c:301-374 | after any run every listed module was there before or came from a file that was opened, has both symbols and whose `init` returned an object with no code or code 0 |
| `Modules.LoadsExactly` | src/ctforged/payload.c:255-392 | a module loads exactly if neither its name nor its stored form is listed and its file passes every check |
| `Modules.UnloadExactly` | src/ctforged/payload.c:394-435 | after unloading no module of that name is listed and every other one still is |
| `Modules.UnloadUndoesLoad` | src/ctforged/payload.c:394-435 | unloading undoes a load that went through if and only if the name fits its buffer |
| `Modules.LongNameStays` | src/ctforged/payload.c:39-48 | a concrete name under which a loaded module is not found again |
| `Base64.TableEntry` | src/clients/src/util.c:8-8 | the table holds the 64 digits in order |
| `Base64.PatchedFilled` | src/clients/src/util.c:10-31 | patching the padding after the loop gives the text of section 4 of RFC 4648 |
| `Base64.EncodeC` | src/clients/src/util.c:10-31 | the agent's encoder writes that text for every byte string |
| `Base64.EncodeGo` | src/server/internal/portfwd/portfwd.go:249-275 | the server's encoder writes the same text |
| `Base64.DecodeC` | src/clients/src/util.c:42-65 | decodes or refuses, and an accepted text fills exactly the length computed up front |
| `Base64.RoundTrip` | src/clients/src/util.c:10-65 | decoding undoes encoding for every byte string |
| `Base64.AcceptsExactly` | src/clients/src/util.c:42-65 | a text is accepted exactly if it is whole groups of the alphabet with padding only in the third and fourth place of a group |
| `Base64.StandardExamples` | src/clients/src/util.c:10-31 | examples of section 10 of RFC 4648 |
| `Download.ReadRange` | src/clients/src/files.c:125-165 | a range read returns the clamped range as far as it was read, with the right offsets and end mark |
| `Download.Stream` | src/server/internal/httpapi/httpapi.go:1140-1245 | for any answers the loop ends by itself within one request per byte and one more; what is written is always a prefix of the file, and the whole file if every request made read something |
| `Lines.Connection.OnRead` | src/ctforged/server.c:478-514 | one read hands on exactly the lines it completes and keeps the rest |
| `Lines.TakeLines` | src/ctforged/server.c:492-502 | the loop splits the buffer into its lines and its unfinished tail |
| `Lines.SplitJoined` | src/ctforged/server.c:492-502 | lines and tail determine the stream and are determined by it |
| `Lines.AnyFragmentation` | src/ctforged/server.c:478-514 | however a stream is cut into reads, the same lines are handled and the same tail is kept |
| `Perms.GroupsOfAgent` | src/server/internal/perms/perms.go:303-316 | exactly the groups a host is in, once each |
| `Perms.AllowedAgents` | src/server/internal/perms/perms.go:389-420 | exactly the hosts in scope, nobody for a missing or expired grant, everybody for an unlimited one |
| `Perms.VisibleAgrees` | src/server/internal/perms/perms.go:364-420 | the precomputed set agrees with the direct check on every listed host |
| `Perms.CheckExact` | src/server/internal/perms/perms.go:139-183 | the direct check by what is stored: no expired grant passes, `system.all` covers every permission, and a host is in scope by name, by an existing group that has it, or by an unlimited scope |
| `Perms.Compact` | src/server/internal/perms/perms.go:291-297 | the in-place compaction leaves exactly the other groups, in order |
| `Perms.StoredGrant.RemoveGroup` | src/server/internal/perms/perms.go:291-297 | on one stored grant the compaction removes exactly the references to the group |
| `Perms.Manager.UpsertGrant` | src/server/internal/perms/perms.go:341-354 | the user's grant is the given one, in an array of its own; no other grant changes |
| `Perms.Manager.DeleteGroup` | src/server/internal/perms/perms.go:285-300 | on all stored grants, in place, it is `AfterDelete` |
| `Perms.DeleteGroupExact` | src/server/internal/perms/perms.go:285-300 | after `AfterDelete` no reference is left, and a check passes exactly if it passed before and the group was not its only source |
| `Sessions.Table.Register` | src/server/internal/agentconn/agentconn.go:128-135 | the new connection takes over and the replaced one is handed back to be closed |
| `Sessions.Table.Cleanup` | src/server/internal/agentconn/agentconn.go:136-142 | only the connection still listed takes the entry away |
| `Sessions.TableIsLatest` | src/server/internal/agentconn/agentconn.go:128-148 | over all interleavings the table maps an id to its last registered connection exactly while that one is not cleaned up |
| `Sessions.RunKeepsToken` | src/server/internal/agentconn/agentconn.go:369-445 | at most one of table entry, reply in hand, reply in its slot, or received answer exists per request |
| `Sessions.ReaderNeverBlocks` | src/server/internal/agentconn/agentconn.go:369-391 | the reader can always put a reply in hand into its channel, even racing a timeout, and otherwise take in the next one |
| `Sessions.OwnReplyOnly` | src/server/internal/agentconn/agentconn.go:421-445 | whoever got an answer got one to its own request |
| `Sessions.OutcomeIsFinal` | src/server/internal/agentconn/agentconn.go:421-445 | a request is answered or fails at most once |
| `Sessions.ConversationExactly` | src/server/internal/agentconn/agentconn.go:369-445 | over all interleavings a request is known, pending, answered or timed out exactly as its own events say; its answer is the first reply that names it after it was started, and while it waits that reply is in the reader's hand or in its channel |
| `Sessions.FirstReplyFound` | src/server/internal/agentconn/agentconn.go:369-391 | that first reply by its place in the run |
| `Sessions.ReplyIsDelivered` | src/server/internal/agentconn/agentconn.go:369-445 | in every reachable state a reply that comes while its request waits is what the request returns |
| `Agent.Handshake` | src/clients/src/binding.c:126-193 | an approval counts only together with a server id |
| `Agent.ScanServer` | src/clients/src/binding.c:329-421 | the scanning loops return, for all answers, what `Decided` says by index: the bound server's answer is final, then the first welcome host that answered the broadcast, then the first configured host that is welcome or refuses |
| `Agent.ScanExact` | src/clients/src/binding.c:329-421 | the same of the specification function |
| `Agent.DecidedOnce` | src/clients/src/binding.c:329-421 | that description leaves no choice |
| `Agent.ScanCodes` | src/clients/src/binding.c:329-421 | exactly when a scan reports success, pending or nothing found |
| `Agent.ScanSound` | src/clients/src/binding.c:329-421 | a scan succeeds only with an id that some asked host approved with, and with no other than the bound one |
| `Agent.AgentProcess.ScanOnce` | src/clients/src/agent.c:569-594 | on success the agent is approved, bound to who answered, saved, and turned to its address; otherwise nothing changes |
| `Agent.WelcomeBinds` | src/clients/src/agent.c:569-586 | a welcome answer to the broadcast leaves the agent approved and bound to who gave it |
| `Agent.BoundServerBinds` | src/clients/src/binding.c:333-345 | the bound server's own approval is enough |
| `Agent.AgentProcess.OnConnectFailed` | src/clients/src/agent.c:598-610 | asks for a new scan and keeps the id |
| `Agent.AgentProcess.OnRegisterFailed` | src/clients/src/agent.c:612-621 | the same, saved |
| `Agent.AgentProcess.OnConfigSet` | src/clients/src/agent.c:243-257 | only listed keys are set and saved; a value in bounds does what a line of the file with it does |
| `Agent.RemoteAsLine` | src/clients/src/config.c:180-192 | a remote setting within its bounds equals reading that key and value from the file |
| `Agent.RemoteOutOfBounds` | src/clients/src/config.c:180-192 | a number out of bounds changes nothing; `discover_enable` is a flag |
| `ConfigFile.SavedLines` | src/clients/src/config.c:123-154 | the lines of a saved file: the comment, what the settings print, then what the binding prints, line breaks in the values included |
| `ConfigFile.SavedBinding` | src/clients/src/config.c:123-154 | for every configuration: the id and the flag that either reader finds in its saved file |
| `ConfigFile.ConfigLoad` | src/clients/src/config.c:75-121 | the reading loop sets the trimmed value of every known key, the last line winning |
| `ConfigFile.BindingLoad` | src/clients/src/binding.c:62-81 | the second reading loop, which does not trim |
| `ConfigFile.TrimExact` | src/clients/src/config.c:42-48 | trimming takes off the blanks at both ends and nothing else |
| `ConfigFile.Comments` | src/clients/src/config.c:80-81 | comment lines say nothing |
| `ConfigFile.FirstOfHosts` | src/clients/src/config.c:87-101 | of several addresses the first is the server's |
| `ConfigFile.Reload` | src/clients/src/agent.c:550-562 | the file over the defaults, then the binding if it is approved |
| `ConfigFile.ReloadedBinding` | src/clients/src/agent.c:550-562 | for every configuration: id and flag after saving and starting again |
| `ConfigFile.KeepsIdExactly` | src/clients/src/agent.c:550-562 | the id read back is the held one if and only if that is one line and the last id line of the file |
| `ConfigFile.OneLineAddress` | src/clients/src/config.c:75-121 | with an address of one line: if and only if the id is one line and, unless the agent is approved, has no blanks at its ends |
| `ConfigFile.AddressReplacesId` | src/clients/src/config.c:123-154 | an address whose second line is an id line replaces the id |
| `ConfigRoundTrip.RoundTrip` | src/clients/src/config.c:75-154 | a configuration of clean one-line texts and a single address reads back as it was, every setting included |
| `Agent.AgentProcess.Restart` | src/clients/src/agent.c:732-746 | memory is what is read from the text of the file, except for addresses given on the command line |
| `Agent.BindingIsWriteOnce` | src/clients/src/agent.c:550-621 | over any run of scans, failures, settings and restarts an agent holds the same server id throughout if and only if at each restart the saved file keeps it |
| `Agent.TidyIsWriteOnce` | src/clients/src/agent.c:550-621 | with ids and addresses of one line it does in every run |
| `Agent.ReboundByRestart` | src/clients/src/agent.c:550-586 | an approving answer whose address carries an id line: after a restart the agent is bound to that id |
| `Agent.ReboundToX` | src/clients/src/agent.c:550-586 | one such answer |
| `Store.AgentStore.RegisterAgent` | src/server/internal/store/store.go:166-195 | keeps approval and binding of a known agent; does nothing for a blacklisted one |
| `Store.AgentStore.DiscoverAgent` | src/server/internal/store/store.go:198-251 | never changes a set approval; new agents are pending |
| `Store.AgentStore.PruneDiscovered` | src/server/internal/store/store.go:254-263 | exactly the stale discovered records go |
| `Store.AgentStore.SetApproval` | src/server/internal/store/store.go:511-523 | sets the state of a known agent, and its binding only on approval |
| `Store.AgentStore.SetOnline` | src/server/internal/store/store.go:265-272 | sets the flag and the time of a known agent |
| `Store.DiscoveryKeepsDecisions` | src/server/internal/store/store.go:198-251 | a discovery changes no approval but an unset one, and no binding |
| `Store.RemovedForGood` | src/server/internal/store/store.go:701-712 | whatever is called after `RemoveAgent`, and however old a file a restart loads, the agent is not in the store and its approval reads as unset |
| `Store.AgentStore.LoadApprovals` | src/server/internal/store/persist.go:37-75 | overwrites exactly the saved fields of exactly the saved agents that are not blacklisted |
| `Store.AgentStore.SaveApprovals` | src/server/internal/store/persist.go:78-113 | exactly the records with a state |
| `Store.LoadAfterSave` | src/server/internal/store/persist.go:37-113 | approval and binding survive saving and loading, except for blacklisted agents |
| `Server.StepSound` | src/server/internal/agentconn/agentconn.go:63-262 | every locked section keeps: wherever the server holds an approval (table, handlers, pending saves, file), an administrator gave it |
| `Server.TurnDecides` | src/server/internal/store/store.go:511-523 | which locked sections make an agent's stored state approved, which end that, and that every other one leaves it |
| `Server.ApprovedExactly` | src/server/internal/agentconn/agentconn.go:63-262 | over every run, the stored state is approved exactly if the last such step made it so, or there was none and it was before |
| `Server.ApprovalSurvivesExactly` | src/server/internal/httpapi/admin.go:432-470 | an administrator's approval is in force later exactly if the last such step since did not end it |
| `Server.ApprovalOverwritten` | src/server/internal/agentconn/agentconn.go:211-256 | a concrete run in which a handshake puts a given approval back to pending |
| `Server.AnswerExactly` | src/server/internal/agentconn/agentconn.go:107-262 | an approving answer goes out only from a handler that read the state as approved, and the state is approved then exactly if the last such step since did not end it |
| `Server.RejectedMeanwhile` | src/server/internal/agentconn/agentconn.go:107-126 | a concrete run in which an agent rejected in between is acknowledged |
| `Server.HandshakeExact` | src/server/internal/agentconn/agentconn.go:180-262 | from any state, a handshake that nothing interrupts is answered once, with an approval exactly if the stored state is approved and the stored binding is this server's or none |
| `Server.ApprovedThenGreeted` | src/server/internal/agentconn/agentconn.go:238-244 | right after an administrator's approval a handshake is answered with an approval |
| `Server.GreetedTable` | src/server/internal/agentconn/agentconn.go:222-257 | what such a handshake leaves in the table: decisions stay, anything else becomes pending, no other agent changes |
| `Server.RegisterExact` | src/server/internal/agentconn/agentconn.go:107-126 | a register that nothing interrupts is acknowledged exactly if the stored state is approved, and then stored |
| `Server.DiscoverExact` | src/server/internal/store/store.go:198-251 | a discovery that nothing interrupts is the store's |
| `Server.SavedSurvivesRestart` | src/server/internal/store/persist.go:37-113 | after a save a restart keeps every agent's approval and binding, except of blacklisted ones |
| `Server.StepIsCall` | src/server/internal/httpapi/admin.go:432-470 | approvals, rejections, presence, pruning and restarts are exactly the store's calls |
| `Server.BoundHere` | src/server/internal/agentconn/agentconn.go:207-244 | in every state reached from nothing an approved record is bound to this server and none to another, so a handshake is approved exactly if the stored state is |
| `Approval.StepSound` | src/server/internal/agentconn/agentconn.go:180-262 | every step of every server and agent keeps: wherever a server or a message says approved, an administrator of that server did |
| `Approval.ProvenanceExactly` | src/clients/src/agent.c:550-621 | over all runs, an agent that takes itself to be approved is at every point bound to a server where an administrator approved it earlier, if and only if at each of its restarts the id its saved file reads back to, if the file says approved, is such an id |
| `Approval.ApprovalProvenance` | src/clients/src/agent.c:568-621 | with ids and addresses of one line it is so in every run |
| `Approval.AcksAreEarned` | src/server/internal/agentconn/agentconn.go:107-262 | over all runs of the system, an approving answer goes only to an agent an administrator of that server approved, from a handler that read the state as approved, and the state is approved then exactly under the condition of `Server.AnswerExactly` |
| `Approval.SentIsEarned` | src/server/internal/agentconn/agentconn.go:107-262 | every approving answer ever sent went to an agent approved at that server |
| `Approval.BoundForGood` | src/clients/src/binding.c:329-421 | over all runs of the system a bound agent stays bound to the same server throughout if and only if at each of its restarts the saved file keeps the id |
| `Approval.ApprovalIsReached` | src/clients/src/agent.c:568-586 | from any state in which an agent is approved at a server and neither is bound elsewhere, a handshake and a scan leave it approved and bound to that server |
| `Removal.PermanentExactly` | src/server/internal/store/store.go:137-263 | an agent is in the table at no point of any future if and only if it is out of it, on the blacklist in memory and on disk, and nothing under way can undo that |
| `Removal.RemovalEffect` | src/server/internal/store/store.go:701-712 | the locked sections of a removal, run without interruption, do what `RemoveAgent` promises |
| `Removal.RemovalPermanent` | src/server/internal/store/store.go:701-712 | such a removal is permanent if and only if no handler was past the check and no older blacklist was being written |
| `Removal.RemovedAndBack` | src/server/internal/store/store.go:198-251 | a concrete state from which a removed agent can come back |
| `Removal.SilentExactly` | src/server/internal/agentconn/agentconn.go:107-262 | a removed agent is never again told it is approved if and only if no handler already holds its approval |

## Left out

- The web frontend, HTTP handlers other than the download loop, the SSH gateway, terminals, port forwarding, alerts, metrics and log buffers, accounts and audit.
- OpenSSL, liblzma, libelf, libbpf, dlopen and the modules' own code: their results are arbitrary inputs.
- Sockets, clocks, random ids, UDP discovery and the calendar: inputs, quantified over.
- Failing file writes and partial writes: a save replaces the file's value in one step.
- Allocation failure in the C code, and pthread calls that fail.
- A second call of `threadpool_destroy`, which returns an error with the mutex still held.
- Frames.Socket.ReadAll: with TLS, what `errno` holds after a failed `SSL_read` is up to OpenSSL; the model follows the plain `read`.
- The first configuration file: it is taken to be one the agent could have saved. Lines are shorter than the readers' buffer, as every field that is printed fits its own.
- Forged messages: an approving handshake answer in a server's name is taken to come from that server.
- C strings are sequences without a NUL character, and bytes are characters below 256 or numbers below 256.
- The daemon's handling of a line after it was handed on, including lines with an embedded NUL.
- Growth of the escaper's and the reader's buffers, and truncation of server ids, addresses and settings to their C buffers; module names and looked-up values are cut as in the source.
- `dup_field_raw`, which reads the id, type and session id of a message.
- The Go and json-c libraries: a compact printer of JSON values stands for them, and the Go base64 decoder is represented by `Base64.Decoded`.
- The answers to a register that is not approved (an error or a request to wait) are not messages of the model.
- Store fields other than approval, binding, times, online and discovered flags; uninstall requests.
- The token check, a message without an agent id, and the lookup of the agent's address at the start of a handshake or register: they answer or return before anything modelled here happens.
- Cron.AppendRange: integers are unbounded, so a step near the largest 64-bit number does not wrap around.
- FlatJson.JsonGetString: a `\u` escape cut off by the end of the text makes the C code read past it; the model returns `Undefined` there.
- Modules.Loader.Load: the module file's path, its unpacked copy and the log lines are not modelled.
- Sessions.RunKeepsToken: channels, the pending table and the goroutines are a state machine on values, one atomic operation per step, not objects on the heap.
- Server.StepSound: the handlers' goroutines are a state machine on values, one locked section per step; the store object itself is `Store.AgentStore`.
- Pool.ThreadPool.FinishTask: the function a worker runs is not modelled.
