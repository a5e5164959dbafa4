# A verified model of the Open Workload Scheduler

The scheduler runs a *planning*, a set of jobs joined by links, once a day. A template planning is
copied into a fresh schema before each day starts; the master polls a view of ready jobs every minute
and starts one thread per ready job; each thread writes the job's state back. This project models that
logic in Dafny and proves what holds over every run of it.

| file | what it models |
|---|---|
| `Tables.dfy` | the tables and the views of one planning |
| `Literals.dfy` | what the server reads where a text is quoted into a statement |
| `Database.dfy` | the SQL statements written by the scheduler, and the transaction that runs them |
| `Graph.dfy` | cycles and listings of a finite relation |
| `TemplateCopy.dfy`, `CopyOrder.dfy` | what is read from the template and written into a new planning, and when that works |
| `OrderFree.dfy` | which templates are copied in every order of the rows, and which in some order |
| `Domain.dfy` | the domain object: preparing and switching plannings, fetching ready jobs, writing states |
| `Clock.dfy` | planning start times and the polling loop's clock |
| `Engine.dfy`, `Determinacy.dfy` | one planning as a state machine of polls and job threads: safety, determinacy, termination |
| `AllPredecessors.dfy` | when each job waits for all its predecessors |
| `TimeGate.dfy` | when each job starts within its own time constraints |
| `GoodNames.dfy` | which job names make each job start at most once |
| `Master.dfy` | a job thread and one iteration of the polling loop |
| `System.dfy` | the whole master: plannings succeeding one another; each refines the engine |
| `Router.dfy` | the routing table against a plain log of its operations |
| `Config.dfy`, `Script.dfy`, `Duration.dfy`, `Decimal.dfy`, `Text.dfy` | the configuration, SQL script and duration parsers |

`dafny verify dfyconfig.toml` checks everything.

## Assumptions

- A poll reads the ready view only after every thread started before has written RUNNING.
  `Engine.DoubleDispatch` says exactly what goes wrong otherwise.
- Links and jobs of a planning are not edited while it runs, and no time constraint exceeds 99 hours.
- The database commits a transaction entirely or not at all, checks the keys of the skeleton, and runs in
  strict mode, so that a text too long for its column is refused (`INSERT IGNORE` cuts it instead).
- A text whose quote closes the literal early makes its statement unreadable; backslash escapes are on.
- A SELECT returns its rows in any order. What depends on the order is stated for the order actually
  returned, and then for all orders (`OrderFree.EveryReadingCopies`) and for some (`OrderFree.SomeReadingCopies`).
- The names of the jobs of a planning that can be started at all survive as literals: `GoodNames.HandedOverOnce`
  proves that without this some job is started twice. The names of the template of `System` survive, and its domain
  name needs no quotes.
- The template's columns hold what the scheduler writes into them: `job_state` and `job_weight` are never NULL, which
  would end the reading of the template with ex_processing.
- Plannings of earlier days and of other domains may be on the server in any state. What is proved of a single
  planning in `System` holds for those found untouched when the master starts, and for those created since.
- In `System`, every switch that is due succeeds and copies the whole template, and no fetch throws;
  `CopyOrder.CopyTemplate`, `DomainModel.CreatedIsFaithful` and `Master.Iterate` say when that is so. A poll may
  hand over any part of what is ready, which covers every state of the time gate, and polls may follow one another
  at any distance up to 60 s.
- The polling loop reads the clock once per iteration, except in `Master.Iterate` and
  `Clock.SwitchDispatchesNothing`, which take separate readings.

## Where the code differs from what it says

- A job is ready when SOME predecessor has succeeded (etc/mysql/skeleton.sql:218); the description of the
  `prv` field (src/model.thrift:175-180) reads like all of them. `AllPredecessors.AnyPredecessorWill` shows a job
  started before one of its predecessors, `AllPredecessors.WaitsForAllExactly` says which plannings are safe from that.
- The time test of `get_ready_job` only asks whether `get_ready_time` has any row
  (etc/mysql/skeleton.sql:190): `TimeGate.SharedGate` says for which plannings that still honours each job's
  constraints in every run, `Tables.ConstraintIgnored` gives one for which it does not, and
  `TimeGate.HarmlessHonours` one for which it does although the gate never closes.
- Texts are written into statements without escaping (src/domain.cpp:437-490). `Literals.SurvivesExactly` says which
  come back as written, `OrderFree.UnescapedCommands` shows a command line that stops the copy and one that
  is copied into another, and `CopyOrder.UnfaithfulNames` that a bad name always spoils it.
- Schema names are written without quotes (src/database.cpp:94-96): a domain whose name needs them never gets a
  planning (`DomainModel.NeverPrepared`).
- `init_domain_structure` looks the schema up with LIKE, for which the `_` of a planning name is a wildcard
  (`DomainModel.CreatesSchema`); `DomainModel.UnderscoreClash` gives two domains of which one is never prepared.
- The copy of the template inserts each job together with its links, so a link to a job inserted later
  violates a foreign key: `CopyOrder.CopyTemplate` says exactly which orders work. One link is enough for the
  order of the rows to decide (`OrderFree.ForwardLink`), no order works for a cycle of several jobs
  (`OrderFree.CyclesNeverCopy`) or for links both ways between two nodes (`OrderFree.CrossedNodesNeverCopy`).
  A copy that failed is taken for finished by the next call (`DomainModel.FailedCopyStands`).
- An unreadable skeleton file counts as success in `set_next_planning` (src/domain.cpp:192-194), and its
  schema then has no tables; a script of which a statement is refused leaves what it has created so far. Constraint times over 32767 s are copied as 0, job weights are wrapped to
  16 bits, and a node weight outside 16 bits ends the copy; at start-up it also ends the program, since only
  `ex_processing` is caught there (`DomainModel.Domain.Create`).
- With a one-minute day every iteration switches and nothing ever runs (`Clock.OneMinuteDay`); readings more
  than 60 s apart can miss a switch (`Clock.SafeSpacing`).
- An ex_job exception during the fetch also skips the switch of that iteration, and one thrown by the switch, for a
  name in the template that cannot be read, is passed over with the planning in place (`Master.Iterate`); the
  next switch then finds the empty schema and takes it for the finished planning (`DomainModel.FailedCopyStands`).
- `remove_job` deletes the job row before the rows referring to it, so it only removes jobs without links and
  time constraints (`DomainModel.Domain.RemoveJob`).
- `delete_route` with a destination alone returns true even when the destination is missing, against the
  comment at include/router.h:201 (`Routing.Router.DeleteRoute`). `get_route` and `get_gateway` read past the end of an
  empty index when all the gateways of a destination were deleted (`Routing.Router.GetRoute`).

## Model

| member | source | states |
|---|---|---|
| Tables.XorsAreUnions | etc/mysql/skeleton.sql:182-227 | for every database the links and linkless views are disjoint, and so are the two arms of get_ready_time, so both XORs are unions |
| Tables.ArmsOverTime | etc/mysql/skeleton.sql:204-208 | as the day goes on a before arm only closes, an after arm only opens, and an at arm holds in the one minute where both do |
| Tables.ViewExactness | etc/mysql/skeleton.sql:182-227 | the master's filter over get_ready_job yields exactly the waiting local jobs with no predecessor or some succeeded one, while the gate is open, and none while it is closed |
| Tables.ReadyJobRows | etc/mysql/skeleton.sql:182-227 | the rows of the view in whatever state: while some job meets its own times, the jobs with a succeeded predecessor and the waiting jobs without any |
| Tables.OwnTimes | etc/mysql/skeleton.sql:202-208 | a job's own time is met without constraints, at the minute of its at arm, until that of its before arm, or from that of its after arm on |
| Tables.UpdatedRows | src/domain.cpp:668-706 | the two UPDATEs change the named row alone, and of it the state, or the state and both times |
| Tables.ConstraintIgnored | etc/mysql/skeleton.sql:190 | a planning in which a job held for 01:00 is started at 00:00 |
| Literals.SurvivesExactly | src/domain.cpp:437-447 | a text comes back as it was written if and only if it holds no single quote and no backslash but before % or _ |
| Literals.DoubledReadsBack | src/domain.cpp:437-447 | a text with its quotes and backslashes doubled is read as the text itself |
| Literals.EscapedCharacters | src/domain.cpp:437-447 | what a backslash and each character after it are read as |
| Literals.Endings | src/domain.cpp:437-447 | adjacent literals are one; text after a closing quote and a single last backslash cannot be read |
| Database.ApplyKeepsConsistent | etc/mysql/skeleton.sql:54-148 | every accepted statement keeps all column widths and foreign keys |
| Database.NodeInserts | src/domain.cpp:349-372 | a node's name is cut at 45 characters, and a node already there keeps its weight |
| Database.JobInserted | etc/mysql/skeleton.sql:54-84 | a job's row is refused exactly for a known name, an unknown node, or a name or command line over 45 characters |
| Database.References | src/domain.cpp:612-630 | the two clean-up statements of remove_job take away exactly the links and constraints of the job |
| Database.Mysql.StandaloneExecute | src/database.cpp:161-206 | a transaction applies all its statements in order or, when one cannot be read or is refused, none, and throws; widths and foreign keys of every schema are kept |
| TemplateCopy.AddJobExact | src/domain.cpp:437-505 | the inserts of a job go through exactly when its texts can be read and, as read, its name is new and its texts fit, its node is known, its neighbours are known and named once each, and it has one constraint of each type; then exactly its waiting row, the links from each predecessor and to each successor, and its constraints are added, as read |
| TemplateCopy.CopyJob | src/domain.cpp:410-505 | inserting one template job with its links and constraints goes through exactly when its command line can be read and each successor is already there or is the job itself, and then adds precisely that job's part |
| TemplateCopy.ImageFaithful | src/domain.cpp:876-1146 | a complete copy has the template's nodes, jobs, links and constraints with all jobs waiting if and only if the template's numbers fit 16 bits and its command lines survive as literals |
| TemplateCopy.ImageFields | src/domain.cpp:876-1146 | the complete copy column by column: the command line as the server reads it, the weight modulo 2 to the 16th, zero for a time that does not fit 16 bits and every other time as it is |
| TemplateCopy.LateTimes | src/domain.cpp:1131-1140 | a job held for a time after 09:06:07 is held for midnight in the copy |
| CopyOrder.CopyTemplate | src/domain.cpp:200-208 | copying a full reading of a template whose names survive gives the complete image if and only if no link points to a job inserted later, every command line can be read and no constraint exceeds the duration; otherwise it throws and only the new schema is touched |
| CopyOrder.UnfaithfulNames | src/domain.cpp:200-208 | a template with a node or job name that does not survive is never copied faithfully, in whatever order, since some key of the copy would come from a longer one |
| CopyOrder.AddNodesTouches | src/domain.cpp:200-208 | even a copy that stops half-way leaves every other schema alone and keeps all widths and foreign keys |
| OrderFree.EveryReadingCopies | src/domain.cpp:200-208 | the copy goes through in every order of the rows if and only if no link joins distinct jobs, every command line can be read and no constraint exceeds the duration |
| OrderFree.SomeReadingCopies | src/domain.cpp:200-208 | it goes through in some order if and only if the links inside each node have no cycle but self-links, the relation the links induce on the nodes has none, and the same row conditions hold |
| OrderFree.CyclesNeverCopy | src/domain.cpp:449-468 | no order of insertion copies a template whose links run round several jobs |
| OrderFree.ForwardLink | src/domain.cpp:449-468 | a template of two jobs and one link that one order of the rows copies and the other does not |
| OrderFree.CrossedNodesNeverCopy | src/domain.cpp:295-317 | links both ways between two nodes are never copied although they form no cycle |
| OrderFree.UnescapedCommands | src/domain.cpp:437-447 | a quoted word in a command line stops the copy and a backslash is lost in it, in templates that meet every other condition |
| DomainModel.PlanningNamesDistinct | src/domain.cpp:170-172 | plannings of distinct start times have distinct names, none the template's |
| DomainModel.NameAsWritten | src/domain.cpp:170-172 | a planning's name is the domain, an underscore and the start in decimals, with a sign if negative |
| DomainModel.NameInCharacters | src/domain.cpp:170-172 | the name of a planning of domain prod, in characters |
| DomainModel.Identifiers | src/database.cpp:94-96 | names that can stand unquoted, and names that cannot |
| DomainModel.LikeExactly | src/database.cpp:80-92 | a pattern without percent sign and backslash matches exactly the texts of its length that agree with it wherever it has no underscore |
| DomainModel.LikeSpecials | src/database.cpp:80-92 | a final percent sign matches any ending, an escaped wildcard only itself |
| DomainModel.OwnPlanningsDiffer | src/database.cpp:80-92 | plannings of one domain with different starts are not LIKE each other |
| DomainModel.NextDayCreated | src/domain.cpp:164-212 | beside the template and any plannings of other days the next planning's schema is always created, if its name can stand unquoted |
| DomainModel.CreatesSchema | src/database.cpp:71-109 | a schema is created if and only if the planning's name can stand unquoted and no existing schema is LIKE it |
| DomainModel.NeverPrepared | src/database.cpp:94-96 | a domain whose name holds a character that needs quotes never gets a planning |
| DomainModel.UnderscoreClash | src/database.cpp:80-92 | of two domains whose names differ only where one has an underscore, that one gets no planning beside the other's of the same start |
| DomainModel.CreatedIsFaithful | src/domain.cpp:164-212 | when a call creates the schema and returns true, it holds a faithful copy if and only if the skeleton loaded, the numbers fit, and names and command lines survive as literals; nothing else changes |
| DomainModel.CreatedFields | src/domain.cpp:164-212 | what a call that creates the schema and returns true leaves in each column |
| DomainModel.SkeletonFails | src/domain.cpp:192-198 | an unreadable skeleton leaves a schema without tables and counts as success; a refused statement leaves all or some of the schema and counts as failure |
| DomainModel.CreatedOrderFree | src/domain.cpp:164-212 | with a loaded skeleton and a readable template whose names survive, a created planning is complete whenever the order-free condition for all orders holds, and the call throws whenever the one for some order fails |
| DomainModel.PreparedKeepsConsistent | src/domain.cpp:164-212 | however a preparation ends, every schema keeps the widths and foreign keys of the skeleton |
| DomainModel.FailedCopyStands | src/domain.cpp:187-190 | after a reading or copy of the template that threw, the next call returns true and leaves the empty or half-filled schema as it is |
| DomainModel.Domain.GetNextPlanningStartTime | src/domain.cpp:269-277 | the least boundary strictly after now, for now not before the initial start |
| DomainModel.Domain.GetTimeConstraints | src/domain.cpp:1105-1146 | one constraint for each row of the job read, with its value when that fits 16 bits and zero otherwise |
| DomainModel.Domain.GetJobs | src/domain.cpp:876-937 | the jobs of the node whose name the server reads, each once, with all successors and constraints of what is read for their names; ex_job exactly when the node's or a job's name cannot be read |
| DomainModel.Domain.GetNode | src/domain.cpp:1223-1244 | the node found under its name, with its jobs, or the node unchanged; exactly which exception otherwise |
| DomainModel.Domain.GetNodes | src/domain.cpp:1248-1279 | all nodes, each once, looked up again by their names, with their jobs; an exception exactly when some name cannot be read or some weight found is outside 16 bits: only ex_job when all weights fit, only a failed cast when all names survive |
| DomainModel.ReadableNames | src/domain.cpp:1223-1279 | a template whose names survive can be read if and only if every node weight fits 16 bits |
| DomainModel.Domain.AddJob | src/domain.cpp:410-505 | which exception, or the whole new state of the target schema, for every job given, with its texts as the server reads them |
| CopyOrder.AddJobRefusals | src/domain.cpp:417-480 | ex_node exactly for a node that can be read and is not known; success exactly for a known node, constraints no longer than the planning, and a transaction that goes through |
| DomainModel.Domain.AddNode | src/domain.cpp:295-317 | the node as read and cut to its column, then its jobs in turn, stopping at the first failure |
| DomainModel.Domain.CopyInto | src/domain.cpp:200-208 | reading and re-inserting a template whose names survive yields its complete image exactly for a workable order of some reading, each column of which is stated; with other names the result is never faithful; no schema but the new one is touched |
| DomainModel.Domain.SetNextPlanning | src/domain.cpp:164-212 | the whole outcome: existing schema untouched, unreadable name, name clash, refused name, unreadable skeleton, skeleton refused at its start or with the whole schema created, failed or complete copy; the template is never changed |
| DomainModel.Domain.SwitchPlanning | src/domain.cpp:216-228 | the planning start moves to the next start exactly when the planning was prepared |
| DomainModel.Domain.Create | src/domain.cpp:128-143 | a new domain has the next start in place even when preparing its planning returned false or threw ex_processing; after any other exception there is no domain |
| DomainModel.Domain.RemoveJob | src/domain.cpp:599-633 | succeeds exactly when the name can be read and no link or constraint refers to the job read, and then removes just its row |
| DomainModel.Domain.UpdateJobState | src/domain.cpp:654-682 | the state of the job whose name the server reads, in the named planning, and nothing else; false for an empty node name, an exception exactly for a missing planning or an unreadable name |
| DomainModel.Domain.UpdateJobResult | src/domain.cpp:686-718 | state, start and stop time of that job and nothing else, under the same conditions |
| DomainModel.Domain.GetReadyJobs | src/domain.cpp:728-796 | all ready rows of the planning in place, each once and with the columns of its row, without exception exactly when it has tables, the node's name can be read and no such row has an empty field; otherwise some of them and which exception |
| DomainModel.FetchedRows | src/domain.cpp:728-742 | which rows a fetch for one node, or for all, reads |
| DomainModel.FetchEnds | src/job.cpp:75-101 | a fetch goes through exactly when every row has a name, a node and a command line |
| DomainModel.ReadyFields | src/domain.cpp:752-776 | the job read from a row has its name, node, command line and state, its weight modulo 2 to the 16th, and the planning as domain |
| Clock.NextStartExact | src/domain.cpp:269-277 | the result is the least boundary after now if and only if now is not before the initial start or is a boundary; never more than one duration ahead |
| Clock.RemainderTruncates | src/domain.cpp:273 | the remainder of the language, rounded toward zero |
| Clock.EarlyReading | src/domain.cpp:269-277 | between two boundaries before the initial start the result is one period after the least boundary |
| Clock.NextStartMonotone | src/domain.cpp:269-277 | monotone in the reading, and equal exactly within one period |
| Clock.InStepMeaning | src/domain.cpp:287-291 | after each iteration in step the planning start is a boundary and the remaining time is positive |
| Clock.RollOver | src/master.cpp:182-201 | with readings at most 60 s apart the planning start is always the current period's start or the next boundary |
| Clock.TickKeepsInStep | src/master.cpp:199-201 | one such iteration keeps this and never moves the start back |
| Clock.SafeSpacing | src/master.cpp:199-227 | for every whole-minute duration, the roll-over is safe for every run with readings at most gap apart if and only if gap is at most 60 or the day lasts one minute |
| Clock.DispatchWindow | src/master.cpp:184-220 | an iteration starts jobs exactly when its reading is in [B, B + D - 60) for the planning in place at B, and then does not switch |
| Clock.SwitchDispatchesNothing | src/master.cpp:184-220 | with several non-decreasing readings per iteration, a switched-to planning still starts after the first of them |
| Clock.PeriodDispatched | src/master.cpp:182-228 | every run that passes the start of a period dispatches its planning within a minute, for days of 120 s or more |
| Clock.ServedDurations | src/master.cpp:182-228 | among whole-minute durations, every period is dispatched in every run if and only if the day is longer than a minute |
| Clock.OneMinuteDay | src/master.cpp:184-220 | with a one-minute day an iteration at or after the initial start always switches and never starts a job, whatever planning is in place |
| Engine.RunInv | src/job.cpp:116-167 | in every reachable state each job's row matches its one thread: untouched, running, or final with start time at most stop time |
| Engine.RunIsLater | src/domain.cpp:654-718 | along a run states only move waiting, running, succeeded or failed, and final rows never change |
| Engine.AtMostOnce | src/master.cpp:207-220 | no two steps of any run start the command line of the same job |
| Engine.DoubleDispatch | src/job.cpp:117-125 | a startable job already has a thread exactly when that thread has not yet written RUNNING |
| Engine.ClaimAssumptionNeeded | src/job.cpp:117-125 | two polls in a row without that write hand the same job over twice |
| Engine.VerdictOf | src/job.cpp:147-163 | a status is recorded as success exactly when it is a multiple of 2 to the 16th, and as failure otherwise |
| Engine.LiteralNeeded | src/domain.cpp:668-672 | a job whose name does not survive as a literal is handed over again after its thread has written RUNNING |
| Engine.Monitoring | src/domain.cpp:1301-1319 | the four state counts always sum to the number of jobs; waiting never rises, failed and succeeded never fall |
| Engine.CausalChain | etc/mysql/skeleton.sql:218-227 | under any time gate each job that is not waiting ends a simple path of links from a job without predecessors on which every earlier job has succeeded |
| Engine.CyclesNeverStart | etc/mysql/skeleton.sql:218-227 | jobs reachable only from one another never start |
| Determinacy.EmptyPoll | src/master.cpp:207-213 | without time constraints the master finds nothing exactly when no job is startable |
| Determinacy.QuiescentState | src/master.cpp:207-220 | at quiescence the started jobs are the least set containing the local jobs without predecessors and closed under local successors of succeeding jobs, which fixes every state |
| Determinacy.Determinate | src/master.cpp:207-220 | two interleavings that reach quiescence agree on every job's state |
| Determinacy.Terminates | src/master.cpp:207-220 | a run holds at most four claims, launches, completions and dispatching polls per job, and at most as many dispatching polls as jobs |
| Determinacy.WaitingRunning | src/job.cpp:116-167 | a claim moves one job from waiting to running, a completion takes one off running, nothing else changes either count |
| Determinacy.Progress | src/job.cpp:116-167 | a state that is not quiescent always has a productive step |
| Determinacy.ReachesQuiescence | src/master.cpp:182-228 | every run can be continued to quiescence, whatever the commands' outcomes |
| AllPredecessors.WaitsForAllExactly | etc/mysql/skeleton.sql:212-227 | in every run every job handed over has all its predecessors succeeded if and only if no job of the least set that all-successful commands would start has two predecessors |
| AllPredecessors.AnyPredecessorWill | etc/mysql/skeleton.sql:218 | a run in which a job with two predecessors is handed over while one of them is still waiting |
| TimeGate.SharedGate | etc/mysql/skeleton.sql:183-209 | in every run whose polls go through an open gate, every job handed over meets its own time constraints at that reading if and only if at every reading still to come that finds the gate open all jobs that can be started meet theirs |
| TimeGate.HarmlessHonours | etc/mysql/skeleton.sql:183-209 | a job without constraints beside one that may start until 23:59 and a held job that never starts does no harm |
| GoodNames.HandedOverOnce | src/domain.cpp:668-672 | with readable names, no run hands over a job twice if and only if the names of all jobs that can be started come back from the server as written |
| Master.Job.Run | src/job.cpp:116-181 | both writes go to the planning the job was read from, to the row of the name the server reads, and nowhere else; that row then holds both times and SUCCEDED, and the answer is true, exactly for a status that is a multiple of 2 to the 16th, and FAILED otherwise; an exception when the planning is missing or the name cannot be read |
| Master.RunIsThreeSteps | src/job.cpp:116-167 | run makes exactly the writes of the claim, launch and finish steps of the engine |
| Master.Iterate | src/master.cpp:182-228 | when an iteration switches, which exceptions end the program and which the loop passes over, what it leaves in the database, and that the jobs it starts are waiting local rows of the view with the columns of those rows, each once, all of them when the fetch is complete and the program goes on, and none after a successful switch |
| System.RunRefines | src/master.cpp:182-228 | through every switch and whatever other plannings do, each planning goes through a legal run of the engine |
| System.CreatedFresh | src/domain.cpp:164-212 | a planning created by a switch is the full copy of the template on which no thread has worked, whatever other plannings hold |
| System.RunInv | src/master.cpp:182-228 | in every run the planning start stays in step, its planning exists, and every planning found untouched or created since keeps the engine's invariants |
| System.OneThreadPerJob | src/master.cpp:207-220 | no job of a planning found untouched or created since is ever handed to two threads, whatever the server held at the start |
| System.WindowOverRuns | src/master.cpp:184-220 | in every run, jobs are started only of the planning at B with B <= now < B + D - 60, in an iteration that does not switch |
| System.Isolation | src/job.cpp:171-181 | a step changes a planning's rows only if it is a step of a thread whose job was read from it |
| System.PlanningDeterminate | src/master.cpp:182-228 | two runs from the start of the master that each leave a planning quiescent agree on every job's state, whether they found the planning or created it, and whenever |
| System.PlanningOutcome | src/master.cpp:182-228 | a planning left quiescent by any run from the start of the master has started exactly the least closed set of the planning as found or created, which fixes every state |
| System.TimesKept | src/master.cpp:184-220 | in every run of the master, no job of a new planning starts outside its own time constraints if at every reading of the planning's window that finds the gate open the jobs that can be started meet theirs |
| System.TemplateCommands | src/domain.cpp:200-208 | through every run the jobs of a created planning keep the template's nodes and the command lines the server reads for the template's |
| System.StartedCommand | src/master.cpp:207-220 | a job started of a created planning runs the command line the server reads for the template's job of its name, which is the template's own text when that survives |
| System.IterateIsStep | src/master.cpp:182-228 | what an iteration leaves is a step of the system when no switch is due or the switch succeeds |
| System.Turn | src/master.cpp:182-228 | running the iteration from a state of the system leaves the domain object and its database in the state after a step that starts the same jobs, when no switch is due or the switch succeeds |
| Routing.InsertAgrees | include/router.h:89-103 | inserting keeps both indexes ordered and in agreement |
| Routing.EraseAgrees | src/router.cpp:180-186 | erasing by gateway removes exactly that gateway's entries from both indexes and keeps them ordered and in agreement |
| Routing.SortWithout | src/router.cpp:180-186 | deleting a gateway and ordering by weight commute |
| Routing.Router.InsertRoute | src/router.cpp:143-160 | the table keeps representing the log extended by the triple |
| Routing.Router.DeleteRoute | src/router.cpp:164-190 | all four NULL combinations: the result, the exact new table, and that it represents the extended log |
| Routing.Router.GetRoute | src/router.cpp:194-206 | the oldest lightest live triple of the log; NULL exactly when the destination is not a key, undefined exactly when all its gateways were deleted |
| Routing.Router.GetGateway | src/router.cpp:226-238 | the gateway of that same triple, NULL and undefined in the same cases |
| Routing.LeastFirst | src/router.cpp:200-203 | the first entry of the weight index is the earliest inserted of the lightest |
| Routing.StringLeMeaning | include/router.h:89-103 | the order of names: a prefix first, else by the first characters that differ |
| Routing.OldestLightestUnique | src/router.cpp:194-206 | that triple is unique, so the answer of get_route is determined by the log |
| Routing.EmptiedDestination | src/router.cpp:182-186 | deleting a destination's last gateway leaves the destination a key with no entry |
| Config.ConfigFile.ParseFile | src/cfg.cpp:45-101 | the options and the answer for every content, including options kept from before a malformed line |
| Config.RoundTrip | src/cfg.cpp:60-89 | printing any printable map in any order and parsing it gives the map back |
| Config.LayoutOfLine | src/cfg.cpp:62-63 | blanks anywhere in a line and a comment at its end change nothing |
| Config.LayoutOfFile | src/cfg.cpp:62-66 | files with the same contributing lines parse alike |
| Config.FirstWins | src/cfg.cpp:88 | the first of several values for a key is kept |
| Config.LineMeaning | src/cfg.cpp:62-87 | a line without blanks and comment is empty, key=value with both parts and a suitable value, or an error |
| Config.PortSyntax | src/cfg.cpp:31-36 | bind_port takes two digits or more; other keys take anything |
| Config.Modes | src/cfg.cpp:149-163 | the three running modes and no other |
| Text.SpaceCharacters | src/cfg.cpp:52 | the six white space characters |
| Text.LinesConserve | src/cfg.cpp:60-61 | nothing is lost between the lines of a file |
| Script.LoadFile | src/database.cpp:342-377 | USE first, then statements whose text with a blank dropped tail is the whole file's; all but possibly the last end in ';' and none is blank |
| Script.TextConserved | src/database.cpp:357-374 | statements and dropped tail together are the text of the lines |
| Script.LineByLine | src/database.cpp:347-374 | a line that begins with two hyphens adds a blank and ends nothing; any other is added whole after a blank and ends its statement exactly when its last character is a semicolon; a blank rest is dropped |
| Script.CommentAnywhere | src/database.cpp:349-368 | a comment line put anywhere in a file adds one blank to the statement it stands in and changes nothing else |
| Script.SkippedWarnings | etc/mysql/skeleton.sql:5-6 | the first comment of the skeleton script leaves only the statement after it |
| Script.WellCut | src/database.cpp:118-123 | the blank-query guard never refuses a statement of a script |
| Script.FirstStatement | src/database.cpp:357-374 | the first statement ends exactly at the first line that ends in ';' and is no comment, and without such a line all the text is one statement, or dropped when blank |
| Duration.WrittenForms | src/convertions.cpp:159-197 | 3h20min, 3h and 20min forms of all naturals decode to 3600 h + 60 m exactly when the products fit the type |
| Duration.Refusals | src/convertions.cpp:165-195 | a number too large for the type cannot be cast, and one whose product is too large overflows |
| Duration.HoursForm | src/convertions.cpp:159-180 | the hours are the digits a text begins with, when an h follows them |
| Duration.MinutesForm | src/convertions.cpp:181-197 | the minutes are all the digits before a final min |
| Duration.LongestDays | src/domain.cpp:72-98 | 24h is 86400 s, and the longest hours and minutes that fit 31 bits |
| Duration.ParsersAgree | src/domain.cpp:72-92 | whatever the constructor accepts the conversion function reads the same |
| Duration.PlanningDuration | src/domain.cpp:72-98 | an accepted duration is a positive multiple of 60 |
| Duration.BuildUnixTime | src/convertions.cpp:159-197 | the accumulated result is the decoding of the matched parts |

## Left out

- Network calls, RPC forwarding, peer and master discovery, the client's loop and the shell.
- Resources, recovery types and macro jobs; a template is taken to have no rows in those tables.
- `update_job`, `remove_node` and the RPC form of `get_ready_jobs`, whose queries are unfinished.
- Failing connections, the state of mutexes after an exception, logging, and daemonising.
- The start of day: the hour and minute of `day_start_time` enter as the initial start.
- Text: case-insensitive collation and trailing blanks of names, characters outside the server's character set, NUL
  characters, line breaks inside a duration.
- A text whose quote closes its literal early and whose rest completes another valid statement counts as unreadable.
- The 16-bit cast of the monitored counts, and times of day of 100 hours or more in the view's text comparison.
- Duration.PlanningDuration: an int product over 31 bits is undefined in C++; it counts as a refusal here.
- Master.Job.Run: the body makes both writes in one call; their interleaving with polls and other threads is modelled in Engine and System, and Master.RunIsThreeSteps connects the two.
