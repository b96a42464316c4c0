# Lotor, modelled in Dafny

Lotor is a MeshCore daemon: it bridges radios, relays, room servers and MQTT
observers, keeps its configuration and its access lists in a store, and is
operated from a telnet-style console. This project models the parts of it whose
correctness spans many calls, and proves what they promise over every input,
every interleaving or every run.

The modules, by what they model:

- `AccessList`, `AccessTables`: who has logged in, what the store remembers of
  them, and what survives refused writes, crashes and restarts. `AccessList` is
  the state machine over values (one `Step` per thing that can happen);
  `AccessTables` is the table itself, its `Client` objects updated in place, and
  a `Store` each of whose calls may refuse, and which counts those that did, so
  that nothing else may be refused for no reason. `Login`, `Request`, `Command`,
  `RoomAsk`, `Post`, `Learn`, `Grant`, `Remove`, `CloseSession`, `Expire` and a
  load that succeeds on an empty table each make exactly one `Step` or none, and
  all but the load change the disk at most once; `Advance`, `AdvanceClient` and
  `RoomAdvance` are parts of a step, and a load that fails half way is none: it
  is proved to have lost no access row.
- `ConnectionStory`: MQTT callbacks that run on independent goroutines, told as
  one causal timeline.
- `Observers`, `LiveGate`: the observers a configuration calls for, kept up as
  relays come and go, and the sealed timeline of each incarnation.
- `Ordering`: byte order, and the sorted lists the rest of the model relies on.
- `Lexer`, `Base64`, `ExportText`, `Layers`, `ExportReplay`: an object printed as
  command lines, and those lines lexed, decoded and replayed into the object.
- `Telnet`: the escaping sender, the stripping receiver, and terminal-size
  announcements between them.
- `Utf8`, `InputDecoder`, `EditBuffers`, `Layout`: bytes into keys, keys into a
  draft, the draft into rows of cells.
- `Migration`, `NameHealing`: the store's shape ladder, and the rung that renames.
- `RateLimit`: the fixed-window budget.

Two forms recur. Code that changes fields step by step is a class whose methods
are proved against functions of the old state; what is promised over whole runs
is then proved of those functions. Concurrency is a state machine over its
interleaved steps. Where a promise turned out to need a condition, the condition
is stated exactly and a lemma shows it is needed.

## Where the code says something else

- A budget of `Max` per `Window` admits up to `2*Max - 1` events in a span of one
  window once a window has been opened by an event, and `2*Max` only before that
  (`RateLimit.RateBoundOpened`, `RateLimit.BoundIsReached`).
- A restart of a relay that gives it an identity it lacked, or takes one away,
  rereads only the observers then up on it: one that was down for want of the
  identity stays down, so the table is what a fresh start would build exactly
  when no such observer exists (`Observers.FreshAfter`).
- A stored access row that a load skipped (no place left, or no shared secret) no
  longer guards its key: a grant writes zero over its replay guard
  (`AccessList.GrantWritesLiveGuard`), and a login at or before the stored
  timestamp, its word and its clock apart, is judged by the table alone. If the
  key is seated it is let in exactly when it is past the guard the table holds,
  which over a skipped row can only be a guest's; if it is not, exactly when a
  place is free or unspared (`AccessList.ReplayOnlyOfSkipped`). A guest's login
  leaves the skipped row standing, so after it every recorded login later than
  that guest's gets past the guard, the stored one notwithstanding, and one with
  another role overwrites it (`AccessList.GuestLeavesRow`,
  `AccessList.ReplayAfterGuest`, `AccessList.SkippedGuardIsLost`).
- An exported creation reads back exactly when no instance of its kind is named
  like the line's verb and the object is not named `?`; an exported mutation
  exactly when the instance is there and is not named `..`; and the switch back
  to the active profile, the one line written without a carrier, exactly when the
  profile's name holds no blank and no quote (`ExportText.CreationRoundTrip`,
  `ExportText.MutationRoundTrip`, `ExportText.SwitchRoundTrip`).
- "Pasted in order, the store comes back identical" holds up to an empty profile
  becoming `custom` and scopes that hold nothing being dropped
  (`ExportReplay.PasteRebuilds`, `ExportReplay.NormalizedResolves`).
- A reference that dangled before names are healed can name an object after it,
  exactly when a renamed object was given that name
  (`NameHealing.DanglingReference`).
- A room serves a request at its guard's own timestamp again, every time, and a
  relay takes an administration line at it again without running it; only a
  login and a relay's request need a newer one. A post at the guard's timestamp
  is kept exactly when it is not the timestamp last kept, so a post refused once
  can be kept later, but none is kept twice while its author keeps access, in a
  room whose history persists or between its restarts
  (`AccessList.EqualIsTakenAgain`, `AccessList.EqualPostIsKept`,
  `AccessList.NoPostKeptTwice`). A room whose history does not persist forgets in
  a restart which timestamp it last kept, and keeps the guard's own post again
  (`AccessList.RestartForgetsPosts`).
- A route the store would not take is lost to a restart until the entry is next
  written: of the access entries then seated, exactly those whose last unsaved
  route came after every durable write of theirs and every restart can come back
  with an older route or an older hour of activity, and with nothing else older
  (`AccessList.StaleMeans`, `AccessList.CrashKeepsKey`). An entry evicted since
  has no row to come back from.
- "Freshest first" is the order of the rows' timestamps as text, which drops
  trailing zeros: of two entries the one active earlier is listed first exactly
  when both were active in one second of the clock and the digits of its fraction,
  none for a whole second, are the beginning of the other's. So .5 comes before
  .51, and entries active in different seconds are never the wrong way round
  (`AccessList.OlderFirstExactly`, `AccessList.SortsExactly`,
  `AccessList.WithinASecondTextDecides`).
- Rows kept under a name healing gives a relay would stop the migration exactly
  when their keys meet that relay's, and otherwise would become its own
  (`NameHealing.StrayRefuses`, `NameHealing.StrayTaken`). No store that climbed
  the ladder holds any: an earlier rung drops every row without a relay, the two
  between it and healing give no row another owner, and removing a relay takes
  its rows with it, so there healing is never refused and every relay keeps
  exactly its own rows (`NameHealing.OwnedIsUnclaimed`,
  `NameHealing.Store.MigrateInstanceNames`).
- The connection story is proved right under a bound on how late a callback runs,
  and one callback past it can leave it wrong (`ConnectionStory.Converges`,
  `ConnectionStory.LateBeyondTheBound`).
- `setText`'s first length check never decides: text that passes the second one
  passes it too (`Utf8.RunesGrow`).

## Model

| member | source | states |
|---|---|---|
| AccessTables.Store.SaveSession | internal/confdb/acl.go:81-118 | an accepted save replaces the one row of its key and is one change of the disk; a refused one changes nothing |
| AccessTables.Store.ForgetSession | internal/confdb/acl.go:122-126 | an accepted removal drops exactly one key's row; a refused one changes nothing |
| AccessTables.Store.ReplaceSession | internal/confdb/acl.go:142-165 | victim out and newcomer in are one change of the disk: whichever statement or commit refuses, the rows are as they were |
| AccessTables.Store.LoadSessions | internal/confdb/acl.go:36-76 | every stored row exactly once, freshest first by the text of its timestamp, then by key; or an error |
| AccessTables.Table.Save | internal/meshcorehost/table.go:234-239 | only access entries reach the store, as their persisted form; a refusal leaves the rows alone |
| AccessTables.Table.Forget | internal/meshcorehost/table.go:242-247 | drops the key's row, or refuses and keeps it |
| AccessTables.Table.Advance | internal/meshcorehost/table.go:255-263 | the guard moves on disk and in memory together, or neither moves |
| AccessTables.Table.Load | internal/meshcorehost/table.go:275-322 | over whatever the table holds, a load that succeeds seats the required rows and then the freshest while there is room, and on an empty table is a restart step; it fails exactly when the required rows exceed the places or the store refuses a call; whether it succeeds or not, at every instant the disk holds every access row it held before, as it was |
| AccessTables.Table.KeepFirst | internal/meshcorehost/table.go:283-296 | the required rows, then the others, each in the order they were listed; refused exactly when the required ones exceed the places |
| AccessTables.Table.SeatEach | internal/meshcorehost/table.go:297-321 | seats rows in order over the sessions the table holds, deletes legacy guests, and never drops an access row from the disk, even when cut short |
| AccessTables.Table.PutEvicting | internal/meshcorehost/table.go:338-373 | the newcomer takes a free place or an unspared least recently active entry's, table and store together, or nothing changes; it is refused as full exactly when every place is spared |
| AccessTables.Table.Exchange | internal/meshcorehost/table.go:350-369 | the store's half of seating is one change of the disk or none |
| AccessTables.Table.Evictable | internal/meshcorehost/table.go:379-393 | the victim is unspared and least recently active among the unspared; there is no room exactly when all are spared |
| AccessTables.Table.MatchPrefix | internal/meshcorehost/table.go:397-407 | the lowest key, in byte order, that begins with the prefix; none exactly when none does |
| AccessTables.Table.Remove | internal/meshcorehost/table.go:412-418 | the entry leaves table and store together, or a refusal keeps both |
| AccessTables.Table.CloseSession | internal/meshcorehost/table.go:426-444 | a close is one step of the state machine or no close at all; it is one exactly when the session is there and active and the store refuses nothing |
| AccessTables.Table.NextExpiry | internal/meshcorehost/table.go:510-523 | names exactly the first instant at which expiring would change anything |
| AccessTables.Table.Expire | internal/meshcorehost/table.go:529-543 | due guests leave, due access entries stop being live, nobody else is touched, and `changed` says whether anyone was due |
| AccessTables.Table.Grant | internal/meshcorehost/table.go:556-593 | a guest's role removes the lowest key the prefix names; any other is a grant step once durable; every refusal leaves table and store as they were, and is for want of an entry, of a secret or of room, or by a call to the store that was refused |
| AccessTables.Table.Promote | internal/meshcorehost/table.go:570-592 | the granted candidate is the seated entry afterwards, or nothing changed: for want of room, or because a call to the store was refused, and for nothing else |
| AccessTables.Table.Admit | internal/meshcorehost/login.go:66-97 | the verdict on an attempt, composed on a copy of its own: no live session is touched |
| AccessList.AdmittedAs | internal/meshcorehost/login.go:66-97 | an admitted login with a word of a role at most 3 has exactly that role, up or down, and keeps the other six bits; a guest's word ends the grant, any other keeps it; a blank recheck changes none of these |
| AccessList.LoginEarns | internal/meshcorehost/login.go:66-97 | and so has the entry seated afterwards, open and active, at the login's timestamp and instant, with the route it had unless the login flooded |
| AccessList.RolesAre | internal/meshcorehost/table.go:102-107 | the role is the low two bits: zero is a guest, three an administrator |
| AccessList.TimelyExactly | internal/meshcorehost/login.go:66-97 | a clock more than a day off either way is refused, and no other |
| AccessTables.Table.Login | internal/protocol/meshcore/session.go:103-125 | an admitted, stamped candidate is seated in one step, or the table and store are as they were; it is seated exactly when it is admitted, has room and no call to the store was refused |
| AccessTables.Table.Candidate | internal/application/meshcore/room/members.go:224-241 | the admitted candidate carries the login's timestamp and instant, and no route when a room's login flooded |
| AccessTables.Table.Request | internal/protocol/meshcore/session.go:202-236 | a request is served exactly when its session is open, it is past the guard, the budget allows it if its answer floods, and the store takes the guard |
| AccessTables.Table.Command | internal/protocol/meshcore/command.go:91-147 | a line is taken exactly when it is an open administrator's, at the guard or past it, the budget allows it if its answer floods, and the store takes the guard; it is run exactly when it is past the guard |
| AccessTables.Table.ChargeAndAdvance | internal/protocol/meshcore/command.go:98-129 | what a relay's doors share: the budget is charged when the answer floods, then the guard moves, and a refusal of either leaves the guard where it was |
| AccessTables.Table.RoomAsk | internal/application/meshcore/room/members.go:402-432 | a room serves a request exactly when its session is open, it is at the guard or past it, the budget allows it, and the store takes the guard |
| AccessTables.Table.Post | internal/application/meshcore/room/members.go:308-375 | a post at the guard or past it moves the guard, unless the store refuses; a member's is kept exactly when it is not the one last kept asked again, not too long, and the history takes it |
| AccessTables.Table.AdvanceClient | internal/protocol/meshcore/clients.go:252-261 | activity follows the guard, and is taken back when the store refuses |
| AccessTables.Table.RoomAdvance | internal/application/meshcore/room/members.go:332-337 | a room marks activity only once the guard has moved durably |
| AccessTables.Table.Learn | internal/protocol/meshcore/path.go:64-81 | a route taught reaches memory always and the store at best effort; nothing else changes |
| AccessList.SeatsSound | internal/meshcorehost/table.go:338-373 | seating keeps the store's agreement with the table, the bound on its places, and exactness |
| AccessList.KeptSound | internal/meshcorehost/table.go:234-263 | a durable change to one entry keeps them too |
| AccessList.ExpiredSound | internal/meshcorehost/table.go:529-543 | expiring keeps them without touching the store |
| AccessList.RestartSound | internal/meshcorehost/table.go:275-322 | whatever the rows were, a load comes up with every seated entry equal to its row and within capacity |
| AccessList.RestartExact | internal/meshcorehost/table.go:275-322 | a load that skips no access row leaves the stored rows exactly the live access entries |
| AccessList.StepSound | internal/meshcorehost/table.go:227-593 | every step keeps that agreement, the capacity and exactness, any call refused |
| AccessList.RunSound | internal/meshcorehost/table.go:227-593 | over every run, any call refused, each live access entry has its row, with its role, grant and guard, and the table is within capacity; exact if no load skipped a row |
| AccessList.StepFresh | internal/protocol/meshcore/path.go:64-81 | every step keeps every other row equal to the whole persisted entry, the keys whose route was refused excepted |
| AccessList.RunFresh | internal/protocol/meshcore/path.go:64-81 | so does every run |
| AccessList.StaleMeans | internal/protocol/meshcore/path.go:64-81 | the excepted keys are exactly those whose last unsaved route no durable write of theirs and no restart has followed |
| AccessList.UnsavedIsStale | internal/protocol/meshcore/path.go:64-81 | a refused route leaves the row behind the entry exactly when it changed the route or the instant of activity |
| AccessList.RowsAreLive | internal/meshcorehost/table.go:227-232 | in an exact state the stored rows are the live access entries and nothing else, whole but for the excepted keys, which agree in role, grant and guard |
| AccessList.LoadRebuilds | internal/meshcorehost/table.go:297-321 | a load that skips no access row rebuilds exactly the stored access rows |
| AccessList.CrashRebuilds | internal/meshcorehost/table.go:338-373 | whatever routes were lost before, a crash at any point of a step, then a load that skips nothing, rebuilds every entry with its role, grant and guard from before the step or from after it, and whole but for the keys then excepted |
| AccessList.CrashKeepsKey | internal/meshcorehost/table.go:297-321 | whatever any load skipped: a key that comes back after a crash has the role, grant and guard it had on the side of the step that reached the disk, and is whole unless excepted |
| AccessList.CrashSeatsKey | internal/meshcorehost/table.go:304-311 | after a crash an access entry whose secret derives comes back, or the table is full |
| AccessList.SortedForLoad | internal/meshcorehost/table.go:283-296 | the required rows count what they should, and rows sorted for a load are all the rows, required first, each part as listed |
| AccessList.FreshestAreKept | internal/confdb/acl.go:29-43 | beside an unrequired row it kept, a full load left out none it could have seated that is required, and none active later but for those in the same second whose fraction goes on from the kept row's digits |
| AccessList.SortsBySecond | internal/confdb/acl.go:36-43 | a row listed before another was active no earlier a second than it |
| AccessList.OlderFirstExactly | internal/confdb/acl.go:36-43 | of two instants the text of the older sorts as the fresher exactly when both fall in one second and its fraction's digits, trailing zeros dropped, begin the newer's; no two instants have one text |
| AccessList.SortsExactly | internal/confdb/acl.go:36-43 | one row is listed before another exactly when it was active later, those pairs reversed, or at the same instant under the lower key |
| AccessList.WithinASecondTextDecides | internal/confdb/acl.go:36-43 | such a pair: half a second past is listed before fifty-one hundredths |
| AccessList.ExactFits | internal/meshcorehost/table.go:304-311 | under one policy an exact store is loaded whole exactly when every key's secret still derives |
| AccessList.LoadSeatsRequired | internal/meshcorehost/table.go:283-321 | every required access row whose secret derives is seated by a load that succeeds |
| AccessList.LoadSeatsAll | internal/meshcorehost/table.go:297-321 | with places and secrets for all, every access row is seated |
| AccessList.CleanedAll | internal/meshcorehost/table.go:298-303 | loading deletes exactly the legacy guest rows |
| AccessList.AdmittedPasses | internal/meshcorehost/login.go:66-97 | an admission is for the sender's own key, and past its guard |
| AccessList.GuardForward | internal/meshcorehost/login.go:91-93 | while a key is seated no step lowers its guard; no timestamp below it moves it, and only one past it acts |
| AccessList.MovesBecomesGuard | internal/meshcorehost/table.go:249-263 | the timestamp of a login, a request, a command or a post that was taken is the guard afterwards |
| AccessList.MovesPasses | internal/application/meshcore/room/members.go:319-322 | what is taken is at the guard or past it, and past it when it acts |
| AccessList.GuardOverRun | internal/meshcorehost/table.go:249-263 | the guard of a key that stays never falls, across logins, requests, commands, posts, grants, closes, expiries, refusals and restarts |
| AccessList.NoTimestampActsTwice | internal/meshcorehost/login.go:66-97 | the timestamps taken for a key that stays never fall over whole runs, and a login, a relay's request or a command run is strictly later than everything taken before it |
| AccessList.EqualIsTakenAgain | internal/application/meshcore/room/members.go:408-414 | at the guard's own timestamp every door but a relay's request takes a frame again, and none of those acts by it |
| AccessList.KeptOverRun | internal/application/meshcore/room/members.go:324-328 | from a post that was kept on, the timestamp last kept stands between that post and the guard; across restarts, in a room whose history persists |
| AccessList.NoPostKeptTwice | internal/application/meshcore/room/members.go:324-375 | over any run in which its author keeps access, and which crosses a restart only if the room's history persists, the posts kept have strictly increasing timestamps |
| AccessList.RestartForgetsPosts | internal/application/meshcore/room/posts.go:95-98 | without that history, after a restart a member's post at the guard can be kept, again or not, exactly when the guard is not zero |
| AccessList.EqualPostIsKept | internal/application/meshcore/room/members.go:319-375 | a post can be kept exactly when it is past the guard, or at it and not the one last kept |
| AccessList.LeavesOnlySo | internal/meshcorehost/table.go:338-393 | an access entry leaves only by removal, its own demotion, an eviction it was not spared from, or a restart that could not seat it |
| AccessList.DefaultPolicySpares | internal/meshcorehost/table.go:211-216 | under the default policy no newcomer takes an access entry's place |
| AccessList.AccessIsKept | internal/meshcorehost/table.go:211-216 | over any run under it, an entry nobody removes or demotes keeps its seat, and its guard never falls |
| AccessList.RoomKeepsItsOwn | internal/application/meshcore/room/room.go:436-438 | in a room an administrator is never unseated, and only a member unseats a member |
| AccessList.StoredGuardBinds | internal/meshcorehost/table.go:249-263 | for a seated access entry nothing before the stored guard is taken, and nothing at it acts |
| AccessList.LetInExactly | internal/meshcorehost/login.go:66-97 | any login is let in exactly when its word opens and, if the key is seated, it is past the guard the table holds, or else it is past zero and a place is free or unspared |
| AccessList.SkippedGuardIsLost | internal/meshcorehost/table.go:350-369 | a login that leaves the key with access writes its own timestamp over whatever guard was stored |
| AccessList.GuestLeavesRow | internal/meshcorehost/table.go:350-373 | a guest's login over a row no access entry stands for leaves that row as it was, and the table holds the login's guard and not the row's |
| AccessList.ReplayAfterGuest | internal/meshcorehost/login.go:91-93 | after it, a login at or before the stored guard is let in exactly when it is later than the guest's |
| AccessList.ReplayOnlyOfSkipped | internal/meshcorehost/table.go:304-311 | a login at or before the stored guard is let in exactly when the key is seated with an older guard, or is not seated and a place is free or unspared; never over a seated access entry |
| AccessList.GrantWritesLiveGuard | internal/meshcorehost/table.go:574-589 | a grant writes the guard the table holds, zero for a key it does not hold; for a held key the stored guard is unchanged |
| AccessList.GrantGives | internal/meshcorehost/table.go:556-593 | a grant leaves the entry with exactly the permissions given, marked as granted, its guard, route, budget and conversation as they were; a stranger's are blank |
| AccessList.CloseLeaves | internal/meshcorehost/table.go:426-444 | a close drops a guest, and leaves an access entry its permissions, grant, guard and secret, without its route and closed |
| AccessList.ClosedIsRefused | internal/meshcorehost/table.go:426-444 | a closed entry is served nothing and taught nothing; only its own login opens it, or a restart, which remembers no closing |
| AccessList.DoorsTake | internal/protocol/meshcore/command.go:91-147 | which doors answer a session: none that is closed or whose guard is past the frame; a relay's request must be past the guard, and its command line an administrator's |
| AccessList.AskLeaves | internal/protocol/meshcore/session.go:202-236 | a frame taken moves the guard and the activity and nothing else of the entry but its budget: a room's request is always charged, a relay's when it has no route home, a post never |
| AccessList.ChargeLeaves | internal/protocol/meshcore/command.go:98-129 | a budget charged without service is charged and nothing else |
| AccessList.LearnLeaves | internal/protocol/meshcore/path.go:64-81 | a route taught is the entry's from then on, and nobody else's; the disk has it when the save was taken |
| AccessList.ExpiryLeaves | internal/meshcorehost/table.go:529-543 | a guest silent for the idle time goes, anybody else so silent stops being live, nobody else changes, and the disk is not touched |
| AccessList.RestartRemembers | internal/meshcorehost/table.go:297-321 | what a restart remembers of an entry: everything its row holds, and nothing of the conversation |
| AccessList.RowRemembers | internal/meshcorehost/table.go:110-125 | what a row remembers of an entry: its role, grant and guard always, its route and activity unless a route of it was lost to the disk |
| ConnectionStory.Ladder.Handle | internal/mqtt/client.go:102-118 | each callback takes the story one step, and says nothing else |
| ConnectionStory.Ladder.HandleConnecting | internal/mqtt/client.go:120-139 | a first dial is told at once; a round is told, held back until the loss is told, or is no news |
| ConnectionStory.Ladder.HandleFailed | internal/mqtt/client.go:141-149 | a failure is told at once or held behind the pending reconnection |
| ConnectionStory.Ladder.HandleEstablished | internal/mqtt/client.go:151-165 | a Connected is told, held, or consumed as one already told for it |
| ConnectionStory.Ladder.HandleLost | internal/mqtt/client.go:167-191 | a Lost tells what it was missing before it and releases what was held after it, in order |
| ConnectionStory.Ladder.EmitConnected | internal/mqtt/client.go:193-202 | only the first session of the counter's cycle is "connected" |
| ConnectionStory.AnyOrderIsLegal | internal/mqtt/client.go:102-202 | for any order of callbacks connected and lost alternate, reconnecting is never told while connected, and the failures told and pending are those received, in order |
| ConnectionStory.TimelineIsLegal | internal/mqtt/client.go:66-202 | the same of every timeline from the start, the failures pending only behind a pending reconnection |
| ConnectionStory.PostureFollows | internal/mqtt/client.go:120-202 | under the bound on lateness the story's counters are a function of what really happened and what still waits to run |
| ConnectionStory.Converges | internal/mqtt/client.go:120-202 | once every callback has run, the told link is the real one, both counters are zero, nothing is held, and the sessions told are those there were |
| ConnectionStory.LateBeyondTheBound | internal/mqtt/client.go:167-191 | a run that keeps the bound up to one callback, which alone breaks it, ends with a story wrong for good: connected, when the link is down |
| ConnectionStory.ToldIsWhatHappened | internal/mqtt/client.go:120-202 | what was told, with what is still held back after it, is what happened, event by event in its own order: dials, sessions, losses, rounds and failures; with nothing waiting it was all told |
| ConnectionStory.MilestonesAreTold | internal/mqtt/client.go:120-202 | the same of dials, sessions, losses and rounds wherever failures fall |
| ConnectionStory.ReturnsAreAnnounced | internal/mqtt/client.go:120-202 | every "reconnected" has a "reconnecting" between it and the last "lost"; with no callback waiting and the link down, one stands after the last "lost" exactly when a round has begun |
| ConnectionStory.CausesAreTheirOwn | internal/mqtt/client.go:167-191 | every told "lost" carries the cause its own callback brought, in the order they ran |
| LiveGate.Keeps | cmd/lotor/observers.go:659-690 | every enabled step keeps the gate's invariant, and the log only grows |
| LiveGate.RunKeeps | cmd/lotor/observers.go:443-541 | so does every run |
| LiveGate.TimelineIsSealed | cmd/lotor/observers.go:482-541 | under every interleaving the log is started, that incarnation's own words, stopped, over and over |
| LiveGate.NothingAfterStop | cmd/lotor/observers.go:523-541 | after its stop an incarnation never appears again |
| LiveGate.SpeaksAfterStart | cmd/lotor/observers.go:482-499 | a word is published only after its own incarnation's start |
| LiveGate.GateIsUp | cmd/lotor/observers.go:482-541 | an incarnation's gate lets callbacks publish exactly while that incarnation is the one running |
| LiveGate.CallbackSpeaks | cmd/lotor/observers.go:659-690 | a callback that finds its gate free can take it, check, say and let go, and publishes its word exactly when its own incarnation is the one running |
| LiveGate.AnyoneMayCall | cmd/lotor/observers.go:659-690 | a goroutine may call back for any incarnation that ever had a client, and then waits |
| LiveGate.BarrierWaits | cmd/lotor/observers.go:523-541 | a stop can begin exactly when no callback of the running incarnation holds its gate |
| LiveGate.OneLife | cmd/lotor/observers.go:482-541 | an idle observer can always be started and stopped, told as those two events; a failed dial and a refusal to start are told as down |
| Observers.Manager.ObserverRelay | cmd/lotor/observers.go:123-136 | the named relay, or the only one, or exactly why there is none |
| Observers.Manager.StartObserver | cmd/lotor/observers.go:443-509 | a slot is filled with what a fresh start gives it, running or with its cause |
| Observers.Manager.StopObserver | cmd/lotor/observers.go:523-541 | one observer stops, and no other is touched |
| Observers.Manager.ObserverDown | cmd/lotor/observers.go:514-520 | the cause is recorded for one observer, and no other is touched |
| Observers.Manager.BounceObserver | cmd/lotor/observers.go:585-588 | one slot becomes what a fresh start gives it |
| Observers.Manager.Start | cmd/lotor/manager.go:189-213 | coming up leaves every slot as the file says |
| Observers.Manager.ReconcileObservers | cmd/lotor/observers.go:550-580 | every slot, up or down, becomes what a fresh start gives it |
| Observers.Manager.BounceObserversOf | cmd/lotor/observers.go:593-604 | exactly the observers up on one relay are reread |
| Observers.Manager.CreateRelay | cmd/lotor/manager.go:2007-2015 | a new relay rereads every observer |
| Observers.Manager.RemoveRelay | cmd/lotor/manager.go:2596-2610 | a removed relay rereads every observer |
| Observers.Manager.RebuildRelay | cmd/lotor/manager.go:1693-1700 | a relay restarted in place rereads exactly those up on it |
| Observers.Manager.CreateObserver | cmd/lotor/manager.go:2025-2027 | a new observer's slot is a fresh start's |
| Observers.Manager.MutateObserver | cmd/lotor/manager.go:1881-1886 | a changed or parked observer's slot is a fresh start's |
| Observers.Manager.RemoveObserver | cmd/lotor/manager.go:2611-2614 | a removed observer leaves nothing behind |
| Observers.Manager.Apply | cmd/lotor/observers.go:443-604 | every operation the manager takes follows the one law of which slots are reread |
| Observers.FollowsSound | cmd/lotor/observers.go:550-604 | every operation keeps each live observer on the relay its file names, and each down one with a cause that fits |
| Observers.FreshAfter | cmd/lotor/observers.go:593-604 | after an operation the table is what a fresh start would build exactly when it was no blind restart |
| Observers.SlotSays | cmd/lotor/observers.go:443-509 | a fresh start shows exactly what is so: the relay an enabled observer watches and runs on, or the first thing wrong with it, named by its own case |
| Observers.FreshSays | cmd/lotor/observers.go:443-520 | so in any state a fresh start would build: who is live, on which relay, and every recorded cause, read off the relays and the file |
| Observers.RunStaysFresh | cmd/lotor/observers.go:443-604 | over any run without one, live observers, their relays and recorded causes equal a fresh start's |
| Observers.RunStaysFreshWithIdentities | cmd/lotor/observers.go:123-136 | in particular over every run in which relays assemble with an identity |
| Observers.TopologyHeals | cmd/lotor/observers.go:550-580 | the next relay added or removed makes it fresh again, whatever came before |
| Telnet.Escaper.Write | internal/cli/telnet.go:183-201 | every application byte reaches the wire escaped, in order; a short write reports only whole application bytes |
| Telnet.Escaper.WriteSegment | internal/cli/telnet.go:183-201 | one segment reaches the wire whole or is cut, and the count says which |
| Telnet.SendTerminalSize | internal/cli/telnet.go:208-221 | one clamped, escaped size frame reaches the wire, cut only by the connection (section 2 of RFC 1073) |
| Telnet.Stripper.Read | internal/cli/telnet.go:253-272 | a read yields exactly the stripped bytes of what came off the wire |
| Telnet.Stripper.Step | internal/cli/telnet.go:276-321 | one byte takes the state machine one step: text is delivered, and a negotiation, a command or a block is dropped whole |
| Telnet.Stripper.ApplySize | internal/cli/telnet.go:323-333 | only a complete size block changes the size held |
| Telnet.Stripper.SubByte | internal/cli/telnet.go:335-342 | a block keeps its first bytes and knows when there were more |
| Telnet.ConsoleWriter.Write | cmd/lotor/console.go:119-123 | one write is one frame on the wire |
| Telnet.ConsoleWriter.TerminalSize | cmd/lotor/console.go:125-129 | one announcement is one frame on the wire |
| Telnet.ConsoleWriter.Run | cmd/lotor/console.go:131-149 | only sizes that differ from the last are announced, until one fails |
| Telnet.EscapedStripsBack | internal/cli/telnet.go:183-321 | escaped bytes strip back to themselves and leave no trace in the stripper |
| Telnet.EscapedAbsorbed | internal/cli/telnet.go:276-342 | inside a block escaped bytes are absorbed as the bytes they stand for |
| Telnet.SizeFrameApplies | internal/cli/telnet.go:208-333 | one size frame sets the size to the one announced, clamped, and delivers nothing |
| Telnet.NegotiationIsDropped | internal/cli/telnet.go:276-321 | each of the four negotiation commands with any option delivers nothing and leaves the stripper as it was |
| Telnet.CommandIsDropped | internal/cli/telnet.go:276-321 | so does every two-byte command below them |
| Telnet.BlockReads | internal/cli/telnet.go:276-342 | a complete block delivers nothing, and changes the size held only when it is a five-byte size block |
| Telnet.GarbledReads | internal/cli/telnet.go:276-342 | a block with a stray command in it delivers nothing to its end, and is no size whatever it holds |
| Telnet.FramesRoundTrip | internal/cli/telnet.go:183-342 | any interleaving of writes, size frames, negotiations, commands, blocks whole and broken is stripped back to exactly the application bytes, every size announced once, in order |
| Telnet.ChunksDoNotMatter | internal/cli/telnet.go:253-272 | where the wire is split into reads changes nothing |
| Telnet.SessionRoundTrip | internal/cli/telnet.go:183-342 | the whole channel: the application bytes, and the last size announced, clamped to sixteen bits |
| Telnet.CutWireDeliversPrefix | internal/cli/telnet.go:253-342 | a wire cut anywhere delivers a prefix and no byte of a frame |
| Utf8.RunesOfEncode | internal/cli/edit_buffer.go:58-63 | reading back the bytes of a text gives the text (section 3 of RFC 3629) |
| Utf8.EncodeOfRunes | internal/cli/edit_buffer.go:111-133 | valid bytes are the encoding of their runes, so valid text survives the draft byte for byte |
| Utf8.DecodeEncodeRune | internal/cli/editor_input.go:50-66 | one encoded rune decodes to itself, whatever follows |
| Utf8.EncodeDecodeRune | internal/cli/editor_input.go:50-66 | a well-formed sequence is the encoding of the rune it decodes to |
| Utf8.EncodeInjective | internal/cli/edit_buffer.go:27-33 | two texts with the same bytes are the same text |
| Utf8.Rfc3629 | internal/cli/editor_input.go:50-84 | a rune takes the bytes, marks and bits the table gives it (section 3 of RFC 3629) |
| Utf8.DecodesExactly | internal/cli/editor_input.go:50-66 | bytes decode to the rune whose encoding they begin with, and to U+FFFD, one byte wide, when they begin with none |
| Utf8.RunesExactly | internal/cli/edit_buffer.go:58-63 | a byte string is read rune by rune where runes stand, and byte by byte where none does |
| Utf8.ValidExactly | internal/cli/edit_buffer.go:111-115 | the valid byte strings are the encodings of texts, and no others |
| InputDecoder.Decoder.Decode | internal/cli/editor_input.go:40-48 | one byte takes the decoder one step and yields its events |
| InputDecoder.Decoder.DecodeContinuation | internal/cli/editor_input.go:50-66 | mid-rune, a byte completes the rune, breaks it, or waits |
| InputDecoder.Decoder.DecodeBegin | internal/cli/editor_input.go:68-84 | between runes, a byte is a control, a rune, or the start of one |
| InputDecoder.Decoder.DecodeEscape | internal/cli/editor_input.go:86-113 | mid-sequence, a byte ends it, extends it, or is a control that breaks it |
| InputDecoder.Decoder.Finish | internal/cli/editor_input.go:133-144 | the end of input yields what was held |
| InputDecoder.FeedValid | internal/cli/editor_input.go:28-159 | every reachable state holds a proper prefix of a rune or of a sequence, never both |
| InputDecoder.TokenRoundTrip | internal/cli/editor_input.go:86-129 | one character, key sequence, Escape with a character, broken sequence or malformed byte is exactly its events, byte for byte as the terminal sends them |
| InputDecoder.StreamRoundTrip | internal/cli/editor_input.go:40-159 | any stream of them, well-formed or not, comes out as exactly its events, in order |
| InputDecoder.TextRoundTrip | internal/cli/editor_input.go:40-84 | the encoding of any text without Escape comes out as exactly its runes and controls |
| InputDecoder.KeyAlwaysComesOut | internal/cli/editor_input.go:40-113 | from every reachable state a control comes out as that control, last, after at most one event |
| InputDecoder.ResynchronisesAfterKey | internal/cli/editor_input.go:40-113 | whatever came before a control, what follows it is decoded as if nothing had |
| EditBuffers.EditBuffer.Replace | internal/cli/edit_buffer.go:38-47 | a rune span is replaced, or the draft is left as it was exactly when the result is too long; byte count, limit and cursor boundary hold |
| EditBuffers.EditBuffer.SnapForward | internal/cli/edit_buffer.go:94-107 | the cursor moves to the first cluster boundary at or after it |
| EditBuffers.EditBuffer.Insert | internal/cli/edit_buffer.go:49-51 | one rune goes in at the cursor exactly when it fits, and the cursor ends outside the cluster it joined |
| EditBuffers.EditBuffer.Remove | internal/cli/edit_buffer.go:53-56 | a deletion is never refused |
| EditBuffers.EditBuffer.SetText | internal/cli/edit_buffer.go:58-63 | the line becomes the text, bytes and all when it is valid, or stays exactly when it is too long |
| EditBuffers.EditBuffer.PrevBoundary | internal/cli/edit_buffer.go:67-78 | the last boundary before the cursor |
| EditBuffers.EditBuffer.NextBoundary | internal/cli/edit_buffer.go:80-90 | the first boundary past the cursor |
| EditBuffers.EditBuffer.ReplaceBytes | internal/cli/edit_buffer.go:111-133 | exactly the byte-string splice, or nothing, exactly when an offset splits a rune, the result is too long or the text is not UTF-8 |
| EditBuffers.EditBuffer.RunesAt | internal/cli/edit_buffer.go:116-131 | the rune indices of two byte offsets, found exactly when both stand between runes |
| EditBuffers.EditBuffer.Backspace | internal/cli/editor.go:356-362 | one whole displayed grapheme before the cursor goes |
| EditBuffers.EditBuffer.Delete | internal/cli/editor.go:130-134 | one whole displayed grapheme after the cursor goes |
| EditBuffers.EditBuffer.Left | internal/cli/editor.go:432-435 | the cursor moves back over one grapheme |
| EditBuffers.EditBuffer.Right | internal/cli/editor.go:427-430 | the cursor moves over one grapheme |
| EditBuffers.EditBuffer.KillToStart | internal/cli/editor.go:207-211 | exactly the text before the cursor goes |
| EditBuffers.EditBuffer.KillToEnd | internal/cli/editor.go:212-216 | exactly the text after the cursor goes |
| EditBuffers.EditBuffer.KillWord | internal/cli/editor.go:366-379 | exactly the word before the cursor and the spaces after it go |
| EditBuffers.KilledWord | internal/cli/editor.go:366-379 | of a line read as head, word and spaces, that word and those spaces are the ones meant, and no others |
| EditBuffers.EditBuffer.RuneBytes | internal/cli/edit_buffer.go:27-33 | the byte count is the length of the encoding |
| Utf8.OnRuneIffNoContinuation | internal/cli/edit_buffer.go:111-133 | an offset stands between runes exactly when no continuation byte stands there |
| Utf8.SpliceBytes | internal/cli/edit_buffer.go:38-47 | replacing runes is splicing bytes |
| Utf8.RunesGrow | internal/cli/edit_buffer.go:58-63 | reading bytes as runes never makes fewer bytes |
| Layout.LayoutBuilder.Add | internal/cli/layout.go:51-89 | one cluster more is one cluster more on the page, in strings, position, style and cursor |
| Layout.LayoutBuilder.AddGlyph | internal/cli/layout.go:72-88 | a glyph is drawn whole, on the next row when it does not fit, as one "?" when it never could |
| Layout.LayoutBuilder.Flush | internal/cli/layout.go:91-94 | the row in hand is the last row |
| Layout.LayoutText | internal/cli/layout.go:25-38 | the rows, the cursor and the end are the page's, and the cursor is on it |
| Layout.EveryRowIsRight | internal/cli/layout.go:25-89 | no row exceeds the width; shown alone it draws its glyphs side by side, in the colours the text gives them, each as it is or as one "?" cell when it is wider than the screen; it ends only at a newline, or before a glyph whose cells would pass the width |
| Layout.ClusterAdds | internal/cli/layout.go:51-89 | a colour sequence takes no bytes and joins the colours in force, either reset clears them, either newline is no glyph, everything else is one |
| Layout.RowsRejoin | internal/cli/layout.go:25-89 | read row by row, the glyphs are exactly the text's, in order |
| Layout.CursorIsWhereDrawn | internal/cli/layout.go:61-84 | the cursor's cell is where the glyph that holds its byte is drawn, or where the row of the newline that holds it ends |
| Layout.HolderHolds | internal/cli/layout.go:81-83 | the first cluster whose bytes reach past an offset holds it, or the offset is past the text |
| Layout.EveryPageIsDrawn | internal/cli/layout.go:51-89 | colours and columns hold after every cluster |
| Layout.EveryPageIsParted | internal/cli/layout.go:51-89 | after every cluster each row holds exactly the glyphs from its start to its break |
| Layout.EverythingStands | internal/cli/layout.go:51-89 | after every cluster everything drawn is still where it was drawn |
| Layout.PaintsCarry | internal/cli/layout.go:62-67 | a row begun with the style in force has exactly that style in force |
| Layout.EditLayout.View | internal/cli/layout.go:99-110 | min(height, rows) consecutive rows that contain the cursor, moved no further than they must |
| Lexer.LexLine | internal/cli/lexer.go:19-53 | the scanner's words, with their bytes and columns |
| Lexer.ScanConcat | internal/cli/lexer.go:19-53 | a line is scanned the same in two parts |
| Lexer.LexSpans | internal/cli/lexer.go:19-53 | a line is its words and the blanks between them, each word's bytes at its offsets; only the last can end inside a quote, exactly when the quotes are odd in number |
| Lexer.WordBoundary | internal/cli/lexer.go:78-84 | any byte offset, held to the line and back to the last rune boundary at or before it |
| Lexer.InsideQuoteAt | internal/cli/lexer.go:71-75 | for a cursor at any byte offset, on the line or off it, true exactly when the quotes among the whole runes before it are odd in number |
| Base64.RoundTrip | internal/cli/tree.go:597-611 | decoding an encoding gives the bytes back (section 4 of RFC 4648) |
| Base64.EncodedAlphabet | internal/cli/tree.go:905-909 | every character of an encoding is of the alphabet or the padding, so it rides a command line unquoted |
| Base64.AlphabetIs | internal/cli/tree.go:905-909 | the alphabet, in its order (table 1 of RFC 4648) |
| Base64.QuantumBits | internal/cli/tree.go:905-909 | the six-bit groups of a quantum are the bits of its bytes, in order, padded as one or two bytes need |
| Base64.DecodesShaped | internal/cli/tree.go:597-611 | a text without line breaks is read exactly when it is whole quanta of the alphabet, padded at its very end if at all |
| Base64.RereadsAs | internal/cli/tree.go:597-611 | and what it is read as encodes to it again, but for the bits under the padding |
| Base64.BreakIgnored | internal/cli/tree.go:597-611 | a line break anywhere changes nothing of what is read |
| ExportText.EmitObject | internal/cli/tree.go:889-910 | one line, whichever carrier: inline when no value holds a quote or a character a terminal cannot show, base64 otherwise |
| ExportText.CarrierExactly | internal/cli/tree.go:889-959 | the verb on the line is the plain one exactly when every character of every value can be shown and is no quote, and its base64 form otherwise; on a plain line a value stands as it is, or between two quotes when it holds a space or a tab; the words stand one space apart |
| ExportText.ExportLine | internal/cli/tree.go:942-959 | context, verb and name in the grammar's order, then the pairs |
| ExportText.Decode64Pairs | internal/cli/tree.go:597-611 | every pair decoded in order to its own bytes, whatever they are, or the line refused |
| ExportText.AttrPairs | internal/cli/tree.go:552-562 | the pairs as a map in which the last of a repeated key stands, or the line refused |
| ExportText.LexLineText | internal/cli/tree.go:942-959 | the words of an exported line are its head and its pairs, whichever carrier they rode |
| ExportText.ObjectWords | internal/cli/tree.go:889-959 | the arguments of an exported line read as exactly the pairs written, both carriers |
| ExportText.ReadsExactly | internal/cli/tree.go:505-592 | exactly which lines of the exported shape are taken as a creation or a mutation, whose, and of which pairs |
| ExportText.CreationRoundTrip | internal/cli/tree.go:889-959 | for any plain keys and any Unicode values the creation reads back whole and in order, exactly when its verb names no instance and it is not named "?" |
| ExportText.MutationRoundTrip | internal/cli/tree.go:889-959 | so does the mutation, exactly when the instance is there and not named ".." |
| ExportText.SwitchRoundTrip | internal/cli/tree.go:861-863 | the switch back reads back exactly when the profile's name is plain and the instance can be reached |
| ExportText.InlineCarriesIffNoQuote | internal/cli/tree.go:992-1019 | the inline form carries a value exactly when it holds no quote |
| ExportText.ExportIsShown | internal/cli/tree.go:998-1019 | an exported line holds nothing a terminal would act on |
| Ordering.Sorted | internal/cli/tree.go:868-879 | the keys of a map, each once, ascending in byte order |
| Ordering.BeforeTransitive | internal/meshcorehost/table.go:402-404 | byte order is transitive, so one pass finds the lowest key |
| Ordering.BeforeTotal | internal/meshcorehost/table.go:402-404 | any two keys compare |
| Ordering.BeforeExactly | internal/meshcorehost/table.go:402-404 | the first place where two strings part decides, and a prefix comes first |
| Ordering.LessTotal | internal/cli/tree.go:856 | any two names compare, and only one way |
| Layers.Resolve | internal/config/layer.go:37-76 | resolves exactly when every profile named is known and `custom` is not a preset, to the preset under its own scope, each key traced once, in key order, to where it came from; otherwise the error names what was unknown |
| Layers.Patch | internal/config/layer.go:62-73 | overriding keeps one trace per key, overwritten in place when shadowed |
| Layers.SortTraces | internal/config/layer.go:74 | the same traces, in key order |
| Layers.Draft.SetOverride | cmd/lotor/manager.go:3184-3198 | one attribute lands in the live profile's scope, and what it held is reported |
| Layers.Draft.UnsetOverride | cmd/lotor/manager.go:3202-3214 | one override comes off, or is refused exactly when the live scope does not hold it |
| Layers.Draft.SetAttr | cmd/lotor/manager.go:2986-3009 | one attribute lands on the profile, a field or the live scope; refused exactly for what the object is |
| Layers.Draft.UnsetAttr | cmd/lotor/manager.go:3075-3095 | an optional field or an override comes off; refused for the rest |
| Layers.OrderedAttrs | cmd/lotor/manager.go:2265-2277 | every key once, the profile first and the others sorted |
| Layers.ApplyInstanceChanges | cmd/lotor/manager.go:2953-2974 | a mutation line has one meaning whatever order its keys came in: the profile, then everything else in its scope, then what it takes off |
| Layers.CreateHosted | cmd/lotor/manager.go:2134-2168 | a creation line has one meaning whatever order the map yields it in |
| Layers.MutatedOnce | cmd/lotor/manager.go:2953-2974 | attribute by attribute is the whole line, as long as the profile was first |
| Layers.WrittenOnce | cmd/lotor/manager.go:3184-3198 | override by override is all of them at once |
| Layers.UnsetShowsPreset | cmd/lotor/manager.go:3200-3214 | an override taken off lets the preset's value show through and changes nothing else resolved |
| Layers.ResolvesExactly | internal/config/layer.go:37-76 | key by key: the live scope's override, or else the preset of the same name; and exactly when it resolves at all |
| Layers.TraceSays | internal/config/layer.go:54-76 | a trace names the override exactly when the live scope holds that value, and the preset exactly when the preset shows through |
| Layers.LineLands | cmd/lotor/manager.go:2953-3009 | attribute by attribute, where a mutation line lands, and that nothing else moves |
| Layers.ScopesAppear | cmd/lotor/manager.go:3184-3198 | no scope comes to be but the live one, and that only by something to hold |
| Layers.CreatedFromNothing | cmd/lotor/manager.go:2134-2168 | a creation is the mutation of an object that holds nothing |
| Layers.TakenOff | cmd/lotor/manager.go:3075-3095 | what an attribute taken off leaves: the field gone, or the live scope without it, all else as it was; and exactly when there is nothing to take |
| ExportReplay.ExportInstance | internal/cli/tree.go:807-864 | one creation with the active scope, one line for every other scope that holds anything, in order of scope, and a switch back exactly when there were others; on each line the attributes in order |
| ExportReplay.ScopePairs | internal/cli/tree.go:868-879 | every key of a scope once with its value, sorted |
| ExportReplay.OthersOf | internal/cli/tree.go:849-855 | every other scope that holds anything, once, sorted |
| ExportReplay.OneExport | internal/cli/tree.go:849-878 | an object has one export: printed twice it reads the same, whatever order the maps yield |
| ExportReplay.CreatedWellFormed | cmd/lotor/manager.go:2134-2168 | every creation leaves fields and overrides apart |
| ExportReplay.MutatedWellFormed | cmd/lotor/manager.go:2953-2974 | so does every mutation |
| ExportReplay.NormalizedResolves | internal/config/layer.go:37-76 | what an export describes resolves to the object's own effective set under every catalog; the object itself resolves exactly when, besides, the scopes that hold nothing are known |
| ExportReplay.CreatedFirst | internal/cli/tree.go:832-847 | the first line makes the object with its active scope |
| ExportReplay.MutatedNext | internal/cli/tree.go:857-860 | each scope's line adds exactly that scope |
| ExportReplay.MutatedBack | internal/cli/tree.go:861-863 | the last line restores the profile and no more |
| ExportReplay.Lost | internal/cli/tree.go:857-860 | a scope whose line was refused never comes back |
| ExportReplay.ReplayRebuilds | internal/cli/tree.go:807-864 | the commands rebuild exactly the object exactly when the creation is complete and every object on the way is accepted |
| ExportReplay.PasteRebuilds | internal/cli/tree.go:823-864 | so does the text, lexed and decoded by its verbs, beside whatever instances there are |
| ExportReplay.ExportThenPaste | internal/cli/tree.go:807-864 | from end to end: what an export prints, pasted where the object is not, brings back an object that resolves, if its names fit the grammar |
| ExportReplay.StepsResolve | internal/config/layer.go:37-76 | an object that resolves, resolves at every step of its own replay |
| Migration.Store.Migrate | internal/confdb/migrate.go:106-155 | an attempt, cut short anywhere, is a prefix of the ladder with its stamp, and writes its one backup before its first rung; a future shape is refused untouched; it ends short only by something that did go wrong, and names it |
| Migration.Store.Climb | internal/confdb/migrate.go:142-153 | the rungs above the stamp, in order, each whole, until one fails |
| Migration.Store.RunMigration | internal/confdb/migrate.go:176-191 | a rung and its stamp land together or not at all |
| Migration.LiftResumes | internal/confdb/migrate.go:142-153 | climbing in two goes is climbing once |
| Migration.LiftShape | internal/confdb/migrate.go:80-91 | the stamp says how far the content has come |
| Migration.LiftExactly | internal/confdb/migrate.go:80-153 | a climb runs exactly the rungs between the two shapes, a store without a stamp being of shape 1, and stamps the one it reached |
| Migration.HistoryIsPrefix | internal/confdb/migrate.go:106-191 | after any attempts by any binaries the store is the original with exactly the rungs up to its stamp, once each, in order |
| Migration.StampGrows | internal/confdb/migrate.go:176-191 | over any history the stamp never falls |
| Migration.BackupsStay | internal/confdb/migrate.go:118-141 | no attempt overwrites a backup |
| Migration.BackupPrecedesLift | internal/confdb/migrate.go:118-141 | an attempt that changed the store left a backup of the store as its binary first found it |
| Migration.RetriesResume | internal/confdb/migrate.go:106-155 | one binary's retries end with the ladder climbed once and the one backup the original |
| Migration.FutureRefused | internal/confdb/migrate.go:108-117 | over any history of attempts, once the stamp has passed what a binary knows, no later attempt by it changes the disk or succeeds |
| NameHealing.CanonicalIsValid | internal/config/config.go:379-421 | the canonical form of any name is a valid one, and a nonempty name keeps its shape |
| NameHealing.ValidExactly | internal/config/config.go:379-421 | a name is valid exactly when it is not empty and every character can be shown and is none of space, tab, slash, quote and equals |
| NameHealing.CanonicalExactly | internal/config/config.go:379-421 | each character a name may not hold becomes a dash, and no name becomes "unnamed" |
| NameHealing.CandidateIs | cmd/lotor/migrations.go:274-285 | the first candidate is the canonical name, the n-th it, a dash and the number n |
| NameHealing.CandidatesDiffer | cmd/lotor/migrations.go:277-280 | no two numbered candidates are the same name |
| NameHealing.FreeName | cmd/lotor/migrations.go:274-285 | the search for a free name ends, with the first candidate nobody holds |
| NameHealing.Store.PlanNameRenames | cmd/lotor/migrations.go:243-287 | every invalid name and no other gets a valid one, distinct from every name there is and every other given; in the order listed, each the first candidate that neither a valid name nor an earlier rename has |
| NameHealing.Store.UpdateName | cmd/lotor/migrations.go:209-222 | one object changes its name, and only when the new one is free |
| NameHealing.Store.UpdateOwner | cmd/lotor/migrations.go:214-228 | a relay's rows move to its new name together, refused exactly when one of the new owner's has the same identity in its table: its id, its id or its place, or its owner alone |
| NameHealing.CollidesExactly | cmd/lotor/migrations.go:214-228 | which rows meet under one owner, table by table: two of one key, two of one id or one place, any two |
| NameHealing.Store.ApplyRename | cmd/lotor/migrations.go:208-230 | one rename moves one object, and a relay's rows in all three tables with it, exactly when no identity meets |
| NameHealing.Store.ApplyRenames | cmd/lotor/migrations.go:203-230 | the whole plan is applied exactly when no relay's rows meet rows already under its new name, and each row then stands under its owner's present name |
| NameHealing.Store.DropOrphanRuntime | cmd/lotor/migrations.go:454-468 | the rows whose relay no longer exists go, and no others |
| NameHealing.Store.Remove | internal/confdb/confdb.go:573-596 | a relay takes exactly its own rows with it, so none is ever left without one |
| NameHealing.RowsLeave | internal/confdb/confdb.go:573-596 | row by row, what a table loses with a relay, and what a drop of orphans leaves in it |
| NameHealing.CollidesAsBefore | cmd/lotor/migrations.go:214-228 | whether a rename is refused is decided by the rows as they were before the first one |
| NameHealing.RowsNext | cmd/lotor/migrations.go:214-228 | each rename moves exactly the rows of its own relay |
| NameHealing.RowsFollow | cmd/lotor/migrations.go:214-228 | when nothing is refused, every relay keeps exactly its own rows if and only if none was kept under a name given out |
| NameHealing.StrayTaken | cmd/lotor/migrations.go:214-228 | a row kept under a name given out is not its own relay's any more, or becomes the renamed one's |
| NameHealing.OwnedIsUnclaimed | cmd/lotor/migrations.go:454-468 | when every row has its relay, no rename is refused and no name given out has rows |
| NameHealing.StrayRefuses | cmd/lotor/migrations.go:214-228 | an input on which healing is refused: one session under a loose name and one of the same key under its canonical form |
| NameHealing.Store.MigrateInstanceNames | cmd/lotor/migrations.go:203-230 | refused exactly when rows meet under a name given out; otherwise the store is the healed one; with no row left without a relay it is never refused and every relay keeps exactly its own rows in all three tables |
| NameHealing.Store.RetargetNameReferences | cmd/lotor/migrations.go:293-316 | every relay's "radio" and every observer's "relay" is repointed, and nothing else |
| NameHealing.Store.RepointAttr | cmd/lotor/migrations.go:322-363 | one kind's references are repointed, objects without any untouched |
| NameHealing.RepointIn | cmd/lotor/migrations.go:367-379 | the reference moves at the top and in every override scope |
| NameHealing.Retarget | cmd/lotor/migrations.go:382-393 | one reference moves exactly when its target was renamed |
| NameHealing.RenameIsFree | cmd/lotor/migrations.go:203-230 | at every step the old name is there and the new one is not |
| NameHealing.RenameStep | cmd/lotor/migrations.go:203-230 | each update renames exactly its own object |
| NameHealing.RepointedRefs | cmd/lotor/migrations.go:367-393 | in every scope the reference names the target's new name, and every other attribute is as it was |
| NameHealing.NamesHealed | cmd/lotor/migrations.go:203-287 | afterwards every name is valid, no two objects share one, and valid names did not change |
| NameHealing.ReferencesFollow | cmd/lotor/migrations.go:293-393 | every reference, in all scopes, names the same object as before |
| NameHealing.HealedExactly | cmd/lotor/migrations.go:293-393 | a relay's "radio" names the same radio as before and an observer's "relay" the same relay, at the top and in every override scope; every other attribute, and every object of another kind, is as it was |
| NameHealing.DanglingReference | cmd/lotor/migrations.go:293-393 | a reference to nobody stays as it was, and names somebody exactly when a renamed object took that name |
| RateLimit.RateLimiter.Allow | internal/meshcorehost/limiter.go:21-31 | one event is admitted or not by the fixed window, and the window moves as it should |
| RateLimit.RateBound | internal/meshcorehost/limiter.go:21-31 | for any calls at nondecreasing times a span of one window admits at most twice the budget, and a budget that is not positive none |
| RateLimit.RateBoundOpened | internal/meshcorehost/limiter.go:21-31 | one fewer when an event opened the window now open |
| RateLimit.FreshRateBound | internal/meshcorehost/limiter.go:21-31 | so a fresh limiter never admits more than that |
| RateLimit.BoundIsReached | internal/meshcorehost/limiter.go:21-31 | for every positive budget and every window of at least two ticks some run admits exactly that many |

## Left out

- The packages behind the daemon that are not part of this model: MeshCore packet code, radio drivers, the update and sentinel services, schemas and value parsing. Shared secrets, doors, roles' words and presets are parameters.
- SQLite, YAML and JSON, Paho, sockets, files, locks and timers: stores are maps whose calls may refuse, transactions are atomic, clocks are integers in the zero time's nanoseconds, and a lock is a step of the state machine.
- Integer widths: timestamps, capacities and byte counts are unbounded, except the session counter of the connection story, which wraps at 32 bits, and terminal sizes, which are clamped to 16.
- AccessTables.Store.LoadSessions: of a stored time's text it models what decides the order, the second and then the fraction without its trailing zeros; dates and the other columns' encodings are not modelled.
- AccessTables.Store.ReplaceSession: does not model a room's cursors and receipts that leave in the same transaction.
- AccessTables.Table.Request: ends where the answer is composed, and `AccessTables.Table.Post` where the history takes the post or refuses it, which is a parameter; replies, acknowledgements, routes and packet opening are not modelled.
- ConnectionStory.Converges: keeps the bound on how late a callback may run, and fewer than 2^32 sessions.
- ConnectionStory.Ladder.Handle: the log lines it also writes are not modelled.
- LiveGate.TimelineIsSealed: is about what is published, in what order; the mutex is mutual exclusion alone, so it does not say when a waiting callback runs.
- Observers.Manager.StartObserver: a dial's outcome is fixed by the observer's configuration, and the store row behind an observer always reads.
- Telnet.ConsoleWriter.Run: the operating system's window-change signal is a list of sizes.
- EditBuffers.EditBuffer.Replace: grapheme rules are any segmentation into nonempty clusters; painting, history, search and completion are not modelled.
- Layout.LayoutText: starts from the clusters of the painted text; how the terminal library finds them and measures them is a parameter.
- Lexer.LexLine: the completion-side wrappers around it, and the trimming and length limit of a submitted line, are not modelled.
- ExportReplay.ExportInstance: the order of a line's attributes is that of an object whose layers resolve, and one whose layers do not prints its own attributes as they are declared, which the replay does not depend on; kinds without a profile, singletons and drawers are left out, and values are assumed to parse back from their rendering.
- Layers.CreateHosted: minting a key for identity=new, and the parsing of values, are not modelled.
- Layers.Draft.SetAttr: a transmit block's own attributes are fields like any other; a field left at its default and written out by an export comes back explicit.
- Migration.Store.Migrate: file permissions and the copying of the backup are single outcomes, done or not.
- Undo of a console line, completion listings, help, status views, colours and banners.
- Enumerations of verdicts and drop reasons, field validation, payload builders, release signing, `Seen`, `UniqueClock` and post pruning.
