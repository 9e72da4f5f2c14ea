# rathole: allocator, sessions, reports and wire

A Dafny model of the server and client of rathole, a reverse proxy whose server gives each user a private
block of remote ports, keeps one session per user, and pushes a directory of all mappings to every client.
Everything is proved for every input, every run or every reachable state.

## How the model is built

- `Types`, `Sorting`: shared values; the stable sort and adjacent deduplication of the standard library.
- `Allocator`: the loop of `Registry::register`. `Place`/`PlaceAll` work on the table as the source does;
  `Assign`/`AssignAll` are the same algorithm on one user's assignment (a map from local keys to remote ports).
  `PlaceAllRefines` connects them, and the hard facts are proved about the map.
- `Registry`: the `Registry` class updates its fields in place and is proved equal to value functions
  (`DoRegister`, `DoUnregister`, `DoSetDisabled`, `LoadState`). `RegistryRuns` proves properties of whole runs of them,
  and `RegistryExamples` works registrations through, number by number.
- `MultiMaps`: the doubly indexed map with an explicit heap of boxes.
- `Server`: the session protocol as a state machine; a step is one critical section or one early return.
  It uses the registry's value functions and the doubly keyed set, so its runs are runs of the whole server.
  `ServerCore` runs the critical sections on the two real objects and proves each is that step. `ServerProperties`
  holds the theorems, `SessionEnds` those about sessions that cannot end and channels the registry has forgotten,
  `HandleHistory` when a session's handle is in the map, and `Listeners` what the handles listen on.
- `DirectorySize`: how many bytes a directory takes, when `write_frame` accepts it, and that it never shrinks;
  `OversizedDirectory` is a configuration whose directory no frame can carry.
- `Client`, `Reports`, `ClientLoop`, `Aliases`: what a client reports, the report and directory exchange of one
  session next to arbitrary other sessions, the client's control loop on its fields, and alias reconciliation.
- `SessionView`: the whole server and one of its clients together, from the session's registration until its task ends;
  seen from the session every run of the two is a run of `Reports`.
- `Fleet`, `FleetRuns`: the server and any number of clients at once, and how all their exchanges come to rest.
- `DataChannels`: requests, data channels, visitors and UDP pools of one user.
- `Texts`, `Decimals`, `Config`, `Nginx`: trimming and splitting, numbers, port specifications, user validation, the
  rendered nginx map and its reader.
- `Bytes`, `Wire`, `WireStrict`, `Streams`: integers, UTF-8, the bincode 1 layout, frames, handshakes and UDP packets,
  and that the readers accept nothing else.

Assumptions: session keys are fresh; a loaded table has unique keys and unique remote ports per user (and this is
proved to be kept); writing the allocation file either succeeds or fails as a whole; the nginx domain fits the frame of the
registration answer; a task that waits for a lock gets it. What accepts a probe, and whether a connection breaks, is chosen
freely by the environment; a directory too large for a frame is refused by `write_frame` on any connection.

## Where the code does less than its documentation

README.md:106 of the repository says that a local port inside the user's block keeps its number. It does exactly when no
wanted in-block port is already held for another key, already allocated elsewhere in the block, or wanted for both
protocols (`RegisterNumbers`; counterexample `InBlockPortCanLoseNumber`). The capacity check of the configuration does
not guarantee that a registration succeeds (`FittingConfigRefusedIff`; counterexample `FittingConfigCanBeRefused`). The
registry's current session can be live while the map holds another handle of the user (`AgreementIff`; counterexample
`OvertakenRun`). A live channel can stay in the map while its user is offline for good (`HandleCurrentIff`;
counterexample `ForgottenRun`). A user can stay online with no way to end the session short of registering again or
restarting the server: after an early return of its task (counterexample `StrandedRun`), or because the first directory is
too large for a frame, which validation does not prevent and no restart cures (counterexample `OversizedRun`); these are all
the cases (`StuckIff`, `StuckAfterRun`). The nginx map can name one host twice when a user name holds a separator of the map
file, which validation accepts (`RenderedReadsBackIff`, `HostsUnique`; counterexample `RenderedHostCanRepeat`); and since
nginx compares the keys of a map without their case, two users told apart by case only can clash (`LoweredHostsIff`;
counterexample `CaseCanClash`).

## Model

| member | source | states |
|---|---|---|
| Sorting.SortRefines | src/registry.rs:82-87 | a stable sort of an already ordered list orders by the new key first and by the old order among equals |
| Allocator.WantedOrder | src/registry.rs:76-87 | the wanted list holds every configured key once, in-block local ports first, in each phase TCP before UDP and then the smaller local port |
| Allocator.LowestFree | src/registry.rs:111 | the result is free and every smaller port of the block is used; none only if the whole block is used |
| Allocator.AssignAllExtends | src/registry.rs:93-127 | success keeps every in-block and every unwanted allocation, puts every wanted key in the block, and gives new keys ports nobody held |
| Allocator.ExhaustedIff | src/registry.rs:93-119 | allocation fails iff keys without an in-block port plus in-block ports held exceed the block size |
| Allocator.DemandSplit | src/registry.rs:93-119 | needed plus held equals wanted plus in-block ports of unwanted keys |
| Allocator.KeepsNumbersIff | src/registry.rs:84-111 | all in-block local ports keep their numbers iff none of them clashes with a held port, an older port or the other protocol |
| Allocator.TcpKeepsNumbers | src/registry.rs:84-111 | with nothing held in the block every in-block TCP port keeps its number |
| Allocator.FallbackIncreases | src/registry.rs:111-125 | a fallback port is smaller than every port given later in the same call |
| Allocator.FallbackIsLowest | src/registry.rs:110-112 | every port of the block up to a fallback port is held afterwards |
| Allocator.PlaceAllRefines | src/registry.rs:91-127 | the loop on the table equals the algorithm on the user's assignment, keeps the table well formed and leaves other users' assignments alone; `changed` iff some key needed a port |
| Registry.DirectoryRows | src/registry.rs:166-183 | the directory holds exactly the table's rows with their online flags, users in the order of their names, each user's rows by remote port |
| Registry.DirectoryDistinct | src/registry.rs:166-183 | on a well-formed table no two rows share user and key, or user and remote port |
| Registry.Registry.Load | src/registry.rs:46-65 | loading yields the persisted table, no session, and the published directory of that table |
| Registry.Open | src/registry.rs:46-65 | a missing file is an empty table; an unreadable or malformed one is an error and yields no registry |
| Registry.Registry.Register | src/registry.rs:74-148 | the step-by-step method has the effect and the answer of `DoRegister`, and the watch equals the directory whatever the outcome |
| Registry.Registry.Unregister | src/registry.rs:151-156 | removes the session and republishes iff the nonce is current; otherwise nothing changes |
| Registry.Registry.SetDisabled | src/registry.rs:159-164 | replaces the disabled list and republishes iff the nonce is current; otherwise nothing changes |
| Registry.ReportEffect | src/registry.rs:159-164 | a report of a user's current session replaces that session's disabled list and publishes; nonce and keys of all sessions, the other lists, table and file stay; any other report does nothing |
| Registry.ExitEffect | src/registry.rs:151-156 | an exit of a user's current session ends exactly that session and publishes; any other exit does nothing |
| Registry.RegisterEffect | src/registry.rs:74-148 | any failure leaves the whole state unchanged; success extends only this user's assignment, installs the session, publishes once and answers one online mapping per wanted key |
| Registry.RegisterOutcome | src/registry.rs:93-131 | exactly when each of the three outcomes occurs, in two equivalent counts |
| Registry.RegisterNumbers | src/registry.rs:84-126 | which numbers a registration gives: own numbers iff no clash, TCP priority, fallback ports increasing with TCP before UDP and then with the local port |
| Registry.FreshUserKeepsNumbers | src/registry.rs:84-126 | with nothing held, every in-block port keeps its number iff no in-block number is wanted for both protocols |
| RegistryExamples.SmallerPortFirst | src/registry.rs:226-229 | tcp 8000 and 3000 on an empty block 20000-20002: 3000 gets 20000, 8000 gets 20001 |
| RegistryExamples.OwnNumberFirst | src/registry.rs:268-272 | tcp 3000 and 5001 on an empty block 5000-5002: 5001 keeps its number, 3000 gets 5000 |
| RegistryExamples.UdpAfterTcp | src/registry.rs:82-87 | tcp 9000 and udp 3000: tcp comes first, whatever the numbers |
| RegistryRuns.LoadConsistent | src/registry.rs:46-65 | after loading, the table equals the file and every row is offline |
| RegistryRuns.RunConsistent | src/registry.rs:74-195 | after any run the file equals the table, the table is well formed and the watch value is the directory |
| RegistryRuns.RestartKeepsRows | src/registry.rs:46-65 | a restart after any run shows the same rows, all offline |
| RegistryRuns.RowKeptIff | src/registry.rs:94-131 | a row disappears in one operation iff its user successfully registers its key with a block that excludes its port |
| RegistryRuns.Stable | src/registry.rs:89-131 | a port stays with its key over any run, restarts included, whose blocks for that user contain it |
| RegistryRuns.ReRegisterIsFree | src/registry.rs:93-147 | re-registering any part of the same ports after any such run succeeds even if the file cannot be written, changes no row and returns the same ports |
| RegistryRuns.InBlockPortCanLoseNumber | README.md:106 | a concrete registration in which an in-block local port loses its number |
| RegistryRuns.FittingConfigCanBeRefused | src/config.rs:319-321 | a concrete table for which a configuration that fits its block is refused |
| RegistryRuns.FittingConfigRefusedIff | src/config.rs:319-321 | a fitting configuration is refused iff leftover in-block ports exceed the spare room |
| MultiMaps.MultiMap.Insert | src/multi_map.rs:58-69 | rejected iff either key is present; otherwise exactly the new item is added, in one new box |
| MultiMaps.MultiMap.Get1 | src/multi_map.rs:71-75 | the value of the item with that first key, if there is one |
| MultiMaps.MultiMap.Get2 | src/multi_map.rs:83-87 | the value of the item with that second key, if there is one |
| MultiMaps.MultiMap.Remove1 | src/multi_map.rs:95-100 | removes exactly the item with that first key from both indexes and frees its box |
| MultiMaps.MultiMap.Remove2 | src/multi_map.rs:102-107 | removes exactly the item with that second key from both indexes and frees its box |
| MultiMaps.MultiMap.Slot1 | src/multi_map.rs:22-38 | a lookup finds the equal key; it may only run while every key pointer of the table is live |
| MultiMaps.MultiMap.Free | src/multi_map.rs:97-98 | only a live box can be freed, and it is recorded as freed once |
| MultiMaps.MultiMap.Drop | src/multi_map.rs:110-117 | afterwards no box is live and every box ever allocated was freed exactly once |
| MultiMaps.Lifetime | src/multi_map.rs:51-117 | over any sequence of operations the replies are those of a doubly keyed set, and every box is freed exactly once by the end |
| Server.InitInv | src/server.rs:117-131 | a fresh server satisfies the protocol invariant |
| Server.NextInv | src/server.rs:376-709 | every step keeps it: sessions belong to unfinished tasks and are their users' latest, handles belong to installed tasks, online keys are settled in their block, pushes are faithful |
| Server.RunInv | src/server.rs:376-709 | so does every run |
| Server.StepIsRegistryRun | src/server.rs:376-709 | each step acts on the registry as a sequence of registry operations |
| ServerProperties.ReachableExclusive | src/registry.rs:166-183 | in every reachable state all online rows lie in their user's block and have pairwise distinct remote ports, and file, table and watch agree |
| ServerProperties.SessionsWanted | src/registry.rs:133-141 | in every reachable state a session's keys are exactly its user's configured ports |
| ServerProperties.RegistrationOutcome | src/server.rs:376-387 | a handshake registers iff the block has room beside in-block ports of dropped keys and, if some key has no port of the block yet, the file can be written |
| ServerProperties.RestartEffect | src/server.rs:117-131 | a restart with new users keeps the table, takes everyone offline, drops all handles and ends all tasks |
| ServerProperties.PortStable | src/registry.rs:89-131 | over any server run, restarts with other configurations included, a port stays with its key while the configured blocks contain it |
| ServerProperties.SessionIsolated | src/server.rs:640-709 | reports, pushes, exits and early returns of a session change no other session, handle or task |
| ServerProperties.UserIsolated | src/server.rs:376-423 | registering and installing change only the same user's session, handles and ports |
| ServerProperties.FinishedForever | src/server.rs:700-709 | a session that ran its exit steps never reappears in the map or the registry |
| ServerProperties.InsertAlwaysSucceeds | src/server.rs:396-423 | the discarded result of `insert` is always success, so the map then holds exactly the new handle for the user |
| ServerProperties.AgreeStep | src/server.rs:376-425 | a step breaks the agreement of registry and map iff it installs over a later session that is already installed |
| ServerProperties.AgreementIff | src/server.rs:376-425 | a run keeps the two in agreement throughout iff no install is overtaken |
| ServerProperties.SessionAgreement | src/server.rs:376-425 | when one user's handshakes install in registration order, a current installed session always has exactly its handle in the map |
| HandleHistory.HandleInMapIff | src/server.rs:390-423 | in every reachable state an installed session has its handle in the map iff no other handshake of its user installed, or lost its install, after it |
| HandleHistory.CurrentInMapIff | src/server.rs:390-423 | for the registry's current session, iff no earlier handshake of its user did |
| Listeners.ListenersExclusive | src/server.rs:500-561 | in every reachable state the installed handles listen on pairwise distinct remote ports, each a row of the current table in its user's block, one for each configured key |
| Listeners.VisitorsForwarded | src/server.rs:712-870 | every data channel taken for a visitor or a UDP pool of such a handle carries the command for the protocol and local port of the row that has that remote port |
| ServerProperties.StrandedNext | src/server.rs:388-407 | one step: a user is stranded afterwards iff its current session's task returns early now, or it was stranded and neither registered successfully nor the server restarted |
| DirectorySize.FitsIff | src/protocol.rs:249-258 | `write_frame` accepts a directory iff twelve bytes plus, for each row, seventeen and the user name's UTF-8 are at most 2^20 |
| DirectorySize.CurrentFitsIff | src/registry.rs:166-183 | in a consistent registry that depends on the table alone, not on who is online |
| DirectorySize.TooLargeForever | src/registry.rs:89-131 | a directory too large for a frame stays so over any operations, restarts included |
| DirectorySize.ReportFits | src/client.rs:415-425 | a client's report always fits |
| SessionEnds.StrandedForever | src/server.rs:388-407 | a stranded user is online and stranded after every run without a restart or a registration of it |
| SessionEnds.WaitingNext | src/server.rs:638-642 | one step: a user's session has still to push iff it registers now, or had to and neither pushes first, nor returns early, nor the server restarts |
| SessionEnds.NoMorePushes | src/protocol.rs:251-253 | once the directory is too large no run, restarts included, contains a push |
| SessionEnds.DoomedForever | src/server.rs:638-642 | a session that returned early, or has still to push a directory too large, stays one of the two over every run without a restart or a registration of its user |
| SessionEnds.CanEnd | src/server.rs:640-709 | any other online user is taken offline by some run without a restart or a registration of it |
| SessionEnds.StuckIff | src/server.rs:388-709 | no run without a restart or a registration of the user ends its session iff that session's task returned early, or has still to push and the directory is too large for a frame |
| SessionEnds.StuckAfterRun | src/server.rs:376-709 | after any run from the start a user is so stuck iff, since its last successful registration and the last restart, its current session returned early, or has not pushed and the table is too large for a frame |
| OversizedDirectory.BigUserIsStuck | src/server.rs:376-642 | a user whose own rows exceed a frame is stuck from its registration on, before anything has failed |
| OversizedDirectory.OversizedRun | src/protocol.rs:251-253 | one user exposing ports 1-65535, which validation accepts: it registers, no early return happens, and it is stuck |
| SessionEnds.RunKeepsLatest | src/server.rs:376-709 | any run keeps: an unfinished session with no later registered one of its user is the registry's |
| SessionEnds.HandleCurrentIff | src/server.rs:376-709 | in every reachable state an installed handle's session is the registry's current one iff no later handshake of its user was registered, whether or not that one has ended |
| SessionEnds.ForgottenRun | src/server.rs:700-709 | a concrete run that leaves a live channel in the map while its user is offline, with no other session of the user unfinished |
| ServerProperties.PushedIsCurrent | src/server.rs:638-669 | a channel's pushes are a subsequence of the publications, and one that has seen the current version pushed the current directory last; one that has not can push it iff the table fits a frame |
| ServerProperties.OvertakenRun | src/server.rs:376-425 | a concrete run whose current session is live while its handle is gone |
| ServerProperties.StrandedRun | src/server.rs:388 | a concrete run that leaves a user online with an empty channel map |
| ServerCore.Core.Register | src/server.rs:376-379 | on the real registry object: exactly the protocol's registration step, with the registry's answer |
| ServerCore.Core.Install | src/server.rs:390-423 | on the real map object: exactly the protocol's install step |
| ServerCore.Core.InstallLost | src/server.rs:390-408 | on the real map object: exactly the protocol's step for a bind address that does not parse |
| ServerCore.Core.Report | src/server.rs:678-681 | exactly the protocol's report step |
| ServerCore.Core.Push | src/server.rs:640-669 | writes the frame of the current directory, nothing if it is too large, or what a breaking connection took; then it is the protocol's push step, for a failed first push its early return, else nothing |
| ServerCore.Core.Leave | src/server.rs:702-705 | exactly the protocol's handle removal |
| ServerCore.Core.Exit | src/server.rs:706-709 | exactly the protocol's session removal |
| ServerCore.Core.Route | src/server.rs:428-453 | a data channel finds a session iff its nonce has an installed handle, which is that of the nonce's own user; it is delivered iff that session still receives, and is stale otherwise |
| Client.SetPortEnabledExact | src/client.rs:67-75 | toggling changes the membership of one port and keeps the list strictly increasing |
| Client.UnavailablePorts | src/client.rs:399-412 | the loop computes `Unavailable` |
| Client.UnavailableExact | src/client.rs:399-412 | exactly the ports turned off and the own TCP ports nothing listens on, strictly increasing |
| Client.UnavailableCanonical | src/client.rs:399-425 | states with the same unavailable set report the same list, so a difference of lists is a difference of sets |
| Client.ProbeExact | src/client.rs:470-483 | the probe lists exactly the own TCP ports of the directory that accept |
| Reports.StartInv | src/client.rs:710-714 | a session starts with both sides at the empty list |
| Reports.NextInv | src/client.rs:731-778 | every step of client, server or another session keeps the report invariant, and a replaced session never becomes current again |
| Reports.ReportsConverge | src/client.rs:414-425 | in every run the client's last report is what its state calls for, the server's list is the last report consumed, and with none in flight they are equal |
| Reports.ReportDoesNotFeedBack | src/registry.rs:159-183 | consuming a report of any session changes no row and not what any client would report on the new directory |
| Reports.EchoIsSilent | src/client.rs:750-757 | a directory with the same own TCP ports and the same probe results sends no report |
| Reports.UnrestDecreases | src/client.rs:731-778 | each step of the undisturbed exchange that changes anything, probe ticks included, decreases a measure |
| Reports.Quiesces | src/client.rs:731-778 | any run of the undisturbed exchange, with any number of probe ticks, has at most that many steps that change anything |
| Reports.AtRest | src/client.rs:731-778 | where nothing is left to do the server has the client's report, an own key is online iff it is registered, not turned off and, for an own TCP port, accepts connections, and the client has the current directory if it fits a frame |
| Reports.DisabledIsLastToggle | src/client.rs:772-778 | over any run the client keeps off exactly what the last toggle said, or the list it started with |
| Reports.RestAfterRun | src/client.rs:710-778 | so a run from the registration that ends at rest leaves an own key online iff it is registered, not in that list and, for an own TCP port, accepts connections |
| SessionView.StepRefines | src/server.rs:376-709 | from registration until the session's task ends, each step of the whole server and the client is, in the session's view, its own push, report or client step or another session's registry operation |
| SessionView.RunRefines | src/server.rs:376-709 | so every such run of the whole is a run of `Reports` |
| SessionView.ServerConverges | src/client.rs:414-425 | on every such run the server's own table holds, for a current session, the last report consumed, and what the client calls for when none is in flight |
| SessionView.ReachableConverges | src/client.rs:710-778 | and that from a server's start, after any run that registered the session, its install included in what follows |
| Fleet.NextInv | src/client.rs:731-778 | with any number of clients at once, whatever one of them or the server does, every session's exchange stays sound |
| Fleet.UnrestDecreases | src/client.rs:731-778 | whichever session does something by itself, one measure of all sessions decreases, although a consumed report owes every session a push |
| Fleet.Quiesces | src/client.rs:731-778 | in any interleaving all sessions together do at most that many steps that change anything |
| Fleet.ComesToRest | src/client.rs:731-778 | and rest is reached from every state |
| Fleet.EveryoneAgrees | src/client.rs:731-778 | at rest, with a directory that fits, all live clients hold the same directory, and it shows as online exactly what each current session's client has registered, not turned off and, for TCP, accepts |
| FleetRuns.ReachableQuiesces | src/server.rs:376-709 | from a server's start, with sessions registering, clients joining and ending and ports changing, that bound holds after any run |
| FleetRuns.ReachableAgrees | src/server.rs:376-709 | from a server's start, once at rest, every live client holds the directory of the tables, and it shows as online exactly the keys of a current user's configuration that its client was not last told to keep off and that, for TCP, accept connections |
| ClientLoop.ProbeListening | src/client.rs:470-483 | the loop computes `Probe` |
| ClientLoop.ControlLoop.ReportUnavailable | src/client.rs:415-425 | sends and remembers the list iff it differs from the last one sent |
| ClientLoop.ControlLoop.OnDirectory | src/client.rs:750-757 | stores the directory and exactly its own TCP ports that accept, keeps the rest, reports iff the list changed, and reconciles the aliases to that directory; the client side of a directory step |
| ClientLoop.ControlLoop.OnProbe | src/client.rs:761-771 | stores exactly the own TCP ports that accept and keeps the rest; the client side of a probe step |
| ClientLoop.ControlLoop.OnDisabled | src/client.rs:772-778 | stores the list, keeps the rest, and reports iff the reported list changed; the client side of a toggle |
| Aliases.Aliases.Apply | src/client.rs:494-538 | afterwards a task runs for a port iff aliases are on, another user's online TCP service has it and no own service has that number locally; surviving tasks are the same tasks, dropped ones are aborted, and every task ever spawned is running under one port or aborted |
| Aliases.Aliases.Drop | src/client.rs:541-547 | every task ever spawned is aborted |
| Aliases.NeverRestarted | src/client.rs:519-537 | over any sequence of directories a task runs on unrestarted while its port stays wanted |
| Aliases.AbortedForGood | src/client.rs:519-527 | a task whose port was once unwanted is aborted and in no later map |
| Aliases.NoOwnPortShadowed | src/client.rs:494-527 | after any sequence of directories no running alias has the number of an own local port of the last one |
| AliasTargets.AliasHasOneTarget | src/client.rs:497-508 | on a directory of a reachable server an aliased port is online exactly once, for another user's TCP service |
| AliasTargets.RunningAliases | src/client.rs:497-538 | after reconciling with it, another user's online TCP service runs under its port iff no own service has that number locally, and no other service is online there |
| AliasTargets.AliasesOff | src/client.rs:512-514 | with an empty bind host nothing runs and every task that ran is aborted |
| DataChannels.StartPools | src/server.rs:500-561 | the loop starts in `Start`: one request per UDP mapping, and eight if there is a TCP mapping |
| DataChannels.ChannelConservation | src/server.rs:766-870 | in every run ready channels plus unanswered requests equal the TCP pool, the waiting visitors and the idle UDP pools; every consumed channel went to a served visitor, to a UDP pool or was broken; exactly the served visitors have one, each its own, and every pool that neither waits nor failed; service is in queue order |
| DataChannels.Accepts | src/server.rs:762-777 | accepting a visitor asks for one channel and puts it last in line with its listener's local port |
| DataChannels.ServesNext | src/server.rs:799-815 | with a channel ready the visitor first in line can be served next, on the channel that arrived first |
| DataChannels.ServesLater | src/server.rs:808-814 | if writing to it fails the visitor waits on and another channel is asked for |
| DataChannels.StartsPool | src/server.rs:847-854 | with a channel ready an idle UDP pool can start forwarding on it |
| Decimals.ParseU16Exact | src/config.rs:81-86 | the port parser accepts exactly an optional plus sign and digits denoting a `u16`, and returns that number |
| Config.ParsePrintedRange | src/config.rs:75-91 | parsing inverts printing every range, with any white space around either number |
| Config.ParsePrintedPort | src/config.rs:75-91 | and every single port |
| Config.ParsedRangeParts | src/config.rs:75-91 | whatever parses is one number, or two around a dash, each possibly surrounded by white space |
| Config.ParsePortRangeIff | src/config.rs:75-91 | a spec parses to a range iff it has that shape, with those numbers, in order and not zero |
| Texts.WhiteSpaces | src/config.rs:76-79 | white space is Unicode's, without the zero-width space |
| Config.ExpandPortList | src/config.rs:94-102 | the loop computes `ExpandPorts` |
| Config.ExpandPortsExact | src/config.rs:94-102 | the strictly increasing list of exactly the ports some range covers; fails iff a spec does not parse |
| Config.AdjacentIsPairwise | src/config.rs:323-329 | on sorted blocks the neighbour check is pairwise disjointness |
| Config.ParseUserIff | src/config.rs:309-321 | a user is accepted iff its block and all specs parse and the block has as many ports as its specs cover; then it has its name, its parsed block and exactly the covered ports |
| Config.ValidateUsers | src/config.rs:309-331 | succeeds iff every user is so usable and no port lies in two users' blocks; the result is what the server assumes |
| Config.ValidatedUserFits | src/config.rs:312-321 | a validated user's port lists have no repetition, are exactly the configured ports and fit the block |
| Nginx.HostInjective | src/protocol.rs:85-87 | host names are equal iff local port and user are |
| Nginx.RenderedReadsBackIff | src/server.rs:240-245 | the rendered text reads back, line by line, as the directory's TCP entries iff no TCP row's user nor the domain holds a separator |
| Nginx.HostsUnique | src/server.rs:240-245 | on every reachable directory the entries have distinct hosts and every TCP row has one; the lines of the rendered text do so too iff no TCP row's user nor the domain holds a separator |
| Nginx.RenderedHostCanRepeat | src/server.rs:240-245 | two validated users, one with a line break in its name, whose rendered map names one host twice |
| Nginx.LoweredHostsIff | src/server.rs:240-245 | the hosts stay distinct without their case iff no two users told apart by case only expose the same local TCP port |
| Nginx.CaseCanClash | src/server.rs:240-245 | two validated users that do |
| Bytes.FromUtf8OfUtf8 | src/protocol.rs:75-81 | every string reads back from its UTF-8 bytes |
| Bytes.Utf8OfFromUtf8 | src/protocol.rs:75-81 | whatever the strict decoder accepts is the encoding of its result |
| Bytes.StringOrderIsByteOrder | src/registry.rs:181 | the order of user names, by code point, is the order of their UTF-8 bytes |
| Wire.MappingRoundTrips | src/protocol.rs:74-81 | a directory row reads back in front of any bytes |
| Wire.VecRoundTrips | src/protocol.rs:67-95 | so does a vector of such values |
| Wire.ClientCmdFaithful | src/protocol.rs:66-71 | every client command that fits a frame reads back |
| Wire.ControlCmdFaithful | src/protocol.rs:90-95 | every control command that fits a frame reads back |
| Wire.RegisterAckFaithful | src/protocol.rs:59-63 | every registration answer that fits a frame reads back |
| Wire.FrameRoundTrips | src/protocol.rs:249-274 | a frame is read back from in front of any bytes, which are left over |
| Wire.FramesRoundTrip | src/protocol.rs:249-274 | any sequence of frames reads back as the same sequence with nothing left over |
| Wire.HelloRoundTrips | src/protocol.rs:192-230 | a hello has a fixed length and reads back iff its version is 4 |
| Wire.AckRoundTrips | src/protocol.rs:240-246 | an ack has a fixed length and reads back |
| Wire.ClientTranscript | src/server.rs:330-388 | hello, auth and any commands of a client read back in sync |
| Wire.ServerTranscript | src/server.rs:330-388 | hello, ack, registration answer and any commands of the server read back in sync |
| Wire.HandshakeLayout | src/protocol.rs:26-40 | the exact bytes of every hello and ack |
| Wire.CommandLayout | src/protocol.rs:59-102 | the exact layout of every command and registration answer: tag, eight-byte count or length, fields |
| Wire.StringLayout | src/protocol.rs:59-81 | every string is eight bytes of length, low byte first, then its UTF-8 |
| Wire.PortsLayout | src/protocol.rs:66-71 | every port list is two bytes a port, low byte first, in order |
| Wire.FrameLayout | src/protocol.rs:249-258 | every frame is the body's length in four bytes, high byte first, then the body; none above 1048576 bytes |
| Wire.RowLayout | src/protocol.rs:73-81 | the exact layout of every directory row |
| Wire.HeaderLayout | src/protocol.rs:105-133 | the exact layout of every packet header, with the payload length modulo 65536 |
| Wire.UdpReadsBack | src/protocol.rs:117-178 | what any packet reads back as: sender and payload cut at its length modulo 65536 |
| Wire.UdpRoundTripsIff | src/protocol.rs:117-178 | a packet reads back iff its payload length fits a `u16` |
| Wire.UdpStreamRoundTrip | src/protocol.rs:117-178 | any sequence of packets reads back as the same sequence with nothing left over |
| Wire.DataChannelTranscript | src/server.rs:854-868 | a UDP data channel's start command and packets read back in sync |
| WireStrict.MappingIsStrict | src/protocol.rs:74-81 | what is read as a directory row is what that row writes |
| WireStrict.ClientCmdIsStrict | src/protocol.rs:66-71 | the same for every client command |
| WireStrict.ControlCmdIsStrict | src/protocol.rs:90-95 | and every control command |
| WireStrict.RegisterAckIsStrict | src/protocol.rs:59-63 | and every registration answer |
| WireStrict.DataCmdIsStrict | src/protocol.rs:98-102 | and every data channel command |
| WireStrict.HelloIsStrict | src/protocol.rs:210-230 | a hello is read only from 37 bytes that a hello of version 4 writes |
| WireStrict.AckIsStrict | src/protocol.rs:240-246 | an ack only from four bytes that an ack writes |
| WireStrict.FrameIsStrict | src/protocol.rs:261-274 | a frame is read iff its length is at most 1048576, that many bytes follow and a value reads off them; what follows the value in the frame is dropped |
| WireStrict.PacketIsStrict | src/protocol.rs:157-178 | a packet only from a header length, a header that holds the address and length, and that many bytes |
| WireStrict.PacketLayout | src/protocol.rs:118-133 | every packet is 12 or 24, the header, the payload |
| Streams.WriteFrame | src/protocol.rs:249-258 | appends exactly the frame, nothing if the body is too large, or the part a breaking connection still took |
| Streams.ReadFrameFrom | src/protocol.rs:261-274 | reading step by step gives the value and the rest of `ReadFrame` |
| Streams.WriteUdpTo | src/protocol.rs:118-133 | appends exactly the packet, or the part a breaking connection still took |
| Streams.ReadUdpFrom | src/protocol.rs:157-178 | reading step by step gives the packet and the rest of `ReadUdp` |
| Streams.ReadHelloFrom | src/protocol.rs:210-230 | reading step by step gives the hello and the rest of `ReadHello` |
| Streams.ReadAckFrom | src/protocol.rs:240-246 | reading step by step gives the ack and the rest of `ReadAck` |

## Left out

- Transports, proxies, TLS, noise, websockets and socket options are thin wrappers over libraries not modelled here.
- SHA-256 and the random nonce: users are identified by name instead of the digest of the name (no collisions), session keys are fresh numbers, and authentication itself is not modelled.
- Partial writes of the allocation file, and its TOML syntax.
- Hot reload: connection tasks of a previous server object that still write the same allocation file are not modelled; a restart ends all tasks at once.
- The early returns before the install (src/server.rs:388) touch no shared object and have no method in `ServerCore`; a server that could bind its address has one that parses, so `InstallLost` does not occur there.
- Server.NextInv: a handle's task is spawned before the handle is inserted, under the same lock; installation and spawning are one step here, because the task's own map access waits for that lock.
- Heartbeats, timeouts and retry backoff; a client whose heartbeat timeout fires just stops taking steps.
- Reports.StartInv: a toggle between reading the global list of disabled ports and marking it seen (src/client.rs:686-712) is not modelled; convergence is relative to the client's `disabled` field.
- Reports.NextInv: data-channel requests and heartbeats share the frame stream with directories but change no state, so only directories are in `toClient`.
- ServerCore.Core.Route: whether the session still takes the channel is a parameter. The source awaits a bounded queue while it holds the map's read lock (src/server.rs:436-446), so a full queue delays every install and removal; neither that wait nor fairness of the locks is modelled, and `SessionEnds.CanEnd` assumes the lock is obtained.
- Listeners.ListenersExclusive: listeners are those of the handles in the map; that a dropped handle's listeners need a moment to close, and that the new ones retry binding meanwhile, is not modelled.
- Nginx.RenderedReadsBackIff: only the text is modelled, one line a host; nginx's quotes, backslashes, variables and parameters of a map are not.
- DataChannels.ChannelConservation: the capacities of the bounded channels are not modelled; a visitor whose sender is blocked is an `offered` one. Shut-down of the pools ends the run.
- Config.ValidateUsers: which of several errors is reported depends on the map's iteration order and is not specified.
- Streams.ReadFrameFrom: after a failed read nothing is said about the bytes left in the stream, which is then abandoned.
- IPv6 flow information and scope are not carried by the wire format and not part of the model's address.
- Byte forwarding, the client's UDP forwarders, table rendering, `row_status`, the nginx file and its reload command, the file watcher, the command line and the desktop application.
