# multiswitcher in Dafny

A model of the failover core of multiswitcher. This Linux daemon keeps one
`tc` ingress NAT rule per multicast route. The rule redirects the route either to a master
source address or to a slave source address. A monitor per route polls the kernel's byte
counter for the active side. When the counter stops growing for `Cfg.Tries` polls in a row,
the monitor deletes the active side's rule, adds the other side's, and flips the record's side.

Around that engine sit:

- an IGMPv2 membership sender (message encoder, Internet checksum, join and leave workers);
- a statistics cache fed by parsed `tc -s filter show` output;
- a lock-protected generic map;
- a packet listener that notifies registered addresses;
- the HTTP handlers that switch, toggle and list the routes;
- the start-up code that builds the shared records and resets every route to its master rule;
- an older packet-driven switch loop, which swaps once the slave's stream is seen without the master's.

The model follows the program's own structure, one module per source file:

| module | file | form |
|---|---|---|
| `Wrappers` | — | `Option` / `Result` values |
| `Decimal` | — | `strconv.Atoi`, `strconv.Itoa` and `big.Int.SetString(s, 10)` on digit strings |
| `SyncMaps` | `internal/utils/sync_map.go` | class `SyncMap` over a `map` field |
| `Statistic` | `internal/service/statistic/statistic.go` | class over a `SyncMap`, poll loop as a method |
| `FilterModel` | `internal/service/filter/model.go` | class `Filter` (fields updated in place by several services) |
| `Tc` | the `Add`/`Del` helpers | `tc` argument vectors and the kernel rule table they edit |
| `Switcher` | `internal/service/filter/switcher.go` | the monitor as functions `Start`/`Step`/`Run`, and class `Service` whose methods are proved equal to them |
| `Checksum` | `internal/service/igmp/igmp.go` (encoder), `cmd/test.go` (same text) | the checksum loops and the buffer patch, proved against RFC 1071 |
| `Igmp` | `internal/service/igmp/igmp.go` | class `Service` with the connection pool |
| `Probe` | `cmd/test.go` | the probe's send loop |
| `Listener` | `internal/service/net_listener/listener.go` | class over a `SyncMap` and the dispatch loop |
| `Api` | `internal/api/api.go` | pure check functions, and handler methods that change the records |
| `Settings` | `internal/config/config.go` | configuration values |
| `Multiswitcher` | `cmd/multiswitcher.go` | `MakeLocalDB` and `CreateFilters` loops |
| `LegacyMain` | `main.go` | the start-up loop and the packet-driven worker |

### How the model treats the runtime

- **Goroutines.** A goroutine start (`go X(f)`) becomes a returned value naming what would be started.
- **Channels and tickers.** Each worker becomes a method over the sequence of events it receives.
- **Map iteration.** A Go `range` over a map visits the keys in an order the program does not choose. `GoMaps.MapOrder` picks such an order, and every loop over a map is stated for the order it was given.
- **`tc` calls.** They are recorded in a ghost log. `Tc.Apply` gives the rule table that log leaves behind. A delete of a rule that is not installed fails and changes nothing, because Go only logs that error.

### Behaviour of the code worth noting

- **Stall test.** A sample is a stall only when it equals the stored baseline. A smaller sample resets the count, as a larger one does.
- **No eviction after a failover.** Nothing evicts the old side's counter: `DelBytesByIP` is never called from `switcher.go`.
- **Listener stays armed.** The listener does not unregister an address after notifying it. Every later packet to the address notifies again.
- **Manual switch.** `switchFilter` does not look at `Cfg.AutoSwitch`.
- **Leave worker.** It does not clear `IsIgmpOn`. A join by id after a leave is therefore refused (`Igmp.Service.JoinLeaveRejoin`).
- **Failover thresholds differ.**
  - `switcher.go` fails over when `tries >= Cfg.Tries`.
  - `main.go` swaps when `tries > SwitchTries`.
- **Toggle messages.**
  - `ToggleAll` treats every message other than `LeaveGroup` as a join.
  - `ToggleByID` treats every message other than `JoinReport` as a leave.
- **Shared stop channel.**
  - A join worker swallows stop ids that are not its own.
  - A turn-off is matched against the in-flight set, not against the monitor's own address.
- **Mismatched calls in `cmd/multiswitcher.go`.** It calls `filter.NewService(statManager)` (line 57) and `TurnOnAutoSwitch` (line 92), neither of which matches `switcher.go`. It also calls `api.NewService(db, statManager, filterManager)` (line 61) and routes to exported `GetConfigs`, `GetConfigByID`, `SetAutoSwitch` and `Switch` (lines 65-68). `api.go` defines none of these: it has only `RegisterAPI` (lines 16-36), with lower-case handlers and an IGMP service.
  - The model's `Switcher.Service` constructor takes the statistics service.
  - `ConfigureFilters` is the separate configuration pass of `NewService`.
  - `CreateFilters` returns the records it would start monitors for.
  - `Api.Service`'s constructor follows `RegisterAPI`.
- **Legacy configuration fields.** `main.go` reads `cfg.Filters`, `SwitchTries` and `AutoSwitch`, which the root `config.go` does not declare. The model uses the `Filter` type of `internal/config/config.go`, which has them.
- **Assumed helpers.** `IsIgmpOn`, `GetActualIP`, `GetBytes`, `SetBytes` and `SyncMap.Del` are used but not defined in the source. Each gets the least meaning its call sites imply:
  - `IsIgmpOn` is a boolean field, false on a new record.
  - `GetActualIP` is the active side's address.
  - `SetBytes` and `GetBytes` write and read the baseline.
  - `Del` removes a key.
- **`utils.InSlice`** is not part of this model. It is read as list membership.

## Model

| member | source | states |
|---|---|---|
| Switcher.InitialSide | internal/service/filter/switcher.go:99-110 | the side is master exactly when the slave has no stats (slave wins even if master has stats); a rule is added exactly when neither side has stats |
| Switcher.Service.constructor | internal/service/filter/switcher.go:29-35 | an empty in-flight set and an empty rule log, with the given statistics service; the `configureFilters` call of line 35 is `ConfigureFilters` |
| Switcher.Service.IsExistFilters | internal/service/filter/switcher.go:84-88 | returns exactly (master address cached, slave address cached) |
| Switcher.Service.ConfigureFilter | internal/service/filter/switcher.go:99-110 | the record ends on master iff its slave address has no stats; the only command is master's add, issued iff neither side has stats |
| Switcher.ConfigureEstablishesOneRule | internal/service/filter/switcher.go:99-110 | when a side has stats exactly when its rule is installed and at most one side has stats, the pass leaves exactly the chosen side's rule, the state the monitor's one-rule invariant starts from |
| Switcher.BothSeenLeavesTwoRules | internal/service/filter/switcher.go:101-103 | when both sides have stats and so both rules are installed, the pass picks the slave, adds nothing, and both rules stay installed |
| Switcher.ProbeCalls | internal/service/filter/switcher.go:101-110 | at most one command; one iff neither address has stats, and then it is the add of master's rule with master's priority |
| Switcher.Service.ConfigureFilters | internal/service/filter/switcher.go:94-114 | every key of the db is visited once; every record's side is fixed by the probe; the log grows by the probe commands of the records in visiting order |
| Switcher.Service.ConfigureInOrder | internal/service/filter/switcher.go:95-111 | for a fixed visiting order covering the db: every record's side fixed, log grown by that order's commands |
| Switcher.Service.ConfigureSeq | internal/service/filter/switcher.go:95-111 | over a list of records: each ends on the probed side and the log grows by their commands in list order |
| Switcher.Service.ConfigureAll | internal/service/filter/switcher.go:95-111 | the loop over records with their fields snapshotted: sides fixed for all positions, commands appended in order |
| Switcher.Service.ConfigureNext | internal/service/filter/switcher.go:95-111 | one turn keeps all earlier positions' sides, fixes position i, and appends that record's probe commands |
| Switcher.SidesCoverDb | internal/service/filter/switcher.go:95 | a side fixed at every position of an order covering the db is fixed for every key, shared records included |
| Switcher.SwapCalls | internal/service/filter/switcher.go:170-190 | two commands: delete of the active side's rule with its priority, then add of the other side's rule with its priority |
| Switcher.Service.ChangeFilter | internal/service/filter/switcher.go:170-190 | appends exactly the delete-then-add swap for the record's current side; the side itself is not changed |
| Switcher.Service.Add | internal/service/filter/switcher.go:40-52 | logs one add of the rule (interface, priority, address, route) |
| Switcher.Service.Del | internal/service/filter/switcher.go:54-66 | logs one delete of the rule (interface, priority, address, route) |
| Switcher.Service.AddIP | internal/service/filter/switcher.go:68-74 | the in-flight set gains the address and nothing else |
| Switcher.Service.DeleteIP | internal/service/filter/switcher.go:76-82 | the in-flight set loses the address and nothing else |
| Switcher.Service.TurnOffAutoSwitch | internal/service/filter/switcher.go:90-92 | the event sent to a monitor carries the record's active address |
| Switcher.Start | internal/service/filter/switcher.go:118-123 | a monitor exits at once iff its active address is in flight, with nothing changed; otherwise it inserts the address and starts counting from 0 |
| Switcher.Failover | internal/service/filter/switcher.go:152-160 | the failover clears the baseline, flips the side, removes exactly the watched address from the in-flight set, and appends the delete of the old side's rule then the add of the new side's |
| Switcher.Step | internal/service/filter/switcher.go:126-167 | the log changes only by a failover, which is exactly: clear the baseline, swap once, flip the side, drop the old address, respawn |
| Switcher.Run | internal/service/filter/switcher.go:116-168 | a run never stops mid-start, and only a live monitor can still be monitoring |
| Switcher.Service.AutoSwitch | internal/service/filter/switcher.go:116-168 | the monitor loop, with its respawns, leaves the record, the in-flight set and the log exactly as `Run` says, and ends in `Run`'s phase |
| Switcher.TickStoresBaseline | internal/service/filter/switcher.go:144-147 | a tick without a baseline stores the sample and keeps the count; a different sample, smaller or larger, stores it and resets the count to 0 |
| Switcher.RunAppend | internal/service/filter/switcher.go:126-167 | running over a + b equals running over b from where a left off |
| Switcher.StallsCount | internal/service/filter/switcher.go:149-151 | below the threshold, k equal samples add k to the count and change nothing else |
| Switcher.FailsOverAtThreshold | internal/service/filter/switcher.go:149-161 | from a baseline, Tries-1 equal samples change nothing; the Tries-th fails over and a monitor starts on the other side |
| Switcher.FourEqualSamplesFailOver | internal/service/filter/switcher.go:149-161 | with Tries = 3, samples 100,100,100 leave the master rule; the fourth 100 swaps master for slave and watches the slave |
| Switcher.ChangedSamplesReset | internal/service/filter/switcher.go:149-165 | with Tries = 3, samples 100,150,100,100,100 reset twice and end with two stalls and no swap |
| Switcher.StaleEntryBlocksRestart | internal/service/filter/switcher.go:134-143 | exits on auto-switch off or a failed lookup keep the address in flight, so a new monitor for that side returns at once |
| Switcher.TurnOffRemovesSignalledAddress | internal/service/filter/switcher.go:128-133 | a turn-off exits iff the signalled address is in flight, removes that address (not the monitor's), and is otherwise ignored |
| Switcher.SwapKeepsOneRule | internal/service/filter/switcher.go:188-189 | from exactly the active rule, the swap ends with exactly the other rule, and after its delete neither pair of rules is installed together |
| Switcher.StepKeepsOneRule | internal/service/filter/switcher.go:126-167 | one step keeps exactly the active side's rule installed and no prefix of its commands installs both |
| Switcher.RunKeepsOneRule | internal/service/filter/switcher.go:116-168 | for any events, exactly one rule per route holds at the end and at no command are both sides' rules installed |
| Switcher.OneRuleHasNoTwo | internal/service/filter/switcher.go:170-190 | exactly one of the pair's rules installed implies the two are never both installed |
| Switcher.PrefixesSafeJoin | internal/service/filter/switcher.go:116-168 | safety of every prefix is kept when logs are concatenated |
| Switcher.Lookup | internal/service/filter/switcher.go:95 | the records of the db under the keys of an order, position by position |
| Switcher.ConfsOf | internal/service/filter/switcher.go:95-111 | the fields of each record, position by position |
| Switcher.ConfigureLog | internal/service/filter/switcher.go:95-111 | the configuration pass issues at most one command per record |
| Tc.Args | internal/service/filter/switcher.go:40-66 | 21 arguments with the verb at 2, the interface at 4, `Itoa(priority)` at 10, the address at 15 and 19 and the route at 20 |
| Tc.AddDeleteDifferOnlyInVerb | internal/service/filter/switcher.go:40-66 | the add and delete vectors are equal except at the verb, "add" versus "delete" |
| Tc.ParseArgsRoundTrip | internal/service/filter/switcher.go:40-66 | every command's vector reads back as that command |
| Tc.ArgsInjective | internal/service/filter/switcher.go:40-66 | distinct commands have distinct vectors |
| Tc.ApplyAppend | internal/service/filter/switcher.go:40-66 | the rule table after two runs of commands is the second applied to the first's result |
| FilterModel.Filter.constructor | internal/service/filter/model.go:13-22 | a record holds the given fields and starts with IGMP off |
| FilterModel.Filter.GetActualIP | internal/service/filter/switcher.go:118 | the active side's address |
| FilterModel.Filter.SetBytes | internal/service/filter/switcher.go:144-154 | replaces the baseline only |
| Checksum.Word | internal/service/igmp/igmp.go:112-118 | the big-endian word at byte i; an odd trailing byte is the high half with a zero low half |
| Checksum.Words | internal/service/igmp/igmp.go:112-118 | one word per byte pair, ceil(n/2) of them |
| Checksum.OddTrailingByte | internal/service/igmp/igmp.go:115-117 | an odd last byte counts as the high-order byte of the last word |
| Checksum.Fold | internal/service/igmp/igmp.go:120-122 | the carry fold ends at most 0xFFFF and is 0 only for 0 |
| Checksum.FoldIsCanon | internal/service/igmp/igmp.go:120-122 | the fold is the one's-complement value: 0 for 0, else the value in 1..0xFFFF congruent modulo 0xFFFF |
| Checksum.OcSumIsCanon | internal/service/igmp/igmp.go:110-125 | the RFC 1071 end-around-carry sum equals the one's-complement value of the plain sum |
| Checksum.GoMatchesRfc | internal/service/igmp/igmp.go:110-125 | for data up to 128 KiB, Go's wrapping sum, fold and complement give the RFC 1071 checksum |
| Checksum.CalculateChecksum | internal/service/igmp/igmp.go:110-125 | the loops and `uint16(^sum)` compute exactly `GoChecksum` |
| Checksum.SumWords | internal/service/igmp/igmp.go:111-118 | the word loop leaves the word sum modulo 2^32 |
| Checksum.FoldCarries | internal/service/igmp/igmp.go:120-122 | the fold loop leaves `Fold` of its input, hence at most 0xFFFF |
| Checksum.Complement16 | internal/service/igmp/igmp.go:124 | `uint16(^sum)` of a 16-bit sum is 0xFFFF - sum |
| Checksum.Message | internal/service/igmp/igmp.go:97-108 | 4 + address length bytes: type, 0, big-endian checksum of the zero-checksum message, then the address bytes |
| Checksum.NewIgmpMsg | internal/service/igmp/igmp.go:97-108 | the buffer written and patched in place holds exactly `Message` |
| Checksum.WriteBuffer | internal/service/igmp/igmp.go:98-102 | the buffer before the patch is type, 0, 0, 0, then the address bytes |
| Checksum.MessageSum | internal/service/igmp/igmp.go:104-105 | patching the checksum into the zero field adds it to the word sum |
| Checksum.MessageVerifies | internal/service/igmp/igmp.go:104-105 | recomputing the checksum over a finished message gives 0 |
| Checksum.ClosedSumVerifies | internal/service/igmp/igmp.go:110-125 | a sum closed by its own complement folds to 0xFFFF, so its checksum is 0 |
| Checksum.ComplementCloses | internal/service/igmp/igmp.go:124 | a sum plus its complement is a non-zero multiple of 0xFFFF |
| Checksum.NoWrap | internal/service/igmp/igmp.go:111-118 | up to 128 KiB the word sum stays below 2^32 |
| Checksum.SumBound | internal/service/igmp/igmp.go:111-118 | the word sum is at most 0xFFFF per word |
| Checksum.SumUpdate | internal/service/igmp/igmp.go:105 | replacing one word changes the sum by the difference |
| Checksum.AllHostsJoinVector | cmd/test.go:20-23 | the join for 224.0.0.1 encodes as 16 00 09 FE E0 00 00 01 |
| Probe.ProbeMain | cmd/test.go:11-27 | a socket that does not open sends nothing; otherwise every send is the all-hosts join 16 00 09 FE E0 00 00 01 |
| Igmp.Service.constructor | internal/service/igmp/igmp.go:27-33 | the shared records and an empty pool |
| Igmp.Service.ToggleAll | internal/service/igmp/igmp.go:35-50 | workers are distinct and for db keys; a leave worker for exactly the joined records on LeaveGroup, a join worker for exactly the unjoined ones otherwise |
| Igmp.Service.SpawnLeaves | internal/service/igmp/igmp.go:37-42 | a leave worker for exactly the listed records with IGMP on, each once |
| Igmp.Service.SpawnJoins | internal/service/igmp/igmp.go:43-48 | a join worker for exactly the listed records with IGMP off, each once |
| Igmp.Service.ToggleByID | internal/service/igmp/igmp.go:81-95 | error iff the id is unknown or a join meets IGMP on; otherwise a join worker for a join report and a leave worker for any other message, even on an unjoined record |
| Igmp.Service.RunJoinWorker | internal/service/igmp/igmp.go:52-79 | no socket: nothing changes and nothing is sent; else the pool gains the socket under the id, IGMP is on, and the sends are `JoinRun` |
| Igmp.JoinRunStops | internal/service/igmp/igmp.go:68-77 | a join worker stops iff its own id arrives on the stop channel |
| Igmp.JoinRun | internal/service/igmp/igmp.go:68-78 | the join worker's select loop: without a tick nothing is sent, and every send is one of the tick's pair; `JoinRunStops` and `JoinRunSends` characterise it fully |
| Igmp.JoinRunSends | internal/service/igmp/igmp.go:70-72 | as many sends per tick as the pair holds before its own stop (two for `JoinPair`), each one from the pair |
| Igmp.Service.RunLeaveWorker | internal/service/igmp/igmp.go:127-143 | no pool entry: nothing; else the id is signalled, both leave sends are started, the entry is removed, and IGMP is left on |
| Igmp.Service.JoinLeaveRejoin | internal/service/igmp/igmp.go:81-143 | join, leave, then join by id: the pool slot is freed but the second join is refused as already on |
| Statistic.Service.constructor | internal/service/statistic/statistic.go:22-32 | an empty cache for the interface |
| Statistic.Service.GetBytesByIP | internal/service/statistic/statistic.go:34-39 | the cached count when the address is cached, else an unknown-address error |
| Statistic.Service.DelBytesByIP | internal/service/statistic/statistic.go:41-43 | the address leaves the cache and every other entry stays |
| Statistic.Service.ReadStatsTick | internal/service/statistic/statistic.go:53-64 | a failed command aborts with no update; else the cache is the old one with every capture stored in order |
| Statistic.ApplyMatches | internal/service/statistic/statistic.go:60-64 | the cache after storing each capture in order keeps every old address and holds every captured one; `ApplyMatchesKeys`, `ApplyMatchesLast` and `ApplyMatchesUntouched` characterise it fully |
| Statistic.ApplyMatchesKeys | internal/service/statistic/statistic.go:58-64 | after a poll the cache holds exactly the old addresses plus the captured ones |
| Statistic.ApplyMatchesLast | internal/service/statistic/statistic.go:60-64 | a captured address holds the decimal value of its last capture |
| Statistic.ApplyMatchesUntouched | internal/service/statistic/statistic.go:58-64 | an address not captured keeps its entry, or stays absent |
| Statistic.PollNeverEvicts | internal/service/statistic/statistic.go:58-64 | a poll never removes an address |
| Statistic.DuplicateTakesLast | internal/service/statistic/statistic.go:60-64 | two captures of one address leave the later value |
| Statistic.EvictThenLookup | internal/service/statistic/statistic.go:34-64 | after an eviction the address is unknown, and it is known after a poll iff that poll captured it |
| Decimal.ValueOfFormat | internal/service/statistic/statistic.go:62 | the canonical digits of n read back as n |
| Decimal.FormatOfValue | internal/service/statistic/statistic.go:62 | a digit string without a leading zero is the canonical digits of its value |
| Decimal.ParseInt | internal/service/statistic/statistic.go:62 | parsing succeeds iff after an optional sign there is a non-empty run of digits |
| Decimal.Atoi | internal/api/api.go:58 | succeeds iff the text parses and fits in a 64-bit int, and then gives that value |
| Decimal.Itoa | internal/service/filter/switcher.go:44 | non-empty, digits only for a non-negative number |
| Decimal.ParseIntItoa | internal/service/filter/switcher.go:44 | every printed priority parses back to itself |
| Decimal.AtoiItoa | internal/api/api.go:58 | every 64-bit int printed by Itoa is read back by Atoi |
| SyncMaps.SyncMap.constructor | internal/utils/sync_map.go:5-10 | a new map is empty |
| SyncMaps.SyncMap.Set | internal/utils/sync_map.go:17-22 | the key maps to the value, later writes win, and every other key is unchanged |
| SyncMaps.SyncMap.Get | internal/utils/sync_map.go:24-31 | (value, true) for a present key, (zero, false) for an absent one, and the map is unchanged |
| SyncMaps.SyncMap.Values | internal/utils/sync_map.go:33-38 | exactly the current contents |
| SyncMaps.SyncMap.Del | internal/service/statistic/statistic.go:42 | the key is removed and every other key is unchanged |
| Listener.Service.constructor | internal/service/net_listener/listener.go:22-41 | an empty registration table |
| Listener.Service.Receive | internal/service/net_listener/listener.go:43-46 | the address maps to the new registration, replacing any earlier one; others unchanged |
| Listener.Service.Stop | internal/service/net_listener/listener.go:48-51 | the address's registration is removed and others unchanged |
| Listener.Dispatch | internal/service/net_listener/listener.go:55-63 | at most one notification; one iff the packet is IPv4 to a registered address, carrying that registration's id on its channel |
| Listener.Notifications | internal/service/net_listener/listener.go:53-66 | the notifications of a packet run, in order: at most one per packet, and none with nothing registered; `NotificationsCount` gives the exact count |
| Listener.Service.Listen | internal/service/net_listener/listener.go:53-66 | the loop reads but does not change the table and sends `Notifications` in packet order |
| Listener.NotificationsCount | internal/service/net_listener/listener.go:53-66 | one notification per hit, each carrying a registered id on its channel |
| Listener.ReceiveOverwrites | internal/service/net_listener/listener.go:43-46 | after registering, packets to the address report the new registration |
| Listener.StopSilences | internal/service/net_listener/listener.go:48-51 | after Stop, packets to the address send nothing and other addresses dispatch as before |
| Api.Lower | internal/api/api.go:63 | same length, ASCII upper-case letters mapped to lower case and other characters kept |
| Api.OnOff | internal/api/api.go:115-123 | the lowered value is on or off; an accepted value has two letters for on and three for off, and `OnOffSpellings` gives the exact spellings |
| Api.SideName | internal/api/api.go:63-64 | the lowered name is master or slave; an accepted name has six letters for master and five for slave |
| Api.OnOffSpellings | internal/api/api.go:114-123 | on is accepted exactly as any case mix of "on", off exactly as any case mix of "off" |
| Api.Service.constructor | internal/api/api.go:16-28 | the shared records, the filter service and the IGMP service of `RegisterAPI`; the statistics service it also stores is used by no handler and is not kept |
| Api.SwitchCheck | internal/api/api.go:56-82 | 400 for a non-integer id, then 400 for a name other than master/slave, then 404 for an unknown id, then 400 for the active side; passes iff all checks hold |
| Api.SwitchTwiceRejected | internal/api/api.go:75-85 | the same switch request right after a successful one is refused with 400 |
| Api.SwitchToActiveSideRejected | internal/api/api.go:75-82 | asking for the active side always gives 400 |
| Api.Service.SwitchFilter | internal/api/api.go:56-88 | on a failed check: that status and no command or change; on success: 200, the swap commands, and the side flips once for that record only, auto-switch not consulted |
| Api.Service.Sides | internal/api/api.go:69-82 | each key maps to its record's current side |
| Api.AutoSwitchCheck | internal/api/api.go:106-129 | 400 for a bad id, then 400 for a value other than on/off, and 404 iff both parse and the id is unknown |
| Api.BadValueBeforeUnknownId | internal/api/api.go:114-129 | for an unknown id the answer is 404 iff the value is on/off and 400 iff it is not |
| Api.Service.SetAutoSwitch | internal/api/api.go:106-138 | on a failed check nothing changes; on success only the flag of that record changes and a monitor is started iff the value is on |
| Api.IgmpToggle | internal/api/api.go:140-150 | on gives the join report, off the leave, anything else nothing |
| Api.Service.TurnOnIgmp | internal/api/api.go:140-151 | a bad value is 400 with nothing started; on and off start exactly the workers `ToggleAll` starts |
| Api.Service.TurnOnIgmpById | internal/api/api.go:153-175 | a bad id, a bad value or a service error each give 400 with nothing started; otherwise 200 and the manager's worker |
| Api.Service.GetConfigs | internal/api/api.go:45-54 | every record of the db, each as often as its keys, sorted by ascending id |
| Api.SortById | internal/api/api.go:50-52 | the array ends sorted by id and is a permutation of what it held |
| Api.InsertAt | internal/api/api.go:50-52 | one insertion step extends the sorted prefix and permutes the array |
| Api.Swap | internal/api/api.go:50-52 | exchanges two positions |
| Api.LookupCoversDb | internal/api/api.go:47-49 | the collected records are exactly the db's records |
| Api.Service.GetConfigById | internal/api/api.go:90-104 | 400 for a non-integer id, 404 for an unknown one, else 200 with that record |
| Multiswitcher.MakeLocalDB | cmd/multiswitcher.go:134-155 | keys exactly 1..n; entry i+1 is a new record with id i+1, the configured addresses, route, priorities and tries, the interface, the poll period, on master with no baseline |
| Multiswitcher.BuiltRecordsDistinct | cmd/multiswitcher.go:137 | entries built from different pairs are different records |
| Multiswitcher.StartupCalls | cmd/multiswitcher.go:84-88 | three commands per pair, the last the add of master's rule |
| Multiswitcher.StartupLog | cmd/multiswitcher.go:83-88 | three commands per pair |
| Multiswitcher.StartupInstallsMasters | cmd/multiswitcher.go:83-88 | whatever was installed, provided no pair's rule equals another pair's rule (`SidesApart`), the start-up commands leave each pair with its master rule alone |
| Multiswitcher.CreateFilters | cmd/multiswitcher.go:82-95 | per record in visiting order: delete master, delete slave, add master; monitors started for exactly `AutoSwitching` |
| Multiswitcher.CreateAll | cmd/multiswitcher.go:83-94 | the loop over snapshotted records appends `StartupLog` and collects `AutoSwitching` |
| Multiswitcher.CreateNext | cmd/multiswitcher.go:84-93 | one turn appends that record's three commands and collects it iff its auto-switch is on |
| Multiswitcher.CreateOne | cmd/multiswitcher.go:84-88 | exactly the three start-up commands for one record |
| Multiswitcher.AutoSwitching | cmd/multiswitcher.go:90-93 | at most as many records as were given, each one of them; `AutoSwitchingExactly` says which |
| Multiswitcher.AutoSwitchingExactly | cmd/multiswitcher.go:90-93 | a record gets a monitor iff its auto-switch flag is on |
| LegacyMain.InstallMasters | main.go:73-78 | the start-up loop issues, per pair in order, delete master, delete slave, add master |
| LegacyMain.InstallMastersResets | main.go:73-78 | provided no pair's rule equals another pair's rule (`SidesApart`), after start-up every pair has its master rule alone |
| LegacyMain.PairConf | main.go:75-78 | a pair's master and slave rules with their own priorities and the route |
| LegacyMain.PairConfs | main.go:74 | the rules of each configured pair, in order |
| LegacyMain.AddFilter | main.go:155-167 | the add vector with the interface, address and route in place |
| LegacyMain.DelFilter | main.go:168-180 | the delete vector equals the add vector except for the verb |
| LegacyMain.Step | main.go:85-101 | a slave-only packet adds one to tries; another IPv4 packet resets it; a non-IPv4 packet changes nothing; commands run iff auto-switch, tries > SwitchTries and not yet on slave |
| LegacyMain.Run | main.go:80-106 | the worker over a packet sequence: a worker already on the slave never swaps back and runs no command, and a worker ends on the slave iff it was there or ran commands |
| LegacyMain.SwapsAtMostOnce | main.go:82-96 | a worker runs either no commands or one swap to the slave, and has swapped iff it ends on the slave |
| LegacyMain.SlaveStream | main.go:88-92 | a stream of exactly n packets |
| LegacyMain.SlaveStreamSwaps | main.go:88-97 | n slave-only packets give tries = n, and the swap happens iff auto-switch is on and n > SwitchTries |
| LegacyMain.WorkerKeepsOneRule | main.go:93-97 | from the master rule alone, a worker always leaves exactly its current side's rule |
| LegacyMain.RunWorker | main.go:80-106 | the worker loop runs exactly `Run`'s commands and ends with `Run`'s counter and side |

## Left out

- Goroutines, channels, tickers, `time.Sleep` and mutexes. Each worker is a sequential loop over the events or packets it receives, and concurrent interleavings are not modelled. The per-call local mutex in `addIP`/`deleteIP` gives no exclusion and is not represented.
- `turnOn` is declared but never initialised or used, and the blocking send on `turnOff` is a concurrency matter. Only the filter it carries is modelled, as `Switcher.Service.TurnOffAutoSwitch`.
- **Legacy worker packets.** In `main.go` all workers range over one shared packet channel, so each packet reaches only one worker. The model feeds each worker its own packet sequence.
- **`os/exec` calls.** Running `tc` (`Add`, `Del`, `AddFilter`, `DelFilter`, the stats command) is left out. The argument vectors are modelled and the commands are logged.
- **Printing.** Console and log printing is left out.
- **Statistics regex.** The regular expression of `readStats` is left out. A poll is the sequence of its captures, or `None` when the command failed.
- **Sockets and netlink.** pcap capture, BPF filters, raw IGMP sockets (`internal/service/igmp/conn.go`), and netlink link, route and qdisc setup are left out.
  - A packet is reduced to whether it is IPv4 and its destination text.
  - Opening a socket is an input.
  - Sends and `conn.Close` are returned or omitted.
- **Address parsing.** `net.ParseIP(...).To4()` is a library call. The group address bytes are parameters.
- **Configuration and command line.** JSON configuration loading, flag parsing and printing of the configuration are left out. The configuration is a `Settings.Config` value.
- **HTTP plumbing.** Gin routing, JSON bodies and contexts are left out. Each handler takes its raw path parameters and returns its status and what it changed or started. The body of `getConfigByID`'s reply is not modelled.
- **Number types.** `math/big` counters are `nat`.
- **Signals.** Signal handling and process exit are left out.
- **Statistic.Service.ReadStatsTick:** a failed command makes Go panic and the whole process stop. The model only reports the abort for that tick.
- **Statistic.Service.constructor:** does not start the polling goroutine or sleep.
- **Listener.Service.constructor:** does not open the capture handle.
- **SyncMaps.SyncMap.Values:** Go returns the internal map itself, so later writes show through it. The model returns the contents at the time of the call.
- **LegacyMain.RunWorker:** `tries` is an unbounded integer. A 64-bit overflow after 2^63 slave-only packets is not modelled.
- **Switcher.Service.AutoSwitch:**
  - The filter's settings are read as constant during one run.
  - The respawned goroutine after a failover is continued in the same loop. This is what that goroutine does first.
  - Monitors of other filters act only through the turn-off events they send.
  - `time.NewTicker` panics when `SecToSwitch` is zero or negative, as it is when the setting is missing from the JSON. That panic stops the whole process, and the model does not capture it: it runs the monitor for every period.
- **Switcher.Service.ConfigureFilters:**
  - The spawned monitors are represented by the returned visiting order only.
  - Each record's settings are read through a snapshot taken before the loop. That is equal to reading them each time, because the loop changes only `isMasterActual`.
- **Api.Lower:** only ASCII upper-case letters are lowered. Go's `strings.ToLower` also lowers other scripts' letters, and it can change the length of the text. The handlers' decisions are the same either way, because they compare the lowered text with "on", "off", "master" and "slave". No non-ASCII character lowers to one of those words' letters, and an unchanged character stays unequal to them.
- **Igmp.Service.RunLeaveWorker:** both leaves are sent from goroutines, and `conn.Close()` follows at once. Either leave may therefore run after the close and never go out. The model returns both sends as started, not as delivered.
- **Kernel rule table.** `Tc.Apply` idealises the kernel's u32 filter list as a set of rules. Adding a rule that is already installed changes nothing, and a delete removes exactly the matching rule. Duplicate filters and tc's own matching of a delete are not modelled.
- **Multiswitcher.StartupInstallsMasters:** the configuration does not forbid a pair whose slave rule equals another pair's master rule. For such pairs, the "delete slave" command of one pair removes the other pair's master rule, so the source's start-up reset fails. The lemma therefore assumes `SidesApart`, and so does `LegacyMain.InstallMastersResets`.
- **Api.Service.GetConfigs:** `sort.Slice` is not stable. The model's sort is one particular sort by id. Its result is the same whenever ids are distinct, as `MakeLocalDB` makes them.
