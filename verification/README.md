# GhostMeter in Dafny

GhostMeter simulates energy devices: a tick-driven engine computes register
values, protocol adapters serve them over Modbus TCP, SNMP, OPC UA and MQTT,
anomalies and scenarios distort them on a timeline, and the whole configuration
can be exported and imported as a snapshot. These modules model the parts that
carry hard guarantees and prove them for all inputs, runs and histories.
`dafny verify dfyconfig.toml` checks everything.

State that the program updates in place is a class whose methods are proved
against functions on the stored state; what the program promises is then proved
about those functions, over whole histories. Calls that leave the program
(sockets, clocks, random draws, database sessions) are parameters.

| files | what they model |
|---|---|
| Expression* | textual substitution of variables and restricted evaluation of expressions |
| Intervals, Instants, TemplateService, Anomalies, ScenarioService, AnomalyService | the overlap validators for addresses and timelines |
| Modbus*, Registers | word encodings, datastores, registrations and the register image |
| Oids, Snmp* | the identifier cache, registrations and the GETNEXT walk |
| AnomalyInjection, AnomalyValues, ScheduleHistory | the anomaly injector, what it makes of values, and its lazily updated schedules |
| ScenarioExecution, ScenarioHistory, ScenarioStatus | the scenario runner and its status |
| Mqtt*, PublishCounts | broker and publish-task bookkeeping, reconnection, publish statistics |
| Simulation* | the tick sweep, the values it stores and sends, the error streak, and task histories with crashes, restarts and stops |
| OpcUa* | typed values behind the fault overlay |
| Upserts, ConfigReplacement, Snapshots, ImportStages, ImportLaws, ImportedRows, ImportAcceptance, SystemService, SnapshotRoundTrip, SnapshotRestore | snapshot export and import |
| Prelude, ProtocolBase | shared types, stable sorting, statistics |

## What the code does not guarantee

Where a natural expectation fails, the model keeps the code's behaviour, and a
lemma says exactly when the expectation holds.

- Expressions: an ill-formed text can evaluate (`IllFormedCanEvaluate`);
  `WellFormedExactly` and `TextWellFormedExactly` give the condition.
- Scenarios: the runner deactivates by register name, so an ended step hides the
  later steps of its register (`LaterStepIsLost`, `SecondStepIsLost`,
  `WindowsShownExactly`).
- Schedules: a call that goes straight from one window into another keeps the
  first anomaly, its activation time and its frozen value (`HandoverKeepsFirst`,
  `AdjoiningDriftGoesOn`, `CoveringAppliedExactly`, `OwnWindowExactly`).
- SNMP: adding a registered device again can leave stale identifiers, and a
  rejected add drops the statistics of a registered device
  (`AddedAgainLeavesOid`, `RejectedAgainLosesStats`, `HistoriesAreConsistent`).
- MQTT: connecting while a reconnect task runs leaves the task behind
  (`ConnectedBesideTask`, `TaskAlwaysMatchesExactly`); brokers are otherwise connected
  under new ids or through reconnects, so only starting the adapter twice gets
  there. A failed publish counts as two requests and two errors; a cancelled one
  stays counted as a request (`CancelledStaysCounted`, `BalancedExactly`).
- Engine: a stop does not reach a launch that waits for the database, does not
  cancel a waiting restart, does not keep a crash from being called back, and does
  not reach a task whose registration a restart has replaced (`StopLosesToLaunch`,
  `StopLosesToRestart`, `StopLosesToCallback`, `StopLosesToOrphan`,
  `StopIsFinalExactly`).
- OPC UA: adding a device again while it is marked faulted leaves its new nodes
  without callbacks, and clients read what they were created with
  (`AddedAgainIsDetached`, `DetachedReadsAreStale`, `AttachedAlwaysExactly`).
- Snapshots: devices are referenced by names that need not be unique. The round trip
  and a repeated import depend on which device of a name a query lists first or last
  (`SharedNameBreaksRoundTrip`, `RoundTripExactly`, `SharedNameChangesAgain`,
  `ImportTwiceExactly`). Two names can lead to one device when entries repeat its unit
  and port; its configs are then cleared once per name (`ReplacedRows`,
  `ReplacedExactly`).

## Model

| member | source | states |
|---|---|---|
| `ExpressionGrammar.ParserDecidesGrammar` | backend/app/simulation/expression_parser.py:50-57 | the recursive-descent parser accepts a token list with a tree exactly when the grammar of sections 6.6 and 6.7 of the Python Language Reference derives it: left-associative sums of terms, signs binding tighter, parentheses |
| `ExpressionGrammar.GrammarUnambiguous` | backend/app/simulation/expression_parser.py:50-57 | a token list has at most one tree |
| `ExpressionSubstitution.SubstitutionCommutesWithParsing` | backend/app/simulation/expression_parser.py:42-52 | replacing variables by a literal, or by minus and a literal, and then parsing gives the tree that parsing and then replacing gives, for every well-formed token list |
| `ExpressionSubstitution.WellFormedExactly` | backend/app/simulation/expression_parser.py:42-55 | an expression with placeholders is well formed if and only if its substituted form is and no negative value stands directly behind an operand |
| `ExpressionText.LexSubstituted` | backend/app/simulation/expression_parser.py:17-48 | for every text that is read and in which no operand touches another one, replacing the placeholders in the text and then reading tokens gives the token-level replacement: no printed number runs into its neighbours |
| `ExpressionText.TokenizeSubstituted` | backend/app/simulation/expression_parser.py:39-55 | the same for whole texts, of which one with a leading blank is not read at all, since the code strips only to test for an empty expression; again no operand may touch another one |
| `ExpressionText.TextWellFormedExactly` | backend/app/simulation/expression_parser.py:42-57 | for every text: well formed with placeholders if and only if it is read at all, the substituted text parses, no operand touches another one and no negative value stands behind an operand |
| `ExpressionParser.EvaluationIsMeaning` | backend/app/simulation/expression_parser.py:24-101 | textual substitution, parsing and restricted evaluation give the value of the original tree, operator by operator, under the variables, missing variables 0 and division by zero 0, in any arithmetic whose printed finite numbers read back as themselves |
| `ExpressionParser.MeaningDependsOnMentioned` | backend/app/simulation/expression_parser.py:42-48 | the value depends on no variable the expression does not mention |
| `ExpressionParser.IllFormedCanEvaluate` | backend/app/simulation/expression_parser.py:24-57 | concrete counterexample to the converse: the text "{a} {b}" is no expression, yet evaluates to a minus the magnitude of b when b is negative |
| `Intervals.SortedScanDecides` | backend/app/services/scenario_service.py:58-72 | after sorting, comparing neighbours accepts positive-length intervals if and only if all pairs are disjoint |
| `Intervals.SortedNeighboursDecide` | backend/app/services/template_service.py:43-52 | on a sorted list, disjoint neighbours are disjoint pairs, in both directions |
| `Intervals.GroupsDecideKeyed` | backend/app/services/template_service.py:36-42 | checking each group on its own decides disjointness within every key |
| `Intervals.GroupBy` | backend/app/services/scenario_service.py:58-62 | the grouping loop: each key holds exactly its elements in their order, and no key is without elements |
| `TemplateService.ValidateNoAddressOverlap` | backend/app/services/template_service.py:28-52 | succeeds if and only if no two registers of one function code share a word, and otherwise names two registers that do |
| `TemplateService.ScanGroup` | backend/app/services/template_service.py:43-52 | the neighbour scan of one function code: none if and only if its registers are pairwise apart |
| `Anomalies.FindUnknownRegister` | backend/app/services/scenario_service.py:47-56 | finds a step whose register the template lacks, or reports that there is none |
| `ScenarioService.ValidateSteps` | backend/app/services/scenario_service.py:47-72 | accepts a timeline if and only if all registers exist and no two steps of one register share an instant, and otherwise reports a genuine offender |
| `ScenarioService.FindOverlap` | backend/app/services/scenario_service.py:58-72 | the grouped, sorted scan finds an overlapping pair if and only if there is one |
| `ScenarioService.TotalDuration` | backend/app/services/scenario_service.py:75-79 | the least upper bound of all step ends, zero for no steps |
| `AnomalyService.CheckOverlap` | backend/app/services/anomaly_service.py:49-61 | the nested scan finds an overlapping pair of one register if and only if there is one |
| `AnomalyService.ValidateSchedules` | backend/app/services/anomaly_service.py:95-117 | accepts exactly the timelines the scenario validator accepts |
| `ModbusEncoding.EncodeValue` | backend/app/protocols/modbus_tcp.py:35-89 | the encoder gives the words of the specification function, or its range or type error; ModbusBytes says byte by byte which these are |
| `ModbusEncoding.UnpackWords` | backend/app/protocols/modbus_tcp.py:60-63 | the unpacking loop joins two bytes to a word, big end first |
| `ModbusEncoding.NatOfBytes` | backend/app/protocols/modbus_tcp.py:44-62 | big-endian bytes of a number read back as the number |
| `ModbusEncoding.ArrangeInvolution` | backend/app/protocols/modbus_tcp.py:64-89 | each of the four byte orders undoes itself |
| `ModbusEncoding.LittleEndianReversesBytes` | backend/app/protocols/modbus_tcp.py:64-89 | little_endian is the full reversal of the big-endian bytes |
| `ModbusEncoding.LittleEndianIsBothSwaps` | backend/app/protocols/modbus_tcp.py:64-89 | little_endian is the word swap and the byte swap, in either order |
| `ModbusEncoding.DecodeEncoded` | backend/app/protocols/modbus_tcp.py:35-89 | whenever encoding succeeds, decoding the words gives what the type keeps of the value |
| `ModbusEncoding.InRangeRoundTrip` | backend/app/protocols/modbus_tcp.py:35-89 | for every in-range value, type and byte order, encoding succeeds and decoding returns the value |
| `ModbusTcp.AddedLinked` | backend/app/protocols/modbus_tcp.py:268-306 | a registration keeps devices and slaves one to one |
| `ModbusImage.StepKeepsLinked` | backend/app/protocols/modbus_tcp.py:268-341 | every step keeps devices and slaves one to one |
| `ModbusImage.WriteInside` | backend/app/protocols/modbus_tcp.py:323-341 | a write inside the block changes no block size and can be read back |
| `ModbusImage.WriteElsewhere` | backend/app/protocols/modbus_tcp.py:323-341 | a write leaves every disjoint register's words alone |
| `ModbusImage.RunHoldsImage` | backend/app/protocols/modbus_tcp.py:268-341 | after any run that keeps the device, each register's words are the encoding of its last write, or zero |
| `ModbusImage.RegistersBehaveAsMap` | backend/app/protocols/modbus_tcp.py:284-341 | for every register list the overlap validator accepts and every sequence of updates in any order, decoding at each register gives the last value written or the initial zeros, and no write leaves the allocated block |
| `Oids.EnumerationUnique` | backend/app/protocols/snmp_agent.py:390-395 | a set of object identifiers has one strictly sorted enumeration |
| `Oids.SortedOids` | backend/app/protocols/snmp_agent.py:390-395 | the rebuilt list is the strictly sorted enumeration of the registered identifiers |
| `Oids.BisectRight` | backend/app/protocols/snmp_agent.py:70-87 | binary search finds the first position above the argument |
| `SnmpHistories.LiveAddConsistent` | backend/app/protocols/snmp_agent.py:255-290 | adding a device that is not registered keeps cache, map and owners consistent |
| `SnmpHistories.RemovedConsistent` | backend/app/protocols/snmp_agent.py:292-301 | removing a device keeps them consistent |
| `SnmpHistories.RejectionLeavesNoTrace` | backend/app/protocols/base.py:87-103 | a rejected add changes no state, statistics included, if and only if the device had no statistics entry before |
| `SnmpHistories.CacheEnumeratesMap` | backend/app/protocols/snmp_agent.py:238-301 | after every history of adds, removes and stops, safe or not, the cached list is the sorted enumeration of the identifier map |
| `SnmpHistories.AddConsistentExactly` | backend/app/protocols/snmp_agent.py:255-290 | an add keeps consistency if and only if the device is not registered, or the add is accepted and lists all its old identifiers again |
| `SnmpHistories.HistoriesAreConsistent` | backend/app/protocols/snmp_agent.py:238-301 | all through a history of adds, accepted or rejected, removes and stops, the map is what live devices own, if and only if every add is safe in that sense |
| `SnmpHistories.AddedAgainLeavesOid` | backend/app/protocols/snmp_agent.py:278-288 | concrete failing input: a device added with one identifier and then with none leaves it behind in the map |
| `SnmpHistories.RejectedAgainLosesStats` | backend/app/protocols/base.py:87-103 | concrete failing input: a registered device whose second add conflicts stays registered without statistics |
| `SnmpHistories.MapIsDisjointUnion` | backend/app/protocols/snmp_agent.py:255-301 | the map is the disjoint union of live devices' identifiers |
| `SnmpHistories.NextIsLeastAbove` | backend/app/protocols/snmp_agent.py:380-388 | get_next_oid is the least registered identifier strictly above its argument |
| `SnmpWalk.WalkIsAnswers` | backend/app/protocols/snmp_agent.py:70-87 | repeated GETNEXT from any position gives the answers of the rest of the list |
| `SnmpWalk.WalkEnumeratesMib` | backend/app/protocols/snmp_agent.py:70-87 | section 4.2.2 of RFC 3416: a walk from the empty identifier returns every registered identifier that has a value exactly once, ascending, with its value, then end of view, after any history whatsoever without exception faults |
| `ScheduleHistory.SlotFollowsCalls` | backend/app/simulation/anomaly_injector.py:40-138 | after any history of calls, injections, removals, clears and loads that sets no real-time anomaly on the register and neither clears nor reloads its device, its scheduled state depends on its own calls alone |
| `ScheduleHistory.ScheduleAppliedExactly` | backend/app/simulation/anomaly_injector.py:74-138 | from loading on, whatever happens to other devices, a schedule is applied if and only if some window covers the call, and it is the one that covered the first call of the unbroken run of in-window calls |
| `ScheduleHistory.CoveringAppliedExactly` | backend/app/simulation/anomaly_injector.py:130-136 | every call gets the anomaly of its own window if and only if no two consecutive calls fall into windows of different anomalies |
| `ScheduleHistory.HandoverKeepsFirst` | backend/app/simulation/anomaly_injector.py:130-136 | concrete failing input: of two accepted adjoining windows, a call in each, the second call gets the first anomaly |
| `ScheduleHistory.OwnWindowExactly` | backend/app/simulation/anomaly_injector.py:108-138 | every call finds the whole state entered in its own window, activation time and frozen value included, if and only if no two consecutive calls fall into different windows |
| `ScheduleHistory.AdjoiningDriftGoesOn` | backend/app/simulation/anomaly_injector.py:130-161 | concrete failing input: of two accepted adjoining windows of one drift, a call in each, the second window goes on with the first one's offset |
| `ScheduleHistory.GapsAreHit` | backend/app/simulation/anomaly_injector.py:108-138 | calls never further apart than the gaps between windows meet both conditions |
| `ScheduleHistory.DriftGrowsToCap` | backend/app/simulation/anomaly_injector.py:152-161 | the drift offset keeps the rate's sign, never shrinks, never passes the cap and stays there |
| `ScheduleHistory.DriftRun` | backend/app/simulation/anomaly_injector.py:152-161 | the same over any chronological run of calls, starting from offset zero at the first |
| `ScheduleHistory.RealtimeValue` | backend/app/simulation/anomaly_injector.py:40-106 | what a call returns under a real-time anomaly is the replay of the calls since its injection, whatever is applied, injected, cleared or loaded elsewhere |
| `ScenarioHistory.TickIsExact` | backend/app/services/scenario_runner.py:118-146 | a tick leaves active exactly the registers with a started step and no ended one |
| `ScenarioHistory.RunIsExact` | backend/app/services/scenario_runner.py:118-158 | the same at every tick of every run, for any step list, with the injector showing just those |
| `ScenarioHistory.InjectedExactlyOnce` | backend/app/services/scenario_runner.py:118-136 | tick k injects a step if and only if its trigger lies between the previous tick and this one, so at most once |
| `ScenarioHistory.CompletesExactly` | backend/app/services/scenario_runner.py:148-158 | a run completes if and only if the total duration has passed |
| `ScenarioHistory.RunCompletes` | backend/app/services/scenario_runner.py:118-158 | the first tick at or after the total duration completes the run with none of its anomalies left |
| `ScenarioHistory.TicksAreBounded` | backend/app/services/scenario_runner.py:118-158 | a run whose ticks are a second or more apart and none of whose ticks before the last completes it has at most total duration + 1 ticks |
| `ScenarioHistory.StopLeavesNone` | backend/app/services/scenario_runner.py:72-88 | a stop between ticks leaves none of the scenario's anomalies |
| `ScenarioHistory.LaterStepIsLost` | backend/app/services/scenario_runner.py:138-146 | in every run, at a tick inside the window of a step that follows an ended step of its register, the injector shows nothing there |
| `ScenarioHistory.SecondStepIsLost` | backend/app/services/scenario_runner.py:138-146 | concrete failing input: two adjoining steps of one register, accepted by the validator, are not shown as declared |
| `ScenarioHistory.WindowsShownExactly` | backend/app/services/scenario_runner.py:118-158 | all runs of an accepted scenario show all windows as declared, tick by tick, if and only if it has at most one step per register |
| `ScenarioHistory.OneStepRunShowsWindows` | backend/app/services/scenario_runner.py:118-158 | then after each tick a step's register is active and anomalous if and only if trigger <= elapsed < end, with that step's anomaly |
| `ScenarioHistory.ReportIsWindows` | backend/app/services/scenario_runner.py:90-116 | the truncated integer clock reports a step, with its remaining seconds, if and only if its window covers the instant |
| `ScenarioHistory.StatusMatchesInjector` | backend/app/services/scenario_runner.py:90-146 | with one step per register, status and injector agree at every tick |
| `MqttHistory.StepByBroker` | backend/app/protocols/mqtt_adapter.py:95-227 | the dictionaries evolve broker by broker: an event changes exactly the books of the broker it concerns |
| `MqttHistory.HistoriesAreConsistent` | backend/app/protocols/mqtt_adapter.py:95-330 | after any history: known brokers are those with settings, connected implies a client with the current settings, a known disconnected broker has a reconnect task, publish tasks and configs have equal keys naming known brokers |
| `MqttHistory.BrokersAreIsolated` | backend/app/protocols/mqtt_adapter.py:95-330 | a step on one broker changes nothing of another |
| `MqttHistory.TaskMatchesExactly` | backend/app/protocols/mqtt_adapter.py:138-163 | a step leaves no reconnect task beside a live connection, except exactly when a connect succeeds while the task is still running |
| `MqttHistory.TaskAlwaysMatchesExactly` | backend/app/protocols/mqtt_adapter.py:95-201 | all through a history a broker has a reconnect task just while it is known and not connected, if and only if no connect of it succeeds while its task is still running |
| `MqttHistory.ConnectedBesideTask` | backend/app/protocols/mqtt_adapter.py:48-113 | concrete failing input: a failed connect and then a successful one, as when the adapter is started twice |
| `MqttHistory.BackoffIsCappedPower` | backend/app/protocols/mqtt_adapter.py:187-201 | the delay before attempt n + 1 is the n-th power of two capped at sixty |
| `MqttHistory.RetriesBackOff` | backend/app/protocols/mqtt_adapter.py:187-201 | after n failures the task sleeps that delay, and one success connects with the stored settings and ends it |
| `MqttPublishing.PublishOne` | backend/app/protocols/mqtt_adapter.py:413-434 | counts one request and then one success or one error |
| `MqttPublishing.TakeTurn` | backend/app/protocols/mqtt_adapter.py:344-411 | one turn in either payload mode: drop, skip, send until the first failure; a failed publish is counted as two errors and two requests |
| `MqttPublishing.PublishLoop` | backend/app/protocols/mqtt_adapter.py:344-434 | at the head of every turn requests equal successes plus errors, and successes are the messages handed over |
| `MqttPublishing.SentBalances` | backend/app/protocols/mqtt_adapter.py:376-434 | the messages of one turn keep the balance |
| `MqttPublishing.RequestsAccountedFor` | backend/app/protocols/mqtt_adapter.py:332-434 | under any interleaving of a device's loops, with cancellation inside publishes: requests are successes, errors, publishes in flight and abandoned ones |
| `MqttPublishing.BalancedExactly` | backend/app/protocols/mqtt_adapter.py:332-434 | the counters balance if and only if nothing is in flight and nothing was abandoned |
| `MqttPublishing.CancelledStaysCounted` | backend/app/protocols/mqtt_adapter.py:413-434 | concrete failing input: a publish cancelled in flight leaves one request and neither a success nor an error |
| `MqttPublishing.TurnIsItsSteps` | backend/app/protocols/mqtt_adapter.py:344-434 | a turn of the loop is the sequence of its interleavable steps, each of which is possible where the ones before it lead |
| `SimulationTick.ValidConfigsSweep` | backend/app/simulation/engine.py:257-272 | the sweep runs exactly the configs the template knows, in sort order |
| `SimulationTick.ComputedOverSeenValues` | backend/app/simulation/engine.py:288-307 | after an error-free tick a computed register holds its expression over new values of earlier and old values of later registers |
| `SimulationTick.EquationsHoldTogether` | backend/app/simulation/engine.py:260-307 | if computed registers refer backward in sort order, all computed equations hold at once over the stored values after an error-free tick without anomalies on them |
| `SimulationTick.DeviceTickSolvesEquations` | backend/app/simulation/engine.py:257-307 | the same for a device's configs as the loop filters and sorts them, when each register is configured at most once |
| `SimulationLifecycle.RunTicks` | backend/app/simulation/engine.py:274-336 | the loop halts after exactly the first tick that ends five consecutive failures |
| `SimulationHistory.CrashLeadsTo` | backend/app/simulation/engine.py:92-121 | the n-th crash since a device was idle waits 2, 4, 8, 16 or 32 seconds, the sixth marks it in error and leaves it idle |
| `SimulationHistory.ChainIsBounded` | backend/app/simulation/engine.py:54-136 | from any state in which the device is idle, whatever other devices do and however launches end, one start leads to at most six launches, and the restart after the n-th waits the n-th delay |
| `SimulationHistory.StopIsFinalExactly` | backend/app/simulation/engine.py:54-150 | no history without a start brings the device back after a stop if and only if no launch of it is under way, no restart of it waits, no crash of it is still to be called back and none of its tasks runs unregistered |
| `SimulationHistory.StopLosesToLaunch` | backend/app/simulation/engine.py:62-150 | concrete failing input: a stop while a launch waits for the database |
| `SimulationHistory.StopLosesToRestart` | backend/app/simulation/engine.py:123-150 | concrete failing input: start, crash, callback, stop, restart |
| `SimulationHistory.StopLosesToCallback` | backend/app/simulation/engine.py:92-150 | concrete failing input: a stop between a crash and its callback |
| `SimulationHistory.StopLosesToOrphan` | backend/app/simulation/engine.py:123-150 | concrete failing input: stopped and started while a restart waits, the device keeps a task that the next stop does not reach |
| `OpcUaAgent.CoercedIsWritable` | backend/app/protocols/opcua_agent.py:45-64 | coercion lands in the type's writable range and changes in-range values only by truncation |
| `OpcUaHistory.HistoriesSynchronize` | backend/app/protocols/opcua_agent.py:148-396 | after any history every cached value is writable and unfaulted devices show their cache |
| `OpcUaHistory.OverlayIsTransparent` | backend/app/protocols/opcua_agent.py:227-396 | the nodes of a device that is not faulted are what they would be had no fault ever happened |
| `OpcUaHistory.NodesHoldLatest` | backend/app/protocols/opcua_agent.py:227-396 | whenever the device is not faulted each node holds the coerced latest pushed value |
| `OpcUaHistory.ReadsAreLatest` | backend/app/protocols/opcua_agent.py:255-293 | after every history in which no device is added again, with registers, while it is marked faulted and the server runs, clients read the latest value, except exactly when the device is faulted and the fault is one that shows, which gives its status |
| `OpcUaHistory.AttachedReads` | backend/app/protocols/opcua_agent.py:255-293 | the same after any history that leaves every node of a faulted device with its callback |
| `OpcUaHistory.AttachedExactly` | backend/app/protocols/opcua_agent.py:148-197 | a step keeps faulted devices answering from callbacks, except exactly when a device still marked faulted is added again with registers while the server runs |
| `OpcUaHistory.AttachedAlwaysExactly` | backend/app/protocols/opcua_agent.py:148-396 | all through a history faulted devices answer from callbacks, if and only if no device is added again like that |
| `OpcUaHistory.AddedAgainIsDetached` | backend/app/protocols/opcua_agent.py:148-197 | concrete failing input: a device added twice while a fault is set has a node without callback |
| `OpcUaHistory.DetachedReadsAreStale` | backend/app/protocols/opcua_agent.py:148-293 | after it, clients read a good zero whatever value is pushed and whatever the fault |
| `Upserts.AcceptedExactly` | backend/app/services/system_service.py:186-264 | an upsert loop gets through if and only if every row can be written and no key is inserted twice |
| `Upserts.RowsFollowEntries` | backend/app/services/system_service.py:186-313 | each row ends up as if only the entries of its own key had been there |
| `Upserts.RerunChangesNothing` | backend/app/services/system_service.py:186-402 | a second run over the same entries inserts nothing and changes no row that is settled under its own entries |
| `Upserts.IndexFollowsLastEntry` | backend/app/services/system_service.py:266-313 | a device name leads to the device of the last entry of that name |
| `ConfigReplacement.ReplacedExactly` | backend/app/services/system_service.py:315-338 | clear once per name, then insert gets through if and only if, of any two configs that land on one row, a config after the first and up to the second makes the loop clear the row's device |
| `ConfigReplacement.ReplacedRows` | backend/app/services/system_service.py:315-364 | a device some config reaches holds afterwards exactly the configs that landed on it and were not cleared again under another name, with their values |
| `ConfigReplacement.SeparateExactly` | backend/app/services/system_service.py:315-338 | where no two names lead to one device, the loop gets through if and only if no two configs land on one row |
| `ConfigReplacement.SeparateRows` | backend/app/services/system_service.py:315-364 | and a device some config reaches then holds exactly those configs |
| `ConfigReplacement.ReplaceAgainExactly` | backend/app/services/system_service.py:315-364 | a second replacement under names that share devices as before always gets through, and changes nothing if and only if every configured name leads to the same configs as before |
| `ConfigReplacement.PublishAgainExactly` | backend/app/services/system_service.py:404-434 | likewise for publish configs, broker by broker |
| `ConfigReplacement.UntouchedKeepRows` | backend/app/services/system_service.py:315-364 | a device no config reaches keeps its rows |
| `ConfigReplacement.ReplaceTwice` | backend/app/services/system_service.py:315-364 | replacing twice is replacing once, even when two names lead to one device |
| `ConfigReplacement.PublishTwice` | backend/app/services/system_service.py:404-434 | upserting the same publish configs twice is upserting them once |
| `ConfigReplacement.PublishedRows` | backend/app/services/system_service.py:404-434 | each pair of device and broker holds its last config, or what it held before |
| `ImportStages.ImportKeepsConsistent` | backend/app/services/system_service.py:181-437 | a successful import satisfies every uniqueness and reference constraint of the tables again |
| `ImportLaws.DeviceNameExactly` | backend/app/services/system_service.py:266-313 | a name an entry assigns leads to a device of the snapshot, any other name to the first stored device that carries it, if there is one |
| `ImportLaws.ImportTwiceExactly` | backend/app/services/system_service.py:181-437 | importing the same snapshot again always succeeds, and changes nothing if and only if, wherever the two imports find different first devices for a name no entry assigns, the two devices agree in each section that mentions the name |
| `ImportLaws.ImportTwice` | backend/app/services/system_service.py:181-437 | so importing twice is importing once whenever both device queries list unmentioned devices of one name alike, as unique names or a stable row order ensure |
| `ImportLaws.OtherFirstChanges` | backend/app/services/system_service.py:310-364 | failing inputs in any database: one simulation config for a name, imported again while another device of that name comes first that does not hold it, changes that device too |
| `ImportLaws.UnmentionedKept` | backend/app/services/system_service.py:266-434 | a device the snapshot never mentions keeps its row and all its configs |
| `SnapshotRoundTrip.RoundTripExactly` | backend/app/services/system_service.py:30-437 | importing one's own export gives the database back, minus object identifiers and running states, if and only if among devices of one name only the last listed owns configs, up to publish configs that agree |
| `SnapshotRoundTrip.RoundTrip` | backend/app/services/system_service.py:30-437 | so it does whenever device names are unique |
| `SnapshotRoundTrip.SharedNameBreaksRoundTrip` | backend/app/services/system_service.py:310-338 | concrete counterexample: of two devices of one name, the second takes over the first one's simulation config |
| `SnapshotRoundTrip.SharedNameChangesAgain` | backend/app/services/system_service.py:310-338 | concrete counterexample: a config for that name, imported twice over those two devices listed the other way round, is not the same as imported once |
| `SnapshotRestore.RestoredElsewhere` | backend/app/services/system_service.py:30-437 | an export with unique device names, imported where only the built-in templates are, gives the same devices, templates, configs, schedules, brokers and publish configs under new ids, and no other devices or brokers |
| `ExpressionTexts.OperatorsEvaluate` | backend/app/simulation/expression_parser.py:24-101 | for all variables a and b that print as finite numbers, the texts "{a} + {b}", "{a} - {b}", "{a} * {b}" and "{a} / {b}" evaluate to the sum, difference, product and quotient, the last being 0.0 when b is zero |
| `ExpressionTexts.TextReadsBack` | backend/app/simulation/expression_parser.py:50-57 | every expression tree has a text, with each binary operation in parentheses, that parses to just that tree |
| `ExpressionTexts.TripleReadsBack` | backend/app/simulation/expression_parser.py:50-57 | two operators in a row: times and divided bind before plus and minus, equal ones group from the left |
| `ExpressionTexts.TextEvaluates` | backend/app/simulation/expression_parser.py:24-101 | and that text evaluates to the meaning of the tree |
| `ExpressionTexts.VariablesEvaluate` | backend/app/simulation/expression_parser.py:42-48 | a variable with or without a sign evaluates to its value or the negated one, a missing variable to 0.0, and one that is not a finite number is refused |
| `ExpressionTexts.ConstantsEvaluate` | backend/app/simulation/expression_parser.py:60-101 | a numeral evaluates to itself, True and False to one and zero, any other name is refused |
| `ExpressionTexts.ErrorsExactly` | backend/app/simulation/expression_parser.py:39-57 | a text of blanks is reported as empty, any other one as a syntax error if and only if its substituted form is no expression |
| `ExpressionTexts.LeadingBlankRefused` | backend/app/simulation/expression_parser.py:39-57 | a leading blank is a syntax error, since only the test for an empty text strips |
| `ExpressionTexts.LeadingZerosRefused` | backend/app/simulation/expression_parser.py:50-57 | digits are a literal if and only if they do not start with a zero or are all zeros |
| `ExpressionTexts.PrintedFormsAreNumerals` | backend/app/simulation/expression_parser.py:42-48 | every form in which a finite float prints is one literal |
| `ModbusBytes.WideWords` | backend/app/protocols/modbus_tcp.py:44-89 | with raw the big-endian bytes of the value, word i of n is raw[2i] raw[2i+1] for big_endian, raw[2i+1] raw[2i] for big_endian_word_swap, and the same two of word n - 1 - i of raw, in straight order for little_endian_word_swap and exchanged for little_endian |
| `ModbusBytes.FourOrders` | backend/app/protocols/modbus_tcp.py:64-89 | 0x01020304 in the four orders, word by word |
| `ModbusBytes.SixteenBitWords` | backend/app/protocols/modbus_tcp.py:44-58 | uint16 never fails on a number and wraps modulo 65536; int16 takes two's complement and refuses what is out of range |
| `ModbusBytes.WideErrors` | backend/app/protocols/modbus_tcp.py:35-89 | which values, types and orders are refused, and with which error |
| `ModbusRegistry.RemovalFreesSlave` | backend/app/protocols/modbus_tcp.py:268-321 | a removed device's slave id can be registered again at once |
| `ModbusRegistry.UnitByDevice` | backend/app/protocols/modbus_tcp.py:268-321 | the slave id of each device, event by event |
| `ModbusRegistry.RegistersByDevice` | backend/app/protocols/modbus_tcp.py:268-321 | the registers each device is served with, event by event |
| `ModbusRegistry.CountersByDevice` | backend/app/protocols/base.py:87-115 | the statistics of each device, event by event: a refused registration drops them |
| `ModbusRegistry.StepBySlave` | backend/app/protocols/modbus_tcp.py:268-321 | which slave ids are taken, event by event |
| `ModbusRegistry.FreshSlaveIsZeroed` | backend/app/protocols/modbus_tcp.py:284-306 | a new slave holds zeros in blocks just as long as its furthest register needs |
| `ModbusRegistry.UpdateWritesItsWords` | backend/app/protocols/modbus_tcp.py:323-341 | an accepted update writes the encoded words at the register's address in the block of its function code, and every other word, block and slave is as before |
| `ModbusRegistry.RefusedUpdateChangesNothing` | backend/app/protocols/modbus_tcp.py:323-341 | an update of an unknown device or with a value that cannot be encoded reports just that and changes nothing |
| `SnmpReplies.NextAnswersAlways` | backend/app/protocols/snmp_agent.py:70-87 | after every history GETNEXT answers with the least registered identifier above the requested one that has a value, with the simulation's value of the register that owns it and that register's data type; with an error if a device in error comes first; with end of view if neither is left |
| `SnmpReplies.WalkAnswersValues` | backend/app/protocols/snmp_agent.py:70-87 | a walk without errors answers exactly the identifiers that have a value, with those values and types |
| `SnmpReplies.StepByOid` | backend/app/protocols/snmp_agent.py:255-301 | the owner, register and data type of each identifier, event by event |
| `SnmpReplies.StepByDevice` | backend/app/protocols/snmp_agent.py:255-301 | the identifiers and statistics of each device, event by event |
| `SnmpReplies.LessIsTupleOrder` | backend/app/protocols/snmp_agent.py:23-35 | identifiers are ordered as number sequences: the first difference decides, and a prefix comes first |
| `AnomalyValues.RealtimeDistorts` | backend/app/simulation/anomaly_injector.py:40-173 | after an injection and any history that leaves it in place: a spike multiplies the value if and only if the roll is below its probability, a flatline gives its value or that of the first call, out-of-range its value, data loss 0.0, drift the value plus rate times time since the first call up to the cap, and an unknown kind the value itself |
| `AnomalyValues.ScheduleDistorts` | backend/app/simulation/anomaly_injector.py:74-173 | after loading schedules, outside every window a value stays as it is, and inside it is distorted in the same way by the entry that covered the first call of the unbroken run |
| `AnomalyValues.CoveringIsFirst` | backend/app/simulation/anomaly_injector.py:115-128 | the entry that covers a time is the first in list order whose window contains it |
| `AnomalyValues.StepByRegister` | backend/app/simulation/anomaly_injector.py:40-106 | the real-time anomaly of each register, event by event |
| `AnomalyValues.SchedulesByDevice` | backend/app/simulation/anomaly_injector.py:64-86 | the schedules of each device, event by event |
| `AnomalyValues.SlotByRegister` | backend/app/simulation/anomaly_injector.py:64-138 | only calls on a register, loading and clearing its device change its scheduled state |
| `ScenarioStatus.StatusIs` | backend/app/services/scenario_runner.py:90-116 | the status gives the total, the whole seconds elapsed up to the total, and the steps whose windows cover the instant |
| `ScenarioStatus.StopRemovesActive` | backend/app/services/scenario_runner.py:72-88 | a stop removes the anomalies of the active registers and no others |
| `ScenarioStatus.CompletesForAnyTotal` | backend/app/services/scenario_runner.py:148-158 | whatever total is stored, a tick completes the run if and only if the total has passed and no register is inside a step |
| `MqttRoutes.StepByRoute` | backend/app/protocols/mqtt_adapter.py:95-330 | each publish route, event by event: a start for that device on that broker, when connected, sets its config; a stop of that device, for that broker or all, its removal, and the end of that broker end it; everything else leaves it with its config |
| `MqttRoutes.RoutesFollowHistory` | backend/app/protocols/mqtt_adapter.py:95-330 | after every history a device publishes to a broker if and only if, and with the config that, its last accepted start said and nothing since then ended |
| `MqttRoutes.StepByDevice` | backend/app/protocols/mqtt_adapter.py:229-330 | the registration and the counters of each device, event by event |
| `MqttRoutes.KnownAreDescribed` | backend/app/protocols/mqtt_adapter.py:95-136 | a known broker is shown under the name and address of its settings |
| `MqttRoutes.DelaysInSeconds` | backend/app/protocols/mqtt_adapter.py:187-201 | 1, 2, 4, 8, 16 and 32 seconds, then 60 |
| `PublishCounts.TurnCounts` | backend/app/protocols/mqtt_adapter.py:376-434 | a turn counts a request and a success for each message up to the first that does not arrive, then one request and error if its topic does not render, two of each if the publish fails, and tries no more |
| `PublishCounts.StepCounts` | backend/app/protocols/mqtt_adapter.py:332-434 | what each interleavable step counts |
| `SimulationValues.StoredValue` | backend/app/simulation/engine.py:274-307 | after a tick each register holds, as the injector altered it, its static value, the drawn one, start plus increment times elapsed time, or its expression over what its turn saw; where the mode raises, the old value |
| `SimulationValues.OtherValuesKept` | backend/app/simulation/engine.py:274-307 | a register without a config keeps its value |
| `SimulationValues.SentValues` | backend/app/simulation/engine.py:288-314 | the adapter gets the altered values divided by the scale factor, undivided where that is zero, in sweep order, without those that failed |
| `SimulationValues.FailsExactly` | backend/app/simulation/engine.py:274-314 | a tick has an error if and only if some register's mode raises or its push fails |
| `SimulationDevices.StepByTask` | backend/app/simulation/engine.py:54-150 | each task, event by event, with its phase and restart delay |
| `SimulationDevices.StateByDevice` | backend/app/simulation/engine.py:54-150 | the registered task of each device, event by event |
| `SimulationDevices.NewTasks` | backend/app/simulation/engine.py:54-131 | which events begin a launch, and with which restart count |
| `SimulationDevices.LoadedByDevice` | backend/app/simulation/engine.py:62-150 | whether a device's values and schedules are held, event by event |
| `SimulationDevices.ErrorsByDevice` | backend/app/simulation/engine.py:62-136 | when a device is marked in error: its loop gave up, a restart could not launch it, or it crashed a sixth time |
| `OpcUaValues.CoercedIsShown` | backend/app/protocols/opcua_agent.py:45-64 | a pushed value is cut off at the nearer bound of its type, truncated towards zero in between, and zero where it is no number and the type is an integer |
| `OpcUaValues.ReadsShowPushes` | backend/app/protocols/opcua_agent.py:148-293 | after every history in which no faulted device is added again, a client reads the last pushed value in that form, zero before the first push, or the status of the fault that is set |
| `OpcUaValues.StepByNode` | backend/app/protocols/opcua_agent.py:148-225 | which nodes there are, event by event |
| `OpcUaValues.StepByMark` | backend/app/protocols/opcua_agent.py:148-396 | which devices are marked faulted, event by event |
| `Instants.AcceptableExactly` | backend/app/services/scenario_service.py:47-72 | a timeline is acceptable if and only if all registers exist and no instant lies in two windows of one register |
| `Instants.AddressesDisjointExactly` | backend/app/services/template_service.py:28-52 | registers are disjoint if and only if no two of one function code occupy a common address |
| `Instants.SortIsStable` | backend/app/services/scenario_service.py:64 | sorting keeps the order of elements with equal keys |
| `ImportedRows.ImportedDevice` | backend/app/services/system_service.py:266-313 | a device of an entry's unit and port has the name, description and template of the last such entry, and is stopped if it was running, stopped or new, and failed only if it had failed |
| `ImportedRows.EntriesHaveDevices` | backend/app/services/system_service.py:281-306 | every device entry has a device of its unit and port afterwards |
| `ImportedRows.UnlistedDeviceKept` | backend/app/services/system_service.py:266-313 | a device whose unit and port no entry has keeps its row, running or not |
| `ImportedRows.ImportedTemplate` | backend/app/services/system_service.py:185-264 | a template has the protocol, description and just the registers of the last entry that is not built in, and is built in if it was before |
| `ImportedRows.OtherTemplateKept` | backend/app/services/system_service.py:185-264 | a template that no such entry names is left alone |
| `ImportedRows.ImportedBroker` | backend/app/services/system_service.py:366-402 | a broker is as its last entry says, a legacy one being the last and named default; its password is the last unmasked one given, else the stored one |
| `ImportedRows.ListedBrokersPresent` | backend/app/services/system_service.py:366-402 | every listed broker is there afterwards |
| `ImportedRows.UnlistedBrokerKept` | backend/app/services/system_service.py:366-402 | a broker that is not listed is left alone |
| `ImportAcceptance.ImportAcceptedExactly` | backend/app/services/system_service.py:181-437 | an import succeeds if and only if no written template repeats a register name or slot, no new template and no new unit and port is listed twice, every device's template is stored or listed, and of two configs on one row the later one's device is cleared in between |
| `ImportAcceptance.ImportErrorIs` | backend/app/services/system_service.py:275-280 | an unknown-template error names a listed device and its template, which is neither stored nor listed |
| `ModbusTcp.ModbusTcpAdapter.SizeBlocks` | backend/app/protocols/modbus_tcp.py:284-297 | the sizing loop reaches one past the last word of every register, with the library's offset of one |
| `ModbusTcp.ModbusTcpAdapter.AddDevice` | backend/app/protocols/modbus_tcp.py:268-306 | a registration fails when the server is stopped or the slave id is taken, and then leaves all but the device's statistics entry alone, otherwise it adds a zeroed datastore |
| `ModbusTcp.ModbusTcpAdapter.RemoveDevice` | backend/app/protocols/modbus_tcp.py:308-321 | removes the slave and the mapping of the device, nothing else |
| `ModbusTcp.ModbusTcpAdapter.UpdateRegister` | backend/app/protocols/modbus_tcp.py:323-341 | writes the encoded words at the offset address of the right block, or reports the error unchanged |
| `SnmpAgent.SnmpAdapter.InvalidateSortedOids` | backend/app/protocols/snmp_agent.py:390-395 | whatever the cache was, afterwards it lists every identifier of the map once, in ascending order |
| `SnmpAgent.SnmpAdapter.FindConflict` | backend/app/protocols/snmp_agent.py:265-276 | reports an identifier owned by another device if and only if there is one |
| `SnmpAgent.SnmpAdapter.AddDevice` | backend/app/protocols/snmp_agent.py:255-290 | a conflicting registration leaves maps, lists and cache alone and takes its statistics entry back, any other enters all identifiers |
| `SnmpAgent.SnmpAdapter.RemoveDevice` | backend/app/protocols/snmp_agent.py:292-301 | removes the device's identifiers and rebuilds the cache |
| `SnmpAgent.SnmpAdapter.GetNextOid` | backend/app/protocols/snmp_agent.py:380-388 | the first cached identifier above the argument, or none |
| `SnmpAgent.SnmpAdapter.ReadNext` | backend/app/protocols/snmp_agent.py:70-87 | the cursor loop skips identifiers without a value and raises on an exception fault |
| `AnomalyInjection.AnomalyInjector.Inject` | backend/app/simulation/anomaly_injector.py:40-53 | sets a fresh anomaly for the register and nothing else |
| `AnomalyInjection.AnomalyInjector.Remove` | backend/app/simulation/anomaly_injector.py:55-58 | removes the register's real-time anomaly and nothing else |
| `AnomalyInjection.AnomalyInjector.ClearDevice` | backend/app/simulation/anomaly_injector.py:64-68 | forgets anomalies, schedules and scheduled states of the device |
| `AnomalyInjection.AnomalyInjector.LoadSchedules` | backend/app/simulation/anomaly_injector.py:74-86 | replaces the schedules and resets scheduled states |
| `AnomalyInjection.AnomalyInjector.FindCovering` | backend/app/simulation/anomaly_injector.py:115-128 | the first entry of the register whose window covers the time, or none if there is none |
| `AnomalyInjection.AnomalyInjector.UpdateScheduled` | backend/app/simulation/anomaly_injector.py:108-138 | enters a state when a window starts to cover, keeps it while any covers, drops it when none does |
| `AnomalyInjection.AnomalyInjector.Apply` | backend/app/simulation/anomaly_injector.py:88-173 | a real-time anomaly wins over a scheduled one; the value and the state after the call |
| `ScenarioExecution.ScenarioRunner.Start` | backend/app/services/scenario_runner.py:45-70 | refuses a device that is running, otherwise starts a fresh timeline |
| `ScenarioExecution.ScenarioRunner.StartDueSteps` | backend/app/services/scenario_runner.py:118-136 | injects the anomalies of the steps that have become due, each once, and marks their registers active |
| `ScenarioExecution.ScenarioRunner.EndExpiredSteps` | backend/app/services/scenario_runner.py:138-146 | removes the anomaly of every active register that a started step of it has run out on |
| `ScenarioExecution.ScenarioRunner.Tick` | backend/app/services/scenario_runner.py:118-158 | one turn of the timeline loop: activation pass, deactivation pass by register name, completion |
| `ScenarioExecution.ScenarioRunner.Stop` | backend/app/services/scenario_runner.py:72-88 | removes the anomalies of the active registers and forgets the run |
| `ScenarioExecution.ScenarioRunner.GetStatus` | backend/app/services/scenario_runner.py:90-116 | reports the steps whose windows contain the whole second |
| `MqttAdapter.MqttAdapter.ConnectBroker` | backend/app/protocols/mqtt_adapter.py:95-113 | stores settings, tries to connect and schedules reconnection on failure |
| `MqttAdapter.MqttAdapter.DisconnectBroker` | backend/app/protocols/mqtt_adapter.py:115-123 | cancels the task, closes the client and forgets the broker with its routes |
| `MqttAdapter.MqttAdapter.ReconnectBroker` | backend/app/protocols/mqtt_adapter.py:125-136 | tears the connection down and connects with the new settings |
| `MqttAdapter.MqttAdapter.MarkBrokerDisconnected` | backend/app/protocols/mqtt_adapter.py:165-174 | flags the broker and schedules reconnection when it was known |
| `MqttAdapter.MqttAdapter.RetryTurn` | backend/app/protocols/mqtt_adapter.py:187-201 | one turn of the reconnect loop: connect or double the delay up to sixty seconds |
| `MqttAdapter.MqttAdapter.StartPublishing` | backend/app/protocols/mqtt_adapter.py:281-303 | refuses an unconnected broker, otherwise replaces the task and config of the route |
| `MqttAdapter.MqttAdapter.StopPublishing` | backend/app/protocols/mqtt_adapter.py:305-318 | cancels the tasks of a device, for one broker or for all |
| `MqttAdapter.MqttAdapter.Stop` | backend/app/protocols/mqtt_adapter.py:73-91 | ends all tasks and forgets everything |
| `SimulationTick.SimulationEngine.Tick` | backend/app/simulation/engine.py:274-314 | the in-place sweep over the shared value map, with the adapter calls it makes and its error flag |
| `SimulationLifecycle.SimulationTasks.StartDevice` | backend/app/simulation/engine.py:54-60 | begins a launch unless a task of the device is registered |
| `SimulationLifecycle.SimulationTasks.EndLaunch` | backend/app/simulation/engine.py:62-136 | what a launch does once its database loads are through: registers a running task, or nothing to simulate, or an exception, which a restart answers by marking the device in error |
| `SimulationLifecycle.SimulationTasks.OnTaskDone` | backend/app/simulation/engine.py:92-121 | the done callback: nothing for a cancelled task, the state goes for one that returned, a crash is counted on whatever state is registered and schedules a restart or marks the device in error |
| `SimulationLifecycle.SimulationTasks.FireRestart` | backend/app/simulation/engine.py:123-131 | a delayed restart forgets whatever is registered and begins a launch with its count |
| `SimulationLifecycle.SimulationTasks.StopDevice` | backend/app/simulation/engine.py:138-150 | forgets and cancels the registered task, and drops values and schedules unless awaiting the task raises |
| `OpcUaAgent.OpcUaAdapter.AddDevice` | backend/app/protocols/opcua_agent.py:148-197 | creates a zero node and cache entry per register, or takes the statistics entry back when the server is down |
| `OpcUaAgent.OpcUaAdapter.RemoveDevice` | backend/app/protocols/opcua_agent.py:199-225 | removes the device's nodes, cache entries and fault mark |
| `OpcUaAgent.OpcUaAdapter.UpdateRegister` | backend/app/protocols/opcua_agent.py:227-251 | caches the coerced value and writes the node unless the device is faulted |
| `OpcUaAgent.OpcUaAdapter.ApplyFault` | backend/app/protocols/opcua_agent.py:363-374 | attaches a callback to every node of the device once |
| `OpcUaAgent.OpcUaAdapter.RemoveFault` | backend/app/protocols/opcua_agent.py:376-396 | writes every node of the device back from the cache |
| `SystemService.Session.ExportSystem` | backend/app/services/system_service.py:30-178 | the export loops write down every table in its query order, by name |
| `SystemService.Session.ImportSystem` | backend/app/services/system_service.py:181-437 | all or nothing: an error leaves every table as it was, success is the six sections in order |
| `SystemService.Session.ImportTemplates` | backend/app/services/system_service.py:185-264 | the template loop: skip built-ins, update by name with fresh registers, create |
| `SystemService.Session.ImportDevices` | backend/app/services/system_service.py:266-313 | the device loop: unknown template error, update by unit and port, create, then stored names |
| `SystemService.Session.ReplaceConfigs` | backend/app/services/system_service.py:315-364 | the clear-once-then-insert loop of simulation configs and schedules |
| `SystemService.Session.ImportBrokers` | backend/app/services/system_service.py:366-402 | the broker loop: upsert by name, a masked password keeps the stored one |
| `SystemService.Session.ImportPublishes` | backend/app/services/system_service.py:404-434 | the publish-config loop: upsert by device and broker |

## Left out

- The frontend, the HTTP routes, the WebSocket broadcast and the migrations: plumbing.
- BACnet: its ownership map is a weaker copy of the SNMP one, the rest lives in a library.
- pymodbus, asyncua, pysnmp and aiomqtt internals: only the dictionaries, arrays and callbacks the repository owns are modelled.
- Modbus request tracing and the timed restoration of suppressed slaves: they depend on library delivery and unsynchronised timers.
- Client writes, the write tracker and the event log.
- Float bit patterns: 4- and 8-byte strings given from outside. Integers are exact, and expression arithmetic is any arithmetic whose finite numbers print and read back.
- ExpressionText.LexSubstituted: the lexer has decimal and exponent literals, names, operators, parentheses, braces and blanks; digit separators, other bases, imaginary literals, comments, newlines and non-ASCII text are not part of it.
- Anomaly and scenario times are real numbers; drift is computed over reals.
- Spike probability, random mode, the daily curve and intermittent faults: outcomes given from outside.
- SNMP identifiers are canonical number sequences: strings such as 1.06 and 1.6 are not told apart.
- resolve_pdu_device, value typing and the fault delays of the SNMP responder.
- MQTT and OPC UA methods are atomic steps: interleavings at their suspension points are not modelled, except for the publish counters. Resetting statistics during a publish and response times are left out.
- OpcUaAgent.OpcUaAdapter.RemoveFault: writes to nodes succeed; the code logs and goes on when one fails.
- ScenarioHistory.StatusMatchesInjector: states the agreement at tick instants; between ticks the injector holds the state of the last tick.
- Other callers that inject or clear anomalies on the scenario's registers during a run.
- The engine's shutdown, and reloading a device, which is a stop and a start. A launch is two steps, before and after its two database loads together; every other method of the engine is one step, so what happens while a stop waits for the task it cancelled is not part of the model.
- Scenario, schedule and template storage, existence checks, import result counters and the snapshot version check: true but easy.
- Database sessions: tables are maps with their stated constraints, ids come from one counter, an import is one transaction, and timestamps are dropped. A template's registers are stored with it.
- SnapshotRestore.RestoredElsewhere: assumes unique device names, the built-in templates present and no built-in where the source has its own template; exact conditions are given for the import into the same system.
