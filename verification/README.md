# PyPNM: verified models

PyPNM drives DOCSIS cable modems and CMTS equipment: it reads and sets SNMP objects, directly or through remote
agents, starts measurements, and turns the answers into data. This project models the parts of it that hold state,
run a protocol or parse text, and proves what they keep. The modules follow the program's files:

- `TaskProtocol`: the remote-agent task manager. Its methods are those of a class over three maps, and a state machine
  interleaves them: a step is the code between two awaits. The results are about all runs.
- `Oids`, `OidNames`, `SnmpWalk`: object identifiers as text and as sequences, the two name resolvers, and `walk` and
  `bulk_walk` against devices that answer by sections 4.2.2 and 4.2.3 of RFC 3416.
- `AgentText`, `AgentPrinter`, `AgentBulk`: the agent transport's parser of SNMP output, the printers it undoes, and its
  batched get.
- `PyHeap`, `ConfigMerge`, `MergeLaws`, `KeyRemoval`: Python's dicts, lists and tuples on a heap, the in-place
  configuration merge with the nested lookup, and recursive key removal, each refining a pure function on trees whose
  laws are proved.
- `ModemSets`: the modem's verified set-then-trigger sequences, as traces of requests to a device that answers
  anything.
- `UtscLimits`, `UtscRun`, `UtscTrace`, `UtscSafety`, `UtscSettings`: the UTSC provisioning script. Every step is a
  method proved to issue the requests that a function of the device's answers gives; the rules of whole runs, and what
  a run has sent when it starts the test, are theorems about the log.
- `Codewords`, `SysDescr`, `Hexdump`: error-rate aggregation, and two printers with their readers.
- `Wrappers`, `PyText`: optional values and Python's string operations.

Inputs and outputs are parameters: a device is a function from the number of a request to its answer, a clock a
function from the number of a reading to a time, the compiled OID table a map. Exceptions are a `Raised` result.

Where code and documentation disagree, the model follows the code:

- `bulk_walk` is documented as a faster `walk`. It appends the endOfMibView bindings of a reply that runs off the end
  of the MIB, and it stops after one accepted reply. `SnmpWalk.BulkWalkAgainstWalk` says exactly when its result is a
  prefix of the walk's, and when it is all of it.
- The transport's resolver is documented as a mirror of the client's. It accepts hyphens in names, the client does
  not, and the shipped table has such names (`OidNames.ResolversAgreeIff`).
- The spectrum method's documentation ties Enable to the retrieval type and to `set_and_go`. The code always toggles
  Enable and never reads `set_and_go`.
- `_send_and_wait` has a branch for error messages, but the manager never delivers one to an async waiter
  (`TaskProtocol.AgentErrorNeverDelivered`).
- An unrequested answer in a batch can take a requested name. `AgentBulk.BulkRefinesGet` and
  `AgentBulk.OrderMattersIff` say exactly when that shows.
- A deep merge is not associative; `MergeLaws.AssociativeIff` says exactly when it is.
- A comment in the spectrum precheck speaks of lowering the last centre frequency; the code raises the first one.

## Model

| member | source | states |
|---|---|---|
| TaskProtocol.RunInvariant | src/pypnm/api/agent/manager.py:140-317 | In every reachable state of every interleaving of sends, failures, messages, waits and time-outs, the pending map and the sync queues have exactly the live ids as keys, and the async queues have the live and the send-failed ones |
| TaskProtocol.IssuedIdsPartition | src/pypnm/api/agent/manager.py:239-317 | Every id ever issued is live, finished or send-failed and only one of these, and the issued ids are exactly those a send has begun with |
| TaskProtocol.AsyncResultIsFirstResponse | src/pypnm/api/agent/manager.py:157-166 | A non-None result of `wait_for_task_async` is the first response about its own id since registration; duplicates, errors and messages about other tasks never take its place |
| TaskProtocol.SyncResultIsFirstMessage | src/pypnm/api/agent/manager.py:279-295 | A non-None result of `wait_for_task` is the first message about its own id, response or error |
| TaskProtocol.WaiterWakesIffHeard | src/pypnm/api/agent/manager.py:180-191 | A waiter can take something exactly when a message its queue accepts has been handled; an error alone never wakes an async waiter |
| TaskProtocol.StartWaitWaits | src/pypnm/api/agent/manager.py:277-302 | A wait on a returned id always finds its queue and gets to its get |
| TaskProtocol.TakenIff | src/pypnm/api/agent/manager.py:284-307 | In every run a wait has returned a message iff its get completed |
| TaskProtocol.WaitReturns | src/pypnm/api/agent/manager.py:279-317 | In every run a finished wait returned None iff its get did not complete, else the first message about its id, for the async wait the first response |
| TaskProtocol.WaitDelivers | src/pypnm/api/agent/manager.py:239-317 | From any reachable state, a send, a wait and a message the wait may see can follow each other, and then the wait returns that message |
| TaskProtocol.FailsAndTimesOut | src/pypnm/api/agent/manager.py:261-317 | From any reachable state, a send can fail, and a wait can time out and then returns None |
| TaskProtocol.HeardSplits | src/pypnm/api/agent/manager.py:140-191 | The messages heard about an id are those received about it after its registration, in order |
| TaskProtocol.LateMessageChangesNothing | src/pypnm/api/agent/manager.py:140-146 | A message about a finished, send-failed or unknown id changes no entry |
| TaskProtocol.MessagesStaySeparate | src/pypnm/api/agent/manager.py:140-191 | A message about one id leaves record and queues of every other id as they are |
| TaskProtocol.AsyncQueueSize | src/pypnm/api/agent/manager.py:162-166 | In every run no async queue holds more than one message, those of send-failed ids included |
| TaskProtocol.EntriesArePresent | src/pypnm/api/agent/manager.py:271-282 | The two `del` of a failed send never meet a missing key, and a wait on a returned id always finds its queue |
| TaskProtocol.StepKeeps | src/pypnm/api/agent/manager.py:140-317 | One event, whatever its kind and whichever id it is about, keeps the link between an id's entries and the messages heard about it |
| TaskProtocol.RunKnown | src/pypnm/api/agent/manager.py:140-317 | In every run the record, both queues and the result of every id are determined by the messages heard about it since its registration |
| TaskProtocol.CompletedIffHeard | src/pypnm/api/agent/manager.py:148-151 | In every run the stored record of a pending task is completed iff a message about it was handled |
| TaskProtocol.RecordTells | src/pypnm/api/agent/manager.py:148-155 | In every run the stored record of a pending task carries the error field of the last message about it and the result of the last response |
| TaskProtocol.AgentErrorNeverDelivered | src/pypnm/snmp/agent_transport.py:324-339 | Over all runs the caller of `_send_and_wait` gets the result of the first response iff the wait completed, and None otherwise; the error branch is never taken: a task that only got errors is seen as no data |
| TaskProtocol.PutAgentRegisters | src/pypnm/api/agent/manager.py:125-131 | After an accepted authentication the id stands for the new agent once, and all other agents are as before |
| TaskProtocol.AgentsDistinct | src/pypnm/api/agent/manager.py:125-203 | In every history of authentications and disconnects each id stands for one agent |
| TaskProtocol.JoinedIsRegistered | src/pypnm/api/agent/manager.py:125-131 | In every such history, an authentication makes its id stand for the new agent and leaves the agents under other ids as they were |
| TaskProtocol.DisconnectKeepsOthers | src/pypnm/api/agent/manager.py:193-203 | A disconnect never removes an agent on another websocket, so one that has reconnected elsewhere stays |
| TaskProtocol.DisconnectClears | src/pypnm/api/agent/manager.py:193-203 | Exactly when a disconnect leaves no agent on the websocket: it had none, or just one and that one has a truthy id |
| TaskProtocol.AgentManager.constructor | src/pypnm/api/agent/manager.py:23-29 | A new manager has no agents and no entries |
| TaskProtocol.AgentManager.HandleAuth | src/pypnm/api/agent/manager.py:110-131 | A wrong token changes nothing; a right one puts the agent under its id |
| TaskProtocol.AgentManager.RemoveAgent | src/pypnm/api/agent/manager.py:193-203 | The first agent on the websocket goes unless its id is falsy; nothing else changes |
| TaskProtocol.AgentManager.BeginSend | src/pypnm/api/agent/manager.py:239-258 | Three entries appear if the agent is present and authenticated; otherwise the call raises and changes nothing |
| TaskProtocol.AgentManager.FailSend | src/pypnm/api/agent/manager.py:271-275 | A failed send drops the pending task and the sync queue and leaves the async queue |
| TaskProtocol.AgentManager.HandleResponse | src/pypnm/api/agent/manager.py:140-171 | The record is completed, the sync queue grows, and the async queue takes the message only if empty |
| TaskProtocol.AgentManager.HandleError | src/pypnm/api/agent/manager.py:180-191 | The record is completed and only the sync queue grows |
| TaskProtocol.AgentManager.TakeSync | src/pypnm/api/agent/manager.py:284-286 | The get of a blocking wait takes the oldest message of its own queue and touches nothing else |
| TaskProtocol.AgentManager.TakeAsync | src/pypnm/api/agent/manager.py:302-307 | The get of an async wait takes the message of its own queue and touches nothing else |
| TaskProtocol.AgentManager.FinishWait | src/pypnm/api/agent/manager.py:289-317 | A wait hands on what its get gave, and its finally block removes all three entries of the id, present or not |
| Oids.InSubtreeText | src/pypnm/snmp/snmp_v2c.py:890-903 | The subtree test holds of two texts exactly if, without outer dots, they are equal or the first extends the second by a dot and more |
| Oids.InSubtreeOid | src/pypnm/snmp/snmp_v2c.py:901-903 | On printed identifiers the text test is exactly the prefix relation of the component sequences |
| Oids.InSubtreePreorder | src/pypnm/snmp/snmp_v2c.py:901-903 | The subtree test is reflexive and transitive |
| Oids.LongerComponentIsOutside | src/pypnm/snmp/snmp_v2c.py:901-903 | Appending characters to the last component always leaves the subtree, so 1.3.6.10 is not under 1.3.6.1 |
| Oids.SubtreeInterval | src/pypnm/snmp/snmp_v2c.py:206-216 | Whatever stands between the root and a member in lexicographic order is a member, so a walk that stops at the first outsider loses nothing |
| OidNames.ResolversAgreeIff | src/pypnm/snmp/snmp_v2c.py:444-470 | The client's and the transport's resolvers agree on a text exactly unless its name part has a hyphen, matches the transport's pattern, and is in the table or followed by a final line break |
| OidNames.HyphenedNameIsLost | src/pypnm/snmp/snmp_v2c.py:463-470 | A hyphened name of the table, such as the shipped mib-2, is resolved by the transport and handed back unresolved by the client |
| OidNames.ResolveIdempotent | src/pypnm/snmp/agent_transport.py:100-109 | Resolving a resolved OID changes nothing, for both resolvers and every table of numbers under names that are not numbers |
| OidNames.ResolvesKnownNames | src/pypnm/snmp/snmp_v2c.py:448-451 | A known name resolves to its number followed by the suffix it came with |
| OidNames.OthersStay | src/pypnm/snmp/agent_transport.py:100-109 | Numbers, names that the table lacks and texts that start with no name character are handed back as they are |
| OidNames.NumericShape | src/pypnm/snmp/snmp_v2c.py:472-484 | What the numeric test accepts is digits and dots only, and unless it starts with a dot it is a number, a dot and more |
| SnmpWalk.Walk | src/pypnm/snmp/snmp_v2c.py:195-220 | For any stream of answers, a result iff the bindings of the good items begin in the subtree, and then their longest prefix that stays in it |
| SnmpWalk.AllVarBindsAt | src/pypnm/snmp/snmp_v2c.py:195-208 | Every item of the stream adds its bindings where it stands, and a failed one nothing |
| SnmpWalk.TakeUnderShape | src/pypnm/snmp/snmp_v2c.py:209-216 | The bindings taken are the longest prefix all of whose names are in the subtree |
| SnmpWalk.WalkReturnsSubtree | src/pypnm/snmp/snmp_v2c.py:195-220 | On an error-free ordered device that answers GETNEXT one by one (section 4.2.2 of RFC 3416), `walk` returns a result iff there is an instance strictly below the root, and then exactly these, in order |
| SnmpWalk.OneByOne | src/pypnm/snmp/snmp_v2c.py:195-216 | A stream of single bindings is read as these bindings |
| SnmpWalk.ChainIsAfter | src/pypnm/snmp/snmp_v2c.py:187-195 | The only run of repeated GETNEXT answers, each the lexicographically first instance after the one before until there is none, is the device from the root on |
| SnmpWalk.NextIsHead | src/pypnm/snmp/snmp_v2c.py:187-195 | The lexicographically first instance after a name is the head of what the device holds after it |
| SnmpWalk.GetBulkIsRepetitions | src/pypnm/snmp/snmp_v2c.py:280-288 | GETBULK repetitions made one by one (section 4.2.3 of RFC 3416) are the instances after the root and then endOfMibView fillers under the last name |
| SnmpWalk.BelowMembers | src/pypnm/snmp/snmp_v2c.py:195-220 | That result holds an instance iff the device has it strictly below the root, and it is strictly ascending, so each comes once |
| SnmpWalk.AfterSplits | src/pypnm/snmp/snmp_v2c.py:209-214 | The instances after the root are first those of the subtree and then only outsiders |
| SnmpWalk.AttemptsShape | src/pypnm/snmp/snmp_v2c.py:258-261 | Three or four attempts, all repetition counts positive and pairwise distinct, the caller's first when positive, and 10, 5 and 1 among them |
| SnmpWalk.ProcessItem | src/pypnm/snmp/snmp_v2c.py:290-331 | What one item does: an error ends the attempt, tooBig softly and anything else hard; bindings are kept up to the first outsider |
| SnmpWalk.RunAttempt | src/pypnm/snmp/snmp_v2c.py:333-371 | One attempt over any reply: accepted iff it delivers a binding to keep before any error, and then with all of these; otherwise whether the error is hard |
| SnmpWalk.DeliveredIs | src/pypnm/snmp/snmp_v2c.py:333-371 | What a stream delivers is what comes before its first failed item |
| SnmpWalk.HardErrorIs | src/pypnm/snmp/snmp_v2c.py:290-312 | An error ends the attempts iff it is not tooBig and nothing was delivered before it; so does a reply of no known kind |
| SnmpWalk.BulkWalk | src/pypnm/snmp/snmp_v2c.py:255-381 | For any replies, attempts are made in order until one keeps a binding, which is returned, or fails hard; with none accepted the plain walk's result is returned |
| SnmpWalk.KeptAgainstSubtree | src/pypnm/snmp/snmp_v2c.py:317-331 | What is kept of a GETBULK response of m bindings (section 4.2.3 of RFC 3416) against the subtree: anything iff there is a binding and the subtree is not empty or nothing follows the root; a prefix, and all of it iff m is at least its size, unless the response runs off a device that ends inside the subtree, when endOfMibView bindings follow |
| SnmpWalk.BulkWalkAgainstWalk | src/pypnm/snmp/snmp_v2c.py:222-381 | On an ordered device, over all lawful replies: a reply is accepted iff it holds any binding and the subtree is not empty (or nothing follows the root); with none accepted `bulk_walk` returns what `walk` does; else a non-empty result, a prefix of the walk's iff the reply did not run off the end of the MIB inside the subtree, and equal to it iff moreover the reply held at least as many bindings |
| SnmpWalk.EndOfMibViewLeaksIntoBulkWalk | src/pypnm/snmp/snmp_v2c.py:320-331 | The concrete failing case: a device of one instance and a complete reply of two repetitions make `bulk_walk` return an endOfMibView binding |
| ConfigMerge.DeepMerge | tools/system_config/apply_config.py:29-36 | The in-place merge of disjoint trees makes the target the pure merge, keeps the source's tree, keeps the target's own object where two dicts meet and under keys the source lacks, and shares the source's objects everywhere else; it terminates by the source |
| ConfigMerge.MergeKey | tools/system_config/apply_config.py:31-35 | One round: two dicts are merged in place, anything else is replaced by the source's own object; the other keys are untouched |
| MergeLaws.Get | src/pypnm/config/config_manager.py:84-103 | The nested lookup on the heap returns the value at the path, or the fallback if there is none |
| MergeLaws.LookupMerge | tools/system_config/apply_config.py:31-35 | For every path: what a reader finds in a merge, from what both sides hold there; a path that leaves the source at a missing key sees the target, one blocked by a non-dict of the source finds nothing |
| MergeLaws.SourceLeavesWin | src/pypnm/config/config_manager.py:98-103 | Every non-dict value of the source is found at its path after the merge |
| MergeLaws.FollowIsLookup | src/pypnm/config/config_manager.py:98-103 | The path analysis behind the merge law and the nested lookup find the same value |
| MergeLaws.MergeUnit | tools/system_config/apply_config.py:31-36 | The empty dict is a unit on both sides |
| MergeLaws.MergeIdempotent | tools/system_config/apply_config.py:31-36 | Merging the same source twice is merging it once |
| MergeLaws.CoversIffAbsorbs | tools/system_config/apply_config.py:31-36 | A value disappears under another exactly if every key of it is overwritten or matched, all the way down |
| MergeLaws.AssociativeIff | tools/system_config/apply_config.py:31-36 | Three values merge alike in both orders exactly when no non-dict of the middle one cuts off something of the first that the third does not cover |
| MergeLaws.AssociativeBetweenDicts | tools/system_config/apply_config.py:31-36 | In particular merging is associative if the middle value holds dicts wherever both others do |
| MergeLaws.NotAssociative | tools/system_config/apply_config.py:31-36 | Three configurations for which the order shows |
| KeyRemoval.PopKeysRecursive | src/pypnm/lib/dict_utils.py:47-110 | In place or not, the result is the pure removal, and path by path: with case exactly the paths through a key to remove are cut, without it those through a key whose lower case is that of one, and any other path leads where it led; in place a dict or list is returned itself, otherwise everything returned is new and the argument keeps its value |
| KeyRemoval.Walk | src/pypnm/lib/dict_utils.py:78-108 | The recursive worker on dicts, lists, tuples and scalars computes the pure removal and reuses objects only in place |
| KeyRemoval.WalkDict | src/pypnm/lib/dict_utils.py:79-92 | The dict case: hit keys go first, then every remaining value is walked |
| KeyRemoval.WalkList | src/pypnm/lib/dict_utils.py:94-98 | The in-place list case: every element is walked where it stands, and the list stays itself |
| KeyRemoval.WalkAll | src/pypnm/lib/dict_utils.py:99-102 | The rebuilding cases of lists and tuples: the walked elements in order |
| KeyRemoval.Prune | src/pypnm/lib/dict_utils.py:80-88 | The dict or its shallow copy keeps exactly the entries whose keys are none of those to remove, compared as they are, or by their lower case where case does not count |
| KeyRemoval.RemoveIsClean | src/pypnm/lib/dict_utils.py:73-110 | No key to remove, nor one equal to it in lower case where case does not count, is left at any depth |
| KeyRemoval.RemoveFixesClean | src/pypnm/lib/dict_utils.py:73-110 | Removal leaves a value alone exactly if it holds no such key, hence doing it twice is doing it once |
| KeyRemoval.RemoveAt | src/pypnm/lib/dict_utils.py:73-110 | A path that avoids the removed keys leads to the cleaned value it led to before; every other path leads nowhere |
| KeyRemoval.RemoveCutsPaths | src/pypnm/lib/dict_utils.py:73-110 | The path law of `pop_keys_recursive` for the pure removal, for every value, path, key set, mode and lower-casing |
| KeyRemoval.RemoveTwice | src/pypnm/lib/dict_utils.py:73-110 | Removing one set of keys and then another is removing their union |
| AgentText.ParseOutputToVarbinds | src/pypnm/snmp/agent_transport.py:116-213 | The line loop computes the parse specification; a value that does not convert raises |
| AgentText.ParseRaisesIff | src/pypnm/snmp/agent_transport.py:136-213 | The output raises iff one of its lines does |
| AgentText.ParseJoined | src/pypnm/snmp/agent_transport.py:136-213 | For any two texts, joining them by a line feed joins their parses, and raises if one of them does |
| AgentText.SplitLinesAt | src/pypnm/snmp/agent_transport.py:136 | Lines break at exactly the ten characters of `splitlines`, a carriage return and a line feed together once |
| AgentText.LineAlone | src/pypnm/snmp/agent_transport.py:137-144 | White space around a line does not matter, and a line without ` = ` gives nothing |
| AgentPrinter.ReadName | src/pypnm/snmp/agent_transport.py:147-157 | A printed name is read as its number: a dotted one as it is, one under `iso` with a leading 1, a known symbol with its index through the table, with or without a module before it |
| AgentPrinter.ReadValue | src/pypnm/snmp/agent_transport.py:159-209 | Each printed form reads back as the typed value it stands for: INTEGER, Gauge32 and bare numbers, quoted, unquoted and plain texts, Hex-STRING and `0x` octets |
| AgentPrinter.ReadNumber | src/pypnm/snmp/agent_transport.py:173-183 | A number of any size under INTEGER or Gauge32 becomes Unsigned32, Counter64 or Integer32 by its range and raises outside of them |
| AgentPrinter.ReadBare | src/pypnm/snmp/agent_transport.py:196-209 | A bare number is typed alike |
| AgentPrinter.ReadOtherKind | src/pypnm/snmp/agent_transport.py:189-191 | Under any other type name the text after it is kept |
| AgentPrinter.HexReadsIff | src/pypnm/snmp/agent_transport.py:168-172 | Hexadecimal text without white space is read iff it is digits in pairs |
| AgentPrinter.TextRaisesIff | src/pypnm/snmp/agent_transport.py:184-191 | A text raises iff it has a character outside ISO 8859-1 |
| AgentPrinter.ReadLine | src/pypnm/snmp/agent_transport.py:137-211 | A printed line is one line and parses to the one binding it was printed from |
| AgentPrinter.ParseUndoesPrint | src/pypnm/snmp/agent_transport.py:116-213 | Parsing any printed list of bindings, in snmpwalk's form or prettyPrint's or mixed, gives the numbers of their names and their values, in order |
| AgentBulk.Get | src/pypnm/snmp/agent_transport.py:376-391 | None iff nothing arrived in time, it failed or it held no bindings; raised iff its bindings do not parse; otherwise the bindings of the structured results if there are any, else those parsed from the text |
| AgentBulk.BulkGet | src/pypnm/snmp/agent_transport.py:408-460 | The batch loop: the empty dict for no OIDs, None for a time-out or failure, else every answer under its original name, raising if one does not parse |
| AgentBulk.LastSpellingWins | src/pypnm/snmp/agent_transport.py:446-450 | For any OIDs: an answer is kept under the last requested spelling that resolves to its key, and under the key itself if there is none |
| AgentBulk.BulkRefinesGet | src/pypnm/snmp/agent_transport.py:434-460 | For OIDs that resolve alike only if written alike: the batch raises iff one of the gets would; and a request gets exactly what its own `get` would give, or nothing if unanswered, iff every unrequested answer spelled like it comes before its answer or says the same |
| AgentBulk.AnsweredIff | src/pypnm/snmp/agent_transport.py:449-456 | An answered request maps, under its original name, to what `get` makes of its answer, [] for None, iff every later stray under that name says the same |
| AgentBulk.PresentIff | src/pypnm/snmp/agent_transport.py:446-456 | A requested name is in the result iff its request was answered or an unrequested answer is spelled like it |
| AgentBulk.OrderMattersIff | src/pypnm/snmp/agent_transport.py:449-456 | All orders of the agent's answers give the same result iff the batch raises or no unrequested answer contradicts the answer of a request it is spelled like |
| AgentBulk.StrayAnswerOverwrites | src/pypnm/snmp/agent_transport.py:447-456 | The smallest such clash: the later of a stray and the real answer wins |
| AgentBulk.RaisesIffGetDoes | src/pypnm/snmp/agent_transport.py:449-456 | The batch raises exactly if the `get` of one of its answers would |
| ModemSets.SetPreEq | src/pypnm/docsis/cm_snmp_operation.py:2160-2194 | Runs its plan: both file names verified, then the enable only if asked |
| ModemSets.SetRxMer | src/pypnm/docsis/cm_snmp_operation.py:2235-2272 | Runs its plan: file name verified, then the enable only if asked |
| ModemSets.SetFecSum | src/pypnm/docsis/cm_snmp_operation.py:2289-2320 | Runs its plan: file name and summary type verified, then the enable only if asked |
| ModemSets.SetChEstCoef | src/pypnm/docsis/cm_snmp_operation.py:2333-2359 | Runs its plan: file name verified, then the trigger only if asked |
| ModemSets.SetConstDisp | src/pypnm/docsis/cm_snmp_operation.py:2381-2428 | Runs its plan: file name, modulation offset and sample count verified, then the trigger only if asked |
| ModemSets.SetHist | src/pypnm/docsis/cm_snmp_operation.py:2493-2535 | No SET without a single MAC index; otherwise runs its plan, whose time-out SET is not verified |
| ModemSets.PassesIff | src/pypnm/docsis/cm_snmp_operation.py:2165-2190 | When an answer is an echo: it arrived, and its first text is the value's text or reads as its number, as the method compares them |
| ModemSets.PlansAre | src/pypnm/docsis/cm_snmp_operation.py:2160-2535 | The six plans written out: columns, index, values and checks in order, the trigger with value 1 and only if asked |
| ModemSets.RunShape | src/pypnm/docsis/cm_snmp_operation.py:2160-2535 | For every sequence of answers: what was issued is a prefix of the plan, True iff every verified SET echoed, and on False the last SET issued is the first that did not |
| ModemSets.TriggerSafety | src/pypnm/docsis/cm_snmp_operation.py:2160-2535 | If the trigger column was written at all, it was asked for, it is the last SET, and every SET before it passed its check |
| ModemSets.PlansTrigger | src/pypnm/docsis/cm_snmp_operation.py:2160-2535 | All six plans trigger by their last step if asked and write no trigger otherwise |
| ModemSets.SetFields | src/pypnm/docsis/cm_snmp_operation.py:2073-2143 | The field loop runs the plan of its field map; a missing file name is filled in exactly if the loop got to that field |
| ModemSets.SetSpectrum | src/pypnm/docsis/cm_snmp_operation.py:2003-2143 | No SET and no change unless the diplexer was read; then the field loop over the source's map; the file name is filled in exactly if the eleventh SET was issued |
| ModemSets.SetCtrlCmd | src/pypnm/docsis/cm_snmp_operation.py:1967-2143 | The whole method: a precheck that raises issues no SET and changes nothing; otherwise the frequencies that go out are a whole number of segments, and the first is moved iff the given ones are not |
| ModemSets.SpectrumPlanIs | src/pypnm/docsis/cm_snmp_operation.py:2052-2143 | The full pass written out with its columns: eight settings in map order with their values, Enable to false and then true, the file name, and FileEnable, 1 exactly for file retrieval; only the file name goes unchecked |
| ModemSets.SpectrumRun | src/pypnm/docsis/cm_snmp_operation.py:2073-2143 | For every modem: True iff all twelve SETs were issued and all but the file name confirmed; Enable goes true only right after false and after all settings were confirmed; False stops at the first unconfirmed one |
| ModemSets.SpectrumCommand.Precheck | src/pypnm/pnm/data_type/DocsIf3CmSpectrumAnalysisCtrlCmd.py:297-337 | The first centre frequency moves up by less than a span so that the range is whole segments, iff it is not; raises on a descending range or a zero span; nothing else changes |
| UtscLimits.ApplyCasa | scripts/provision_utsc.py:245-260 | For all integers: duration within 120 to 300 s, at most 300 files, a raised period is the least whole-millisecond fit, admissible values are kept |
| UtscLimits.CasaMinRepeatIsLeast | scripts/provision_utsc.py:256-259 | The rounded-up period is the least whole number of milliseconds that fits 300 files |
| UtscLimits.NearestBins | scripts/provision_utsc.py:281-286 | A nearest valid bin count, the smaller of two equally near ones, as the midpoints decide |
| UtscLimits.ApplyE6000 | scripts/provision_utsc.py:263-294 | For all integers: period within 50.001 to 1000 ms, at most 250 files, a nearest valid bin count unless TimeIQ, a supported window; admissible values are kept |
| UtscLimits.ApplyCisco | scripts/provision_utsc.py:297-307 | For all integers: the period fits into the run, a supported format, admissible values are kept |
| UtscLimits.CasaIdempotent | scripts/provision_utsc.py:245-260 | Applying the Casa limits twice is applying them once |
| UtscLimits.E6000Idempotent | scripts/provision_utsc.py:263-294 | Applying the E6000 limits twice is applying them once, in all five values |
| UtscLimits.CiscoIdempotent | scripts/provision_utsc.py:297-307 | Applying the Cisco limits twice is applying them once |
| UtscRun.FindRow | scripts/provision_utsc.py:206-221 | The probing loop issues and returns what the step FindPart gives for the device's answers |
| UtscTrace.FoundIff | scripts/provision_utsc.py:206-221 | `find_row` returns row k iff probe k is the first that shows a row in the mode |
| UtscTrace.ValIs | scripts/provision_utsc.py:149-153 | `val` reads the integer after the last colon, -1 if what stands there is none |
| UtscTrace.FindShape | scripts/provision_utsc.py:206-221 | At most three probes in order; all but the last without such a row; the last one decides between a row, none and an exception |
| UtscRun.CreateAndGo | scripts/provision_utsc.py:230-238 | One SET, False iff the answer says commitFailed or wrongValue |
| UtscRun.DestroyRow | scripts/provision_utsc.py:224-227 | One SET of the row status; false iff it raised |
| UtscRun.PrepareRow | scripts/provision_utsc.py:535-551 | The row lifecycle issues and returns what the step RowPart gives for the device's answers |
| UtscTrace.RowShape | scripts/provision_utsc.py:535-551 | A row that a probe shows is used as it is; exactly when the three probes miss, and always for Cisco, the default row is destroyed and then created |
| UtscRun.ConfigureBdt | scripts/provision_utsc.py:314-393 | The vendor's transfer set-up in order, up to a request that raises |
| UtscRun.ConfigureBdtE6000 | scripts/provision_utsc.py:341-369 | The row is created only if it is missing, its fields are written in place, and it is activated last |
| UtscRun.ChooseSettings | scripts/provision_utsc.py:502-524 | The settings that the vendor and, for an E6000, the subtype it answered give |
| UtscSafety.ProgrammedIsAdmissible | scripts/provision_utsc.py:502-524 | These settings lie in the region of the vendor and subtype |
| UtscRun.Trigger | scripts/provision_utsc.py:450-458 | The trigger issues and returns what the step TriggerPart gives |
| UtscTrace.TriggerShape | scripts/provision_utsc.py:450-458 | The row is activated iff its status was read and is not active; the start is sent iff the status was read and the row is active or its activation did not raise |
| UtscRun.TicksApart | scripts/provision_utsc.py:461-482 | With 3 s per sleep the k-th reading of the clock is at least 3(k-1) s after the first |
| UtscRun.Poll | scripts/provision_utsc.py:461-482 | The polling loop issues and returns what the step PollPart gives, and ends |
| UtscTrace.PollReads | scripts/provision_utsc.py:461-482 | At most 101 status reads, each but the last with a state that lets the poll go on |
| UtscTrace.PollResult | scripts/provision_utsc.py:461-482 | True iff the last read was sampleReady or sampleTruncated, an exception iff a read raised, otherwise an error state or the time limit |
| UtscRun.TriggerPollStop | scripts/provision_utsc.py:556-565 | The try block and its finally issue and return what the step TestPart gives |
| UtscTrace.TestShape | scripts/provision_utsc.py:556-565 | From the trigger on: its requests, at most 101 status reads, and always the stop; finished iff none of them raised |
| UtscRun.Run | scripts/provision_utsc.py:489-565 | For every device, the requests and the end of a whole run are those of MainPart, a function of the device's answers and the clock |
| UtscTrace.OpeningStage | scripts/provision_utsc.py:489-533 | A run ends in its opening by an exception or for an EVO, or issues the whole opening of the vendor that the first answer names |
| UtscSafety.CrashedIff | scripts/provision_utsc.py:489-565 | A run ends by an exception iff one of its requests raised |
| UtscSafety.EndsOtherwise | scripts/provision_utsc.py:489-565 | It exits with 0 iff the device is an EVO, with 1 iff a createAndGo in its log was answered with commitFailed or wrongValue, and a finished run has got to the test |
| UtscSafety.TestedRun | scripts/provision_utsc.py:489-565 | A control is sent iff the opening, the row lifecycle and all settings went through; such a run is exactly these, for the vendor and subtype that the device named, then the trigger, at most 101 status reads, and the stop |
| UtscSettings.SettingsSent | scripts/provision_utsc.py:400-439 | In the log of every run that sends the start: each setting of the tested row was set before it, once in the whole run and to the vendor's literal value, destination and file name iff E6000 or Cisco; no other column of any row was set but the row status |
| UtscSettings.SettingsAre | scripts/provision_utsc.py:400-443 | Between the row lifecycle and the trigger go out the settings with these values, in order, and the read-back of the row status |
| UtscSettings.SentIsAdmissible | scripts/provision_utsc.py:502-524 | The numbers read off that log before the start lie in the vendor's region: at most 300 files for Casa, at most 250 and a valid bin count and window for an E6000, a period within the run for Cisco |
| UtscSettings.OpeningIs | scripts/provision_utsc.py:314-393 | What goes out before the row lifecycle, request by request for every vendor and answer: detection, subtype, transfer set-up |
| UtscSettings.TransferFirst | scripts/provision_utsc.py:527-551 | In the log of every run the whole opening stands before the first request to a UTSC row |
| UtscSafety.StartedIff | scripts/provision_utsc.py:556-565 | The start is sent iff the run gets to the test and past the row status; every finished run has sent it |
| UtscSafety.ControlIff | scripts/provision_utsc.py:556-565 | Which request is the start and which is the stop, and that both name the row in use |
| UtscSafety.RunIsSafe | scripts/provision_utsc.py:489-565 | In every run the test is started at most once, and then the last request is the stop of the same row; a UTSC row is created only right after it was destroyed |
| UtscSafety.DestroyIff | scripts/provision_utsc.py:535-551 | Exactly when and where a row is destroyed: right after the probes, iff they show no row or none are made |
| UtscSafety.DestroyedAfterMisses | scripts/provision_utsc.py:535-551 | A UTSC row is destroyed only for Cisco, or when the three requests just before were probes that all missed |
| UtscSafety.FoundRowIsKept | scripts/provision_utsc.py:543-547 | If any probe of a run shows a row, that run destroys and creates no UTSC row, and the start and the stop are on that row |
| Codewords.CreateMapping | src/pypnm/docsis/data_type/DocsIfDownstreamChannelCwErrorRate.py:179-210 | The loop computes the mapping by channel id |
| Codewords.ByIdIsLast | src/pypnm/docsis/data_type/DocsIfDownstreamChannelCwErrorRate.py:189-210 | An id is mapped iff a channel carries it, and it stands for the last such channel |
| Codewords.BuildEntries | src/pypnm/docsis/data_type/DocsIfDownstreamChannelCwErrorRate.py:62-144 | One entry per index pair whose channel is in both snapshots, in stack order: its index and id, the difference of the uncorrectables as errors, the sum of the three differences as codewords, a missing counter as zero, the quotients, 0 where there is nothing to divide by; with non-decreasing counters errors are some of the codewords |
| Codewords.EntryMeasures | src/pypnm/docsis/data_type/DocsIfDownstreamChannelCwErrorRate.py:93-137 | The same for the entry of one channel |
| Codewords.KeptInBoth | src/pypnm/docsis/data_type/DocsIfDownstreamChannelCwErrorRate.py:78-91 | Exactly the positions of the stack whose channel is in both snapshots are kept, each once and in order |
| Codewords.SumsAdd | src/pypnm/docsis/data_type/DocsIfDownstreamChannelCwErrorRate.py:150-151 | Each entry counts once in the totals, wherever it stands |
| Codewords.AggregateRate | src/pypnm/docsis/data_type/DocsIfDownstreamChannelCwErrorRate.py:146-154 | The aggregate is total errors over total codewords, 0 without traffic |
| Codewords.RatioInUnit | src/pypnm/docsis/data_type/DocsIfDownstreamChannelCwErrorRate.py:116 | A rate is a proportion exactly if there is no traffic or the errors are some of the codewords |
| Codewords.RatesInUnit | src/pypnm/docsis/data_type/DocsIfDownstreamChannelCwErrorRate.py:116-154 | With non-decreasing counters every channel rate and the aggregate lie in [0, 1] |
| Codewords.AggregateBetweenRates | src/pypnm/docsis/data_type/DocsIfDownstreamChannelCwErrorRate.py:146-154 | The aggregate lies between any bounds on the rates of the channels with traffic, for any number of channels |
| Codewords.NonDecreasingSound | src/pypnm/docsis/data_type/DocsIfDownstreamChannelCwErrorRate.py:97-116 | Counters that did not go down give an entry whose errors are some of its codewords |
| Codewords.EntryInUnitIff | src/pypnm/docsis/data_type/DocsIfDownstreamChannelCwErrorRate.py:105-116 | For any two snapshots, the rate is a proportion iff there is no traffic or neither the uncorrectables nor the sum of the others went down; with traffic it is negative if the uncorrectables went down and above 1 if the others did |
| SysDescr.Parse | src/pypnm/docsis/data_type/sysDescr.py:46-79 | The parser, with its loop over the entries, computes its specification and raises in the same cases |
| SysDescr.StrIs | src/pypnm/docsis/data_type/sysDescr.py:130-134 | The printed form, character by character |
| SysDescr.ParseUndoesStr | src/pypnm/docsis/data_type/sysDescr.py:130-134 | Parsing a printed descriptor gives its five fields whenever these are trimmed, on one line and without semicolon and double arrow; colons and empty fields are fine |
| SysDescr.ParseFindsStr | src/pypnm/docsis/data_type/sysDescr.py:52-79 | The same wherever the printed text stands: after any text that opens no arrow, and before any text |
| SysDescr.ParseRaisesIff | src/pypnm/docsis/data_type/sysDescr.py:52-62 | A text raises iff the pattern is not found or a part that is not blank has no colon |
| SysDescr.SearchIff | src/pypnm/docsis/data_type/sysDescr.py:52 | The pattern is found iff it matches from some opening arrow |
| SysDescr.LazyIff | src/pypnm/docsis/data_type/sysDescr.py:44 | From an opening arrow it matches iff closing arrows follow before the line ends, white space before them aside |
| SysDescr.LastEntryWins | src/pypnm/docsis/data_type/sysDescr.py:58-63 | A key stands for its last entry |
| SysDescr.FieldsAreEntries | src/pypnm/docsis/data_type/sysDescr.py:64-76 | Each field is the value of its key, empty if missing; the mark says that there is a blank hardware revision |
| SysDescr.FieldsReturnIff | src/pypnm/docsis/data_type/sysDescr.py:46-79 | The five fields come back from the printed text if and only if they are such |
| SysDescr.RoundTripIff | src/pypnm/docsis/data_type/sysDescr.py:46-79 | The whole descriptor comes back if and only if, moreover, its emptiness mark says that the hardware revision is blank |
| SysDescr.ParsedFieldsAreClean | src/pypnm/docsis/data_type/sysDescr.py:52-63 | Whatever text was parsed, its fields are trimmed, on one line and without semicolon and double arrow |
| SysDescr.ReparseKeepsFields | src/pypnm/docsis/data_type/sysDescr.py:46-79 | Printing what was parsed from any text and parsing it again keeps the fields |
| SysDescr.GreedySkipSuffices | src/pypnm/docsis/data_type/sysDescr.py:44 | Wherever the pattern matches without skipping all white space after the opening arrows, it also matches with it |
| Hexdump.Dump | src/pypnm/lib/file_processor.py:257-312 | The loop gives the specified lines, ceil(n/w) of them, from which the limited data can be read back; non-positive widths and limits as in the source |
| Hexdump.DumpShape | src/pypnm/lib/file_processor.py:293-312 | Line i stands at offset i*w and holds the bytes from there, the last line possibly fewer |
| Hexdump.LineCount | src/pypnm/lib/file_processor.py:293-312 | n bytes give ceil(n/w) lines |
| Hexdump.LineColumns | src/pypnm/lib/file_processor.py:296-308 | The hex column is 3w-1 wide on every line, the text column starts at a fixed place and shows each byte as itself if it is 32 to 126 and as a dot if not, and the offset is eight digits wide exactly below 4 GiB |
| Hexdump.LineDigits | src/pypnm/lib/file_processor.py:301-306 | Each byte shows as its two digits of 0123456789abcdef, three characters after those of the byte before; then the column is blank |
| Hexdump.ReadUndoesDump | src/pypnm/lib/file_processor.py:293-312 | A reader that knows neither width nor length recovers the data from the lines and finds each line at the right offset |
| Hexdump.DumpInjective | src/pypnm/lib/file_processor.py:293-312 | Equal dumps, even of different widths, come from equal data |

## Left out

- Network, websockets, subprocess, ssh, files and logging: only their answers, failures and exceptions are modelled.
- The ping loop, `last_seen`, JSON encoding and agent lookup by capability in the agent manager: they do not touch the
  three maps.
- `TaskProtocol`: PendingTask records and queues are values in maps, so aliasing of a queue object is not modelled;
  request ids are texts or absent; the blocking wait of another thread is one step for its get and one for its finally
  block; fresh uuids, waits only on returned ids, and one waiter per id are assumptions about the callers.
- Tuple arguments of `resolve_oid` and of the walks: they are joined by dots before anything modelled here happens.
- `SnmpWalk`: the pysnmp identity of the root is its text; `non_repeaters` is 0 in the statements about devices.
- `AgentText`: digits are the ASCII ones, and the pysnmp type constructors are taken to accept what they are given.
- AgentBulk.Get: the parser of structured `results` lists is a parameter; each of its branches only picks a type.
- KeyRemoval.PopKeysRecursive: sets inside the structure are not modelled, because they hold only hashable values and so
  no dict to remove keys from; the structure is a tree, in which no object stands twice; keys are strings and
  lower-casing is a parameter.
- KeyRemoval.Walk: has no case for sets, for the same reason.
- `ConfigMerge`: target and source are disjoint trees, as two freshly parsed JSON documents are; lists are values that
  the merge replaces whole.
- `ConfigManager` loading, saving and key normalisation: single assignments with little to prove.
- `ModemSets`: the status check before the spectrum loop uses names the file does not define and swallows the
  exception, so it is no step of the model; the ModProf and latency-report setters repeat the shapes of the six others;
  every field of the spectrum map is taken to be in the OID table.
- `ModemSets.SpectrumCommand.Precheck`: frequencies are integers, so the rounding of floats beyond 2^53 is not modelled.
- `UtscRun`: the vendor texts and the E6000 subtype are read by functions that are parameters; a keyboard interrupt is
  a request that raises; the address and path texts are parameters.
- `Codewords`: rates are exact quotients instead of floats; the exception guard of the loop has nothing to catch in the
  model; snapshot fetching and its delay are not modelled.
- `SysDescr`: `to_dict`, the pydantic model and `load_from_dict` only copy fields.
- `Hexdump`: reading the file is a parameter.
- Getters of `CmSnmpOperation`, `docsis/data_type` fetchers, settings classes, editors, menus, plots, version tools and
  the REST layer: field-by-field plumbing that would only add easy members.
