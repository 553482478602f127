# A verified model of the mapper

The mapper polls network devices, keeps the topology they report in memory, and serves and configures them.
This project models its most intricate parts in Dafny and proves what they are for. Of the modelled parts,
every loop that updates variables is a method with a loop here, proved against a specification; every object that
is edited in place is a class; and the properties are lemmas about the specifications.

Read the modules in these groups.

* **Topology store.** `LinkKey`, `Topology`, `TopologyWipe`, `TopologyLinks`, `TopologyTable`, `LinkLaws`,
  `AddressTable`, `AddressLaws`, `Shrinking`, `BrokerFacts`, `Broker` and `Service`. `LinkLaws` and `AddressLaws` tell
  the results by the fields of the records alone. The class `Broker.Tables` holds the global tables: stored devices
  (with the link lists of their interfaces), the table of layer 2 links, the reference index, the layer 3
  address table with its own index, the list of management addresses and the table of CDP ids. `Valid()` is what
  holds in every reachable state: `Topology.Inv` (names, link lists without duplicates, reference index,
  completeness and status of links between two devices; a link between two interfaces of one device is at least in
  the list of the interface that reported it last), `AddressTable.Agree` (ownership of addresses, no empty
  network), `BrokerFacts.Owned` and `BrokerFacts.CdpRight`. Every operation keeps `Valid()` and says what it
  changes; `Service.Live` runs the broker from the empty tables through the startup loads, the relinking pass and any
  list of happenings. A processed record starts outside the table and is stored at the end of its step, as in the
  program; the record it replaces stays in the table until then.
* **Script interpreter.** `ScriptTree` gives scripts a structured meaning, `ScriptMachine` is the interpreter
  with its program counter, block stack, forward scans and backward jumps, `ScriptRefinement` proves that it
  computes the meaning, `ScriptValidator` is the check made before a run, `ScriptTrace` tells a run by the lines it
  visits, and `ScriptRun` holds the interpreter as a loop and the agreement between the preselection run and the real run. Outcomes of commands and matches
  are an arbitrary function of the commands executed before.
* **Alert rules.** `RuleGrammar` (expressions, token lists and the in-place reduction), `RuleScan` (the scanner as
  functions), `RuleFacts` and `RuleMeaning` (what accepted texts are and mean), `RuleText` (printing),
  `RuleSpelling` (the texts of rules and what they say, without the scanner) and `RuleReader` (the two readers as they
  run).
* **Range lists and bitmaps.** `Decimals`, `RangeList`, `RangePrinters`, `RangeReader`, `RangeTexts`,
  `RangeRoundTrip`, `HexMaps`, `HexNumbers` (bitmaps as binary numbers) and `PortVlans`.
* **Tags.** `TagAncestry`, `TagTree` and `TagTable`.
* **Lease lock.** `Lease` (the protocol of many clients with one redis key) and `LeaseMutex` (the mutex object).
* **Interpolation.** `Interpolation`: the updates that fill a gap in a graph.

Things the proofs brought to light, each stated as a lemma or in a contract:

* Two different links can share a key (`LinkKey.KeyCollision`). While device ids contain neither `@` nor `#`, this
  happens exactly if the name of one interface goes on, after that of the other, with a mark, the id of the device
  at the far end and a mark again (`LinkKey.KeyExact`); it cannot happen while no interface name contains a device
  id between the marks (`LinkKey.KeysApart`).
* When the device id at a management address changes, the previous id's device is wiped even if it has meanwhile
  been stored for another address (`Broker.Tables.ProcessIpData`, and a run in `Service.MovedDeviceLost`); the cleanup
  does the same for an address that left the list (`Broker.Tables.Cleanup`).
* A link between two interfaces of one device writes its far end into the record about to be replaced. Once it was
  reported it is listed at both ends exactly if both interfaces report it, and its status takes the far end from the
  old record; one that was not reported again is whole (`TopologyTable.SelfLinkListed`, `Broker.Tables.ProcessLinks`).
* Preselection skips log lines, and a log line can stop the real run: `log %{i9}` passes the check made before a run
  and fails when it is run. Exactly then preselection can be wrong about a device (`ScriptRun.PreselectionExact`,
  `ScriptRun.LogUnnoticed`).
* A pattern is compiled alone by the field reader and inside a group by the evaluation. One that compiles alone only
  (an unclosed `\Q`, for instance) is accepted and gives no verdict (`RuleMeaning.AcceptedEvaluates`,
  `RuleText.GroupRefused`).
* A quoted value in a rule is compared as it stands between the quotes: a backslash keeps a quote from closing the
  value but stays in it (`RuleText.QuotedExact`). Patterns, in contrast, are unescaped.
* A rule text may end right after an operator or an opening parenthesis: the field reader accepts it, and the
  evaluation then fails (`RuleMeaning.AcceptedEvaluates`, `RuleMeaning.CutOff`).
* A preselection run that reaches `fail` has no channel to report on and does not end
  (`ScriptRun.PreselectionAgrees`, outcome `Stuck`).
* `Prolong` sets the time to live of whatever key is there. A client that prolongs after its own lease ran out
  keeps another client's key alive and is told that it holds the lock (`Lease.ProlongExact`, `Lease.LateProlong`).
* The memoised tag question is right, whatever was asked before, exactly if every ancestor of a tag is at most 101
  steps above it; otherwise some question is answered wrongly and some pair of questions has answers that depend on
  their order (`TagAncestry.MemoExact`).
* The tree below a root can be shown exactly if nothing lies more than 101 steps below the root, whatever the rest of
  the tags looks like (`TagTree.TreeShows`).
* Interpolated values run in the wrong direction or beyond the new value when the distance of the two counter
  values does not fit 64 bits, unless it wraps to less than one unit per interval (`Interpolation.ValuesSteady`).

## Model

| member | source | states |
|---|---|---|
| LinkKey.KeySymmetric | map-broker/process_ip.go:258-268 | the key of a link does not depend on which end is named first |
| LinkKey.KeyText | map-broker/process_ip.go:258-268 | the text of a key: `@` between device and interface, `#` between the ends, and first the end that comes later in the dictionary, by device and then by interface |
| LinkKey.KeyInjective | map-broker/process_ip.go:258-268 | with clean names (no `@` in device ids, no `#` in interface names) two pairs of ends have the same key only if they are the same pair |
| LinkKey.WrittenExact | map-broker/process_ip.go:258-268 | with device ids free of both marks, two written forms agree exactly if the ends do or one interface name overruns the other |
| LinkKey.KeyExact | map-broker/process_ip.go:258-268 | with such ids, two links share a key exactly if they are the same link or the name at the greater end of one overruns the other |
| LinkKey.KeysApart | map-broker/process_ip.go:258-268 | different links have different keys while no interface name contains a device id between the marks |
| LinkKey.KeyCollision | decode_dev/decode_dev.go:2287-2301 | two different links between devices with ids as the decoder makes them that share a key |
| LinkKey.IndexOf | mapaux/aux.go:151-156 | the first position of a string in a list, or -1 exactly if it is not there |
| LinkKey.StrAppendOnce | mapaux/aux.go:164-171 | the list with the string added at the end unless it was there |
| LinkKey.StrExclude | mapaux/aux.go:172-180 | the list without every occurrence of the string |
| LinkKey.ExcludeNoDuplicates | mapaux/aux.go:172-180 | excluding keeps a list free of duplicates, so that every link list of the tables holds a key once |
| TopologyWipe.WipeOneStep | map-broker/process_ip.go:274-300 | removing one link of a wiped device takes it out of the neighbour's link list, the neighbour's index and the table, and nothing else |
| TopologyWipe.WipeEnds | map-broker/process_ip.go:270-302 | after all indexed links and the record are gone, exactly the links that touched the device have disappeared from every view |
| TopologyWipe.WipedInv | map-broker/process_ip.go:270-302 | wiping keeps the invariant of the four views, status included |
| TopologyLinks.LinkedMid | map-broker/process_ip.go:374-431 | entering a reported link keeps the invariant that holds while a record is processed, and settles the link |
| TopologyLinks.SelfLinkHalf | map-broker/process_ip.go:374-431 | a link reported between two interfaces of one device is listed at both ends exactly if the far interface, in the record about to be stored, lists it already |
| TopologyLinks.KeptMid | map-broker/process_ip.go:536-582 | carrying over a link that was not reported again keeps that invariant and restates the link's status |
| TopologyLinks.DroppedMid | map-broker/process_ip.go:583-612 | dropping a link removes it from both link lists, both indexes and the table, and keeps that invariant |
| TopologyLinks.StartFresh | map-broker/process_ip.go:356-362 | the invariant during processing holds at the start for a decoded record and the stored tables |
| TopologyLinks.StartStored | map-broker/map-broker.go:805-816 | it also holds when a stored record is processed again at startup |
| TopologyLinks.Commit | map-broker/process_ip.go:1231-1241 | storing the record after all its links were looked at gives sound tables again |
| TopologyTable.FindExists | map-broker/process_ip.go:201-256 | a resolved LLDP or CDP neighbour is an existing interface of a stored device |
| TopologyTable.FindSame | map-broker/process_ip.go:201-256 | resolving a neighbour does not depend on link lists |
| TopologyTable.EnterOne | map-broker/process_ip.go:363-501 | one more resolved neighbour: the link is entered with protocol, status and time of now, links of other devices and their lists are as before, and every link seen so far is a reported one |
| TopologyTable.SweepKept | map-broker/process_ip.go:536-582 | a link that is still plausible stays, unchanged but for its status, and is then listed at both ends with the right status |
| TopologyTable.SweepDropped | map-broker/process_ip.go:583-612 | a link that is not is gone, and nothing else |
| TopologyTable.SweptTable | map-broker/process_ip.go:356-618 | the table after processing: the reported links are there, fresh; old links of the device that were not reported are there exactly if plausible; links of other devices are untouched |
| TopologyTable.SelfLinkListed | map-broker/process_ip.go:356-618 | after its device was processed, a link between two of its interfaces is listed at both unless it was reported from one of them only |
| LinkLaws.LldpExact | map-broker/process_ip.go:201-235 | an LLDP report means an interface exactly if that interface announces it: its device has the chassis id, in small letters, and its subtype, and it sends either the port id with subtype 7 through its LLDP port or its own name with subtype 5 |
| LinkLaws.CdpExact | map-broker/process_ip.go:237-256 | a CDP report means an interface exactly if the CDP id is of its device and the named CDP port is its port |
| LinkLaws.UpdatedTold | map-broker/process_ip.go:356-618 | the table after processing, told by the fields of the records alone: links between interfaces that hear each other are there as made now, by CDP if CDP hears them; others of the device stay exactly if both ends are enabled and still believed; the rest is untouched |
| LinkLaws.InvDrawn | map-broker/process_ip.go:270-618 | what the invariant says in plain terms: every link is in both indexes and, between two devices, in both lists, and up exactly if both interfaces and devices are; nothing else is named |
| AddressTable.ReportAgrees | map-broker/process_ip.go:1040-1082 | registering an address keeps table and index in agreement |
| AddressTable.RemoveAgrees | map-broker/process_ip.go:1105-1115 | removing one does too, and leaves no empty network |
| AddressTable.ReportStep | map-broker/process_ip.go:1021-1089 | after one more reported address: a claimed address stays with an owner that blocks the claim, and otherwise belongs to the device since now; all others are as before |
| AddressTable.ClearOne | map-broker/process_ip.go:304-318 | clearing one address of a device, and only if it meets the condition |
| AddressLaws.UpdatedAssigned | map-broker/process_ip.go:1021-1115 | the address table after processing, told by record and entries: another owner loses an address exactly if the record carries it on an enabled interface and that owner is not a working device; the device owns what it carries unless a working one keeps it |
| AddressLaws.AgreeIndexed | map-broker/process_ip.go:1040-1115 | index and table name the same owners, all of them stored devices, and no network is empty |
| Shrinking.ShrunkTrans | map-broker/map-broker.go:897-943 | removing devices in several steps leaves what removing them at once would: everything of the others |
| Shrinking.WipedShrinks | map-broker/process_ip.go:270-318 | a wipe leaves the records, links, link lists and addresses of the other devices exactly |
| Broker.Tables.constructor | map-broker/map-broker.go:53-58 | the empty tables are sound |
| Broker.Tables.WipeLink | map-broker/process_ip.go:274-300 | the in-place removal of one link is the specified step |
| Broker.Tables.WipeLinks | map-broker/process_ip.go:270-302 | the loop over the index removes exactly the device's links and keeps the invariant |
| Broker.Tables.WipeAddresses | map-broker/process_ip.go:304-318 | exactly the device's address entries go, with their empty networks |
| Broker.Tables.WipeDev | map-broker/process_ip.go:270-319 | both together |
| Broker.Tables.EnterLink | map-broker/process_ip.go:392-430 | the in-place edits for one reported link: lists of both ends, both indexes, the link with its status |
| Broker.Tables.ListBothEnds | map-broker/process_ip.go:392-412 | the link key goes once into the lists of both ends, in the record in hand or the stored one |
| Broker.Tables.SeeLldpNeighbour | map-broker/process_ip.go:366-431 | one LLDP report: entered if it resolves to another interface, which is the one that announces it (`LinkLaws.LldpExact`) |
| Broker.Tables.SeeLldp | map-broker/process_ip.go:363-432 | all LLDP reports of the record were looked at |
| Broker.Tables.SeeCdpNeighbour | map-broker/process_ip.go:437-500 | one CDP report |
| Broker.Tables.SeeCdp | map-broker/process_ip.go:434-501 | all CDP reports of the record were looked at |
| Broker.Tables.AddToList | map-broker/process_ip.go:566-582 | a key is added to a list of the record in hand or of a stored device |
| Broker.Tables.TakeFromList | map-broker/process_ip.go:583-600 | a key is taken out of one |
| Broker.Tables.KeepLink | map-broker/process_ip.go:536-582 | the edits for a link that stays |
| Broker.Tables.DropLink | map-broker/process_ip.go:583-612 | the edits for a link that goes |
| Broker.Tables.JudgeLink | map-broker/process_ip.go:508-612 | one old link of the device is kept or dropped by the conditions of the code |
| Broker.Tables.SweepLinks | map-broker/process_ip.go:503-615 | all old links of the device are judged, and the tables are then sound |
| Broker.Tables.ProcessLinks | map-broker/process_ip.go:356-618 | the whole pass keeps the invariant (with the record stored), gives the table that records and old table call for in plain terms (`LinkLaws.Told`), and lists each link of the device exactly where it belongs |
| Broker.Tables.ReportAddress | map-broker/process_ip.go:1040-1082 | one reported address, with the conflict rules of the code |
| Broker.Tables.ReportAddresses | map-broker/process_ip.go:1021-1089 | all addresses of interfaces that are administratively up, loopback, link-local and zero ones excepted, are decided by the conflict rules against the owners before; no other address changes hands |
| Broker.Tables.SweepAddresses | map-broker/process_ip.go:1105-1115 | addresses of the device that were not reported now are removed, and no others |
| Broker.Tables.UpdateAddresses | map-broker/process_ip.go:1021-1115 | together: who owns each address afterwards, a blocking owner exactly as it was |
| Broker.Tables.SettleConflict | map-broker/process_ip.go:885-930 | the record goes on exactly if it supersedes the one stored for another address, which is then wiped |
| Broker.Tables.SettleAddress | map-broker/process_ip.go:934-956 | the address gets the device id, and no other entry of the list changes; the device known there before, if another, is wiped |
| Broker.Tables.Admit | map-broker/process_ip.go:885-967 | the decision about a device id at two addresses and an address with a new device id; exactly which devices are wiped for it, the entry of the list, and that nothing else changes |
| Broker.Tables.NoteCdp | map-broker/process_ip.go:983-996 | the CDP id is noted, or dropped exactly if another working device has it |
| Broker.Tables.StoreDevice | map-broker/process_ip.go:1017-1241 | links, addresses and record are stored, links and addresses as the records themselves call for (`LinkLaws.Told`, `AddressLaws.Assigned`), and every invariant holds |
| Broker.Tables.StoreAdmitted | map-broker/process_ip.go:958-1241 | the same from the admitted record on, with the time and the CDP id it is stored with and the CDP table afterwards; no two devices share a management address |
| Broker.Tables.ProcessIpData | map-broker/process_ip.go:885-1241 | a whole update, exactly: when it is refused or fails, by status and times; which devices go; the list of addresses and the CDP table afterwards; the record that is stored; and links, link lists and addresses as the record and the tables left by the wiping call for; the invariant is kept in every outcome |
| BrokerFacts.CdpLost | map-broker/process_ip.go:983-996 | a record loses its CDP id if another working device is stored with it, and only to a working device that the table names |
| BrokerFacts.SeenLatest | map-broker/process_ip.go:934-982 | a device was last seen at the later of the times its data and its reply say; a reply does not count where the device is new at its address |
| Broker.Tables.WipeDevOwned | map-broker/process_ip.go:270-319 | a wipe between operations keeps every invariant and leaves the other devices' data exactly |
| Broker.Tables.Relink | map-broker/map-broker.go:805-816 | one device of the startup pass: the invariant is kept, every link it reports is there, fresh, and all other links are as before |
| Broker.Tables.NoteAddress | map-broker/process_ip.go:735-744 | the address is listed from now on, its device unknown if it was not listed |
| Service.RelinkAll | map-broker/map-broker.go:805-816 | the startup pass over all stored devices: afterwards every link that any of them reports is there, as one of its reporters makes it, and all other links are as before |
| Service.ReportedSame | map-broker/process_ip.go:201-256 | what a device reports does not depend on the link lists, so the order of the pass does not matter to it |
| Service.Start | map-broker/map-broker.go:779-817 | from empty tables, after loading any records of different addresses and the startup pass: sound tables that hold exactly the winning record of each device, and every reported link |
| Service.WinnerBest | map-broker/process_ip.go:885-930 | if all replies can be read, every loaded device is stored, with a record that works if any of its records does and that is the latest of those with its status, in whatever order they are loaded |
| Service.WinnerAlone | map-broker/process_ip.go:885-956 | a device with one record is stored exactly if its reply can be read |
| Service.Serve | map-broker/process_ip.go:620-1241 | whatever records arrive, addresses leave, cleanups run and devices are wiped by hand, in any order: the tables stay sound |
| Service.Live | map-broker/map-broker.go:779-830 | every state the broker can reach, after any loads and any happenings, is sound: links, lists, indexes and addresses agree, no two devices share a management address, and no two working devices a CDP id |
| Service.TablesSound | map-broker/process_ip.go:270-1241 | the invariant implies all of that, told by the tables alone |
| Service.MovedDeviceLost | map-broker/process_ip.go:885-956 | a device that moved to another address is wiped when another device answers at its former address, although the list still names it |
| Broker.Tables.PurgeIp | map-broker/process_ip.go:680-711 | exactly the devices of that address go, the rest is untouched |
| Broker.Tables.CleanupList | map-broker/map-broker.go:899-913 | exactly the devices last seen at addresses that left the list go |
| Broker.Tables.CleanupDevs | map-broker/map-broker.go:917-925 | exactly the devices whose address is not listed go |
| Broker.Tables.Cleanup | map-broker/map-broker.go:897-943 | exactly which devices and addresses survive, and that what is left is everything of the survivors |
| ScriptTree.RunsBounded | global-config/global-config.go:1268-1286 | in the meaning of a script no command or log line runs more often than the number of interfaces, or once if there are none |
| ScriptTree.CountExec | global-config/global-config.go:1268-1286 | a body runs each of its command and log lines at most once per interface, and none of another body |
| ScriptTree.CountLoop | global-config/global-config.go:1268-1286 | a loop runs its command and log lines at most once for each interface left |
| ScriptMachine.RunsAt | global-config/global-config.go:1241-1345 | every state of a safe run is consistent: counters, stack and interface index |
| ScriptRefinement.SkipBody | global-config/global-config.go:1316-1332 | the skip scans pass over a whole body, nested sections included |
| ScriptRefinement.SimBody | global-config/global-config.go:927-1505 | from the first line of a body the interpreter reaches its end, or what a failed match or a stop prescribes, with the effects of the meaning |
| ScriptRefinement.SimLoop | global-config/global-config.go:1268-1305 | the backward jumps run the loop body for every interface left |
| ScriptRefinement.SimBranches | global-config/global-config.go:1306-1345 | a failed match continues at the next else, a finished branch at the end of the section |
| ScriptRefinement.RunMeansTree | global-config/global-config.go:927-1505 | on a well-formed script the interpreter halts and reports the meaning of the script, never passing an inconsistent state and coming to each line at most once per interface |
| ScriptRefinement.SimRest | global-config/global-config.go:1268-1345 | what follows a finished block is executed from its first line |
| ScriptValidator.CheckBody | global-config/global-config.go:224-392 | well-formed scripts pass the check |
| ScriptValidator.AcceptedTree | global-config/global-config.go:224-392 | a script that passes has a well-formed tree |
| ScriptValidator.AcceptsExactly | global-config/global-config.go:224-392 | the check accepts exactly the texts of well-formed scripts |
| ScriptValidator.Validate | global-config/global-config.go:224-392 | so does the loop with its counters and stack |
| ScriptRun.SkipToEndInt | global-config/global-config.go:1466-1473 | the scan stops at the next end_int |
| ScriptRun.RollBack | global-config/global-config.go:1274-1277 | the scan goes back to the last per_int |
| ScriptRun.SkipToSectEnd | global-config/global-config.go:1482-1499 | the scan stops at the else or end_sect of the same depth |
| ScriptRun.LeaveBlock | global-config/global-config.go:1444-1504 | what a failed match does, by the innermost block |
| ScriptRun.ExecuteLine | global-config/global-config.go:927-1505 | one turn of the interpreter loop is one step of the machine |
| ScriptRun.AlwaysConsistent | global-config/global-config.go:1241-1345 | on an accepted script no state ever panics, and 0 <= int_i < number of interfaces holds exactly while a per_int is open |
| ScriptRun.LineVisits | global-config/global-config.go:1268-1286 | however long an accepted script is run, the interpreter comes to no line of any kind more often than there are interfaces, or once if there are none |
| ScriptRun.WorkRouter | global-config/global-config.go:927-1505 | a run of an accepted script ends, never with a structural panic, and reports the meaning of the script; a real run has visited a list of lines of which only the last ends it, as that line calls for, each other plain line being followed by the next one |
| ScriptTrace.LivedStep | global-config/global-config.go:927-1505 | one more line: what was said to the device and logged is what the visited lines say, and the run is over exactly if the line is an end, a fail, or one that stopped |
| ScriptTrace.RunLived | global-config/global-config.go:927-1505 | so for every number of steps of a run that does not panic |
| ScriptRun.MeaningLived | global-config/global-config.go:927-1505 | the meaning of every well-formed script has such a list of visited lines: an event at an end or fail line, or one that stopped, is the last, with the outcome it calls for, and there is none if the run ends otherwise |
| ScriptRun.Lockstep | global-config/global-config.go:962-1105 | the preselection run and the real run take the same steps until the first command that talks to the device, unless a log line stops the real run before |
| ScriptRun.PreselectionAgrees | global-config/global-config.go:470-493 | preselection drops a device exactly if the real run ends on a failed match outside all blocks before it talks to the device, and is stuck exactly if that run ends in fail before, unless a log line stops the real run; a real run that ends so is foretold in any case |
| ScriptRun.PreselectionQuiet | global-config/global-config.go:1346-1349 | for every script preselection answers rightly for the run in which no log line stops |
| ScriptRun.PreselectionExact | global-config/global-config.go:470-493 | preselection is right about the real run if and only if no log line stops a run that would otherwise have ended on a failed match or on fail before it talks |
| ScriptRun.PreselectionReliable | global-config/global-config.go:470-493 | it is right while no log line can stop before anything was said to the device |
| ScriptRun.LogUnnoticed | global-config/global-config.go:681-697 | an accepted script whose log line stops the real run, while preselection drops the device |
| RuleGrammar.GroupStep | mapaux/rule.go:547-576 | replacing a leading group by its value keeps what a token list denotes, both ways |
| RuleGrammar.SecondGroupStep | mapaux/rule.go:501-530 | so does replacing a group after an operator |
| RuleGrammar.AndStep | mapaux/rule.go:535-538 | so does joining two values with && |
| RuleGrammar.OrStep | mapaux/rule.go:539-546 | and a value before the or sign is joined with the value of all that follows |
| RuleGrammar.ReduceDenotes | mapaux/rule.go:490-581 | a token list reduces to a value exactly if it is an expression of the grammar with that value, && binding tighter |
| RuleGrammar.ResolveStack | mapaux/rule.go:490-581 | the in-place reduction ends, with the value on expressions and an error on everything else |
| RuleGrammar.ScanClose | mapaux/rule.go:508-525 | the search for the closing parenthesis |
| RuleFacts.TermShape | mapaux/rule.go:583-732 | an accepted text gives a token list with alternating operands and operators and matched parentheses |
| RuleFacts.AcceptedExpression | mapaux/rule.go:583-732 | it is an expression exactly if it ends with an operand |
| RuleMeaning.VerdictIsValue | mapaux/rule.go:734-897 | the verdict on an accepted expression is its value on the alert |
| RuleMeaning.AcceptedEvaluates | mapaux/rule.go:583-897 | a rule the field reader accepts can be evaluated exactly if its text does not end before an operand and its patterns compile in the case-insensitive group |
| RuleMeaning.NewlineEvaluates | mapaux/rule.go:583-897 | an accepted rule that ends in a newline is evaluated without error exactly if it has a comparison and its patterns compile in the group |
| RuleMeaning.CutOff | mapaux/rule.go:590-616 | a text cut off after a parenthesis is accepted and cannot be evaluated |
| RuleMeaning.FieldsDecide | mapaux/rule.go:583-897 | two alerts that agree on the fields of a rule get the same verdict |
| RuleScan.Keys | mapaux/rule.go:603-610 | the fields are exactly the keys of the comparisons, each once |
| RuleText.QuotedExact | mapaux/rule.go:628-651 | a value can be read back from between quotes exactly if it has no bare quote or newline and no lone backslash at the end; it is taken raw |
| RuleText.PatternBack | mapaux/rule.go:657-680 | an escaped pattern is read back as it was |
| RuleText.ReadBack | mapaux/rule.go:734-897 | every printed expression is read back, whatever white space separates and ends it |
| RuleText.PrintedVerdict | mapaux/rule.go:734-897 | the verdict on a printed expression is its value on the alert, or an error exactly if a pattern does not compile |
| RuleText.GroupRefused | mapaux/rule.go:681-683 | a pattern that compiles alone and not in the group: the field reader accepts the rule, and the evaluation fails |
| RuleSpelling.ScanExact | mapaux/rule.go:583-732 | the scanner accepts exactly the texts that spell, in literal form and with white space between, a list of tokens with operands and operators in turn |
| RuleSpelling.MatchExact | mapaux/rule.go:734-897 | a text has the verdict v exactly if it spells an expression whose patterns compile and whose comparisons, tested on the fields of the alert, make it v |
| RuleSpelling.OneComparison | mapaux/rule.go:806-845 | one comparison, quoted or not: == and != compare the field with the value, =~ and !~ ask the engine for a match of the pattern in its group; an error exactly if that does not compile |
| RuleSpelling.FieldsExact | mapaux/rule.go:583-732 | the fields are read exactly from the texts that spell a list of tokens whose patterns compile |
| RuleSpelling.QuotableExact | mapaux/rule.go:628-651 | a value can stand between quotes exactly if it has no newline, each quote in it follows an odd number of backslashes, and it ends with an even number of them |
| RuleReader.SkipSpaces | mapaux/rule.go:591-591 | the loop over white space |
| RuleReader.ScanBare | mapaux/rule.go:623-627 | the loop over a value without quotes |
| RuleReader.ScanQuoted | mapaux/rule.go:628-651 | the loop over a quoted value |
| RuleReader.ScanPattern | mapaux/rule.go:657-680 | the loop over a pattern, collecting it unescaped |
| RuleReader.ReadOperand | mapaux/rule.go:618-685 | the operand of a comparison and the position after it, or an error |
| RuleReader.ReadJoint | mapaux/rule.go:687-731 | closing parentheses, then the end or an operator |
| RuleReader.ParseAlertRule | mapaux/rule.go:583-732 | for every text: its fields, exactly if it spells the beginning of a rule whose patterns compile (`RuleSpelling.Collects`), and otherwise an error |
| RuleReader.MatchAlertRule | mapaux/rule.go:734-897 | for every text and alert: the truth of the expression the text spells (`RuleSpelling.Judged`), and otherwise an error |
| Decimals.UintWritten | global-config/global-config.go:789-795 | a number written in decimal is read back exactly if it fits 64 bits |
| Decimals.IntWritten | decode_dev/decode_dev.go:250-252 | the same for signed numbers |
| Decimals.DecText | decode_dev/decode_dev.go:110-126 | a number is written in decimal digits, the last one last |
| Decimals.UintRead | global-config/global-config.go:789-795 | a text is read as a number exactly if it is that number in decimal, with or without zeros in front, and fits 64 bits |
| Decimals.IntRead | decode_dev/decode_dev.go:250-252 | the same for signed numbers, with a sign in front |
| RangeList.SpansExact | decode_dev/decode_dev.go:202-239 | the runs of an ascending list cover exactly its numbers and are proper, disjoint, ascending and maximal |
| RangePrinters.IntArrayToList | decode_dev/decode_dev.go:202-239 | the printer writes the runs of an ascending list and nothing for other lists (negative numbers at the front are forgotten) |
| RangePrinters.ArrayToList | decode_dev/decode_dev.go:241-279 | the second printer does the same on number texts |
| RangePrinters.PrintersAgree | decode_dev/decode_dev.go:202-279 | on 64-bit numbers both print the same |
| RangeReader.NumsCross | global-config/global-config.go:782-829 | the nested loops answer as specified on every pair of texts, unreadable ones included |
| RangeReader.CrossingExact | global-config/global-config.go:782-829 | on readable lists the answer is yes exactly if some number is in both |
| RangeReader.UnreadableNoticed | global-config/global-config.go:788-813 | an unreadable range is reported unless an overlap was found before it or the first list is empty |
| RangeReader.AnswerTrue | global-config/global-config.go:782-829 | on all texts: a yes is right, and an error means that some range is unreadable |
| RangeTexts.MatchesCut | global-config/global-config.go:58-58 | every text is cut into the longest numbers and ranges and what lies between them, where no digit is; these are what the splitter finds |
| RangeTexts.BoundsExact | global-config/global-config.go:789-799 | the bounds of a range are read exactly as its texts write them |
| RangeTexts.CrossTold | global-config/global-config.go:782-829 | on two texts whose ranges can be read, yes exactly if some number lies in a range of each |
| RangeRoundTrip.MatchesComma | global-config/global-config.go:58-58 | the splitter finds in two texts joined by a comma what it finds in each |
| RangeRoundTrip.PrintedMeans | decode_dev/decode_dev.go:202-239 | the printed text of an ascending list, read back, denotes exactly its numbers |
| RangeRoundTrip.PrintedCross | global-config/global-config.go:782-829 | the overlap test on two printed lists answers whether they share a number, and never fails |
| RangeRoundTrip.PrintedInjective | decode_dev/decode_dev.go:202-239 | lists of different numbers have different texts |
| HexMaps.VlansList | decode_dev/decode_dev.go:74-133 | with its short cuts the loop prints, for every valid hex text, what the other printer prints for the ascending positions of the ones, and nothing for invalid texts |
| HexMaps.ReadNibble | decode_dev/decode_dev.go:97-121 | the inner loop over the four bits of a nibble |
| HexMaps.FullNibble | decode_dev/decode_dev.go:83-87 | the short cut for `f` inside a run does what four ones do |
| HexMaps.EmptyNibble | decode_dev/decode_dev.go:89-92 | the short cut for `0` outside a run does what four zeros do |
| HexMaps.VlanTextMeans | decode_dev/decode_dev.go:74-133 | the printed list denotes exactly the positions of the ones |
| HexMaps.PortList | decode_dev/decode_dev.go:175-200 | the ports of a bitmap, ascending; port p is bit p - 1 from the highest bit of the first octet, as section 5 of RFC 4363 says of PortList |
| HexMaps.PortListed | decode_dev/decode_dev.go:175-200 | a port is listed exactly if its bit is set |
| HexNumbers.DigitLaw | decode_dev/decode_dev.go:94-95 | what a hexadecimal digit stands for |
| HexNumbers.HexWritten | decode_dev/decode_dev.go:74-133 | every text of hexadecimal digits writes a number |
| HexNumbers.OnesBinary | decode_dev/decode_dev.go:94-121 | the ones of a bitmap are the ones in the binary expansion of the number its text writes |
| HexNumbers.VlansTold | decode_dev/decode_dev.go:74-133 | the printed list denotes exactly the places of the ones of that number |
| HexNumbers.PortsTold | decode_dev/decode_dev.go:175-200 | a port is listed exactly if that number has a one at its place |
| HexNumbers.NoHexNothing | decode_dev/decode_dev.go:74-200 | a text with anything but such digits has no VLANs and no ports |
| PortVlans.SortByNum | decode_dev/decode_dev.go:1675-1675 | the VLANs in ascending order of their numbers |
| PortVlans.AddVlan | decode_dev/decode_dev.go:1677-1693 | one VLAN: appended to exactly the ports its bitmaps name |
| PortVlans.TagList | decode_dev/decode_dev.go:1714-1726 | the members that are not untagged |
| PortVlans.Classify | decode_dev/decode_dev.go:1701-1728 | the mode of a port and its printed lists |
| PortVlans.PortModes | decode_dev/decode_dev.go:1641-1730 | the modes of all ports, or none if a VLAN has no bitmap of untagged ports |
| PortVlans.ModesMean | decode_dev/decode_dev.go:1708-1728 | the list of a trunk denotes exactly the VLANs that name the port; the lists of a hybrid port the untagged VLANs, and members minus untagged |
| PortVlans.ModesChosen | decode_dev/decode_dev.go:1701-1712 | a port is hybrid exactly if it is not untagged in its own VLAN alone, and access exactly if it is a member of that VLAN alone as well |
| TagAncestry.QueryRight | map-broker/http-ajax.go:851-874 | if the root is not above the tag or within the depth left, the answer is self-or-ancestor search and what is remembered is right |
| TagAncestry.AskRight | map-broker/http-ajax.go:851-874 | with all ancestors in reach, any number of questions in any order: every answer is the plain one |
| TagAncestry.FreshReach | map-broker/map-broker.go:641-665 | for any parent table, with nothing remembered: yes exactly if the root is at most 101 steps up |
| TagAncestry.ShallowInReach | map-broker/http-ajax.go:851-874 | in a forest whose chains end within 101 steps all ancestors are in reach |
| TagAncestry.OrderMatters | map-broker/http-ajax.go:851-874 | with a root first met 102 steps above a tag, two questions have other answers in the other order |
| TagAncestry.MemoExact | map-broker/http-ajax.go:851-874 | every list of questions is answered rightly if and only if every ancestor is within 101 steps; if and only if that holds, the order of questions makes no difference |
| TagAncestry.TagParentsExact | map-broker/http-ajax.go:2414-2442 | the list of ancestors succeeds exactly if the chain ends in time, and names the tags above step by step |
| TagAncestry.ListExact | map-broker/http-ajax.go:2414-2442 | where the list succeeds it holds exactly the ancestors, and the first question agrees with it exactly if the root, where it is an ancestor, is within 101 steps |
| TagAncestry.ListAgrees | map-broker/http-ajax.go:2414-2442 | for a tag whose chain ends within 101 steps the list succeeds and agrees with the question, whatever is remembered |
| TagTree.TreeShows | map-broker/http-ajax.go:938-964 | the tree below a root can be shown if and only if nothing lies more than 101 steps below it, and then shows every tag under the root, once, and no other |
| TagTree.TreeAgrees | map-broker/http-ajax.go:851-964 | where the tree can be shown, question and tree agree |
| TagTree.BranchGrown | map-broker/http-ajax.go:938-964 | a shown tree has its tag at the top, and below every node exactly the children of its tag, in their order |
| TagTable.Linked | map-broker/map-broker.go:627-639 | parents and children as the rows say, or an error exactly if a parent is missing |
| TagTable.LoadedMirrors | map-broker/map-broker.go:595-639 | loaded tables are closed, and the lists of children mirror the parents |
| TagTable.KidsInOrder | map-broker/map-broker.go:627-639 | children come in the order of the rows |
| TagTable.Table.Load | map-broker/map-broker.go:586-639 | the tables are replaced with nothing remembered, or unchanged if a parent is missing |
| TagTable.Table.TagHasRoot | map-broker/http-ajax.go:851-874 | the memoised recursion computes the specified answer and memo |
| TagTable.Table.Ask | map-broker/http-ajax.go:876-900 | with all ancestors in reach a question is answered by ancestor search and leaves the table sound |
| TagTable.Table.TraverseTree | map-broker/http-ajax.go:938-958 | the subtree of a tag is appended, with the tag at its top and every tag below its parent in the order of the table, or an error |
| Lease.StepDistinct | redmutex/map-redmutex.go:49-128 | tokens keep telling the holders apart, however keys are prolonged |
| Lease.StepBacked | redmutex/map-redmutex.go:49-128 | with prolongations in time, whoever is in its lease owns the key for at least that long; lost messages included |
| Lease.MutualExclusion | redmutex/map-redmutex.go:49-128 | in every interleaving at most one client is within its lease |
| Lease.LateUnlock | redmutex/map-redmutex.go:12-23 | an unlock, however late, leaves the key of another holder alone |
| Lease.ProlongExact | redmutex/map-redmutex.go:84-99 | a successful prolongation keeps the guarantee exactly if the key carried the caller's own token |
| Lease.TimelyProlong | redmutex/map-redmutex.go:84-99 | a prolongation within the lease keeps the guarantee |
| Lease.LateProlong | redmutex/map-redmutex.go:84-99 | a run in which two clients are told that they hold the lock |
| Lease.LockExact | redmutex/map-redmutex.go:49-77 | an attempt succeeds exactly if the key is free or has run out; the client is then in its lease for exactly the time asked for |
| Lease.LeaseRunsOut | redmutex/map-redmutex.go:49-77 | another client gets the lock exactly from the end of the lease on |
| Lease.UnlockFrees | redmutex/map-redmutex.go:105-128 | an unlock within the lease succeeds and frees the key: whoever asks next gets it |
| Lease.UnlockTold | redmutex/map-redmutex.go:105-128 | each answer of an unlock, and when it is given |
| Lease.ProlongTold | redmutex/map-redmutex.go:84-99 | each answer of a prolongation, and when it is given |
| Lease.LostMessages | redmutex/map-redmutex.go:49-128 | a lost request changes nothing at redis, a lost reply does what the command does, and the client is told of an error |
| LeaseMutex.Redis.SetNx | redmutex/map-redmutex.go:61-61 | the set-if-absent command |
| LeaseMutex.Redis.Pexpire | redmutex/map-redmutex.go:88-88 | the command that sets the time to live |
| LeaseMutex.Redis.CompareAndDelete | redmutex/map-redmutex.go:12-23 | the script: deletes exactly a live key with the given token |
| LeaseMutex.Mutex.Lock | redmutex/map-redmutex.go:49-77 | the retry loop: every attempt before the last found the key taken, the result is that of the last, it gives up only near the deadline, and tries no more often than the time allows |
| LeaseMutex.Mutex.Prolong | redmutex/map-redmutex.go:84-99 | the client's side of the protocol step |
| LeaseMutex.Mutex.Unlock | redmutex/map-redmutex.go:105-128 | the client's side of the protocol step, which frees a key that carries its token; the mutex counts as unlocked whatever redis answers |
| Interpolation.Interpolate | map-grapher/map-grapher.go:569-580 | the loop writes exactly the specified updates |
| Interpolation.TimesFit | map-grapher/map-grapher.go:570-576 | inserted times strictly increase strictly between the last update and now, at most 68 s apart, under the heartbeat of 120 s (etc/graph_rules:22) |
| Interpolation.GapFilled | map-grapher/map-grapher.go:569-580 | the same for the list of updates, the first and the last gap included; a gap is filled exactly if it is longer than 60 s and shorter than 600 s, with one update for each full minute |
| Interpolation.EqualSteps | map-grapher/map-grapher.go:570-577 | times and values go up or down in equal steps, the distance divided by the number of intervals and rounded towards zero |
| Interpolation.WrapLaw | map-grapher/map-grapher.go:570-577 | arithmetic is that of 64 bits: the value in their range that differs by a multiple of it |
| Interpolation.ValuesSteady | map-grapher/map-grapher.go:572-577 | the values move from the old to the new one without going back or beyond exactly if their distance fits 64 bits or wraps to less than one unit per interval |

## Left out

- Broker.Tables.ProcessIpData: one atomic step from lock to commit; the unlocked gaps of the original are not modelled. At startup every address is loaded once, in any order; the original loads them concurrently, each under the lock.
- TopologyLinks.Decoded: interface names of records contain no `#` and device ids no `@`; the exact condition under which keys collide otherwise is `LinkKey.KeyExact`.
- TopologyTable.FindLldp: lower-casing is modelled for ASCII letters; the special case for Fortinet devices without a chassis id (map-broker/process_ip.go:998-1004) is not modelled.
- Broker.Tables.SweepAddresses: an address registered in the same second survives, as in the code; the time of the original's clock is a parameter.
- RuleScan.Engine: the regular expression engine is a parameter; what compiles and what matches is arbitrary.
- RuleReader.ScanPattern: works on characters, the original on bytes; the two agree on ASCII texts.
- RangeReader.NumsCross: the default splitter and ranger; patterns set by a script are not modelled.
- PortVlans.PortModes: VLAN ids are canonical decimals; results are kept per port, and that two ports may be mapped to one interface name is not modelled.
- PortVlans.SortByNum: stands for the library sort.
- Lease.MutualExclusion: clocks of clients and of redis are one clock, and tokens (texts of the time) are assumed to be unique.
- Interpolation.Interpolate: every update is assumed to be accepted by rrd; on an error the original gives up the rest.
- An interface without a list of links and one with an empty list are not told apart, nor are absent and empty indexes; the code never stores an empty list.
- Times in the index of addresses, which nothing reads.
- Alerts, logging, debug output, graphs, MAC and ARP tables, and the rest of `process_ip_data` after the commit.
- Redis, MySQL, SNMP, SSH, HTTP, sockets and goroutines: I/O. Tag questions are modelled one after the other.
- Variable substitution, date formatting, captures and pagers of scripts: part of the arbitrary outcome of a command.
- The rules for graphs (`ParseGraphIntRules`, `MatchGraphIntRules`), which have the structure of the alert rules.
- Most of `Decode`, `port_list_8to1`, the accessors of nested maps, search and configuration loading: many branches without a deeper invariant.
