# INDIkit, verified in Dafny

INDIkit carries instrument state along one pipeline: a driver's registry of properties,
the `def`, `set` and `del` messages it emits, INDI XML, the Python client's cache, the web
bridge's queue for each browser, and the browser's own cache. Each hop uses a fast or lossy
form that is meant to agree with a simple one. This project models the hops and proves the
agreements.

| file | what it models |
|---|---|
| Wire.dfy, Merge.dfy | vectors, elements and messages, and how a `set` merges onto a definition |
| Store.dfy, BrowserStore.dfy | the in-place Python store and the immutable browser store, and that they agree |
| Coalescing.dfy | a browser's queue with overwriting: that it refines a plain queue, and exactly when it overwrites |
| Fanout.dfy, FanoutSafety.dfy | the bridge as a step system, its invariant, and the agreement of every browser |
| Bridge.dfy, BridgeRuns.dfy | the bridge in its own form: mutable slots, a deque, a dictionary, attached browsers; and that a bridge with its store is always in a state of the step system |
| Digits.dfy, Decimals.dfy, Printf.dfy, Doubles.dfy | exact decimal expansion, half-even rounding, `%f`, `%e` and `%g`, from a double's fields to the very text and back through the reader |
| Sexagesimal.dfy | the `%m` printers and the number reader |
| Property.dfy, Handle.dfy | the driver's handle: coercion, switch rules, snapshots, the emit policy |
| PersistedList.dfy, Driver.dfy | the device: define, withdraw, rollback, save, load, the saved list |
| Registry.dfy, RegistryRuns.dfy, DriverRuns.dfy | whole runs of a device as functions of its events, what they guarantee, and that the device does just that |
| Emission.dfy | that an emitted vector shares nothing with the live one |
| Codec.dfy, Streams.dfy | the XML printers and parsers over an abstract tree, for one message and for a whole stream |
| Connection.dfy, Client.dfy | the browser's reconnecting socket; the Python client's connections and waits |
| Telescope.dfy | the telescope simulator's slewing and parking |

How the pieces fit together:

- A callback of the bridge never suspends, so folding a message in and relaying it is one
  step. The step system keeps seeds as references into a heap of vector objects that go on
  being mutated, and serialises them when they are pumped; a queued `set` is a value.
  The methods of the classes in Bridge.dfy name in their contracts the step of the browser
  they perform (`Receive`, `Attached`, `Pumped`), and those of a broadcast the step of all
  of them. `BridgeRuns.Hub` puts a bridge, its store and the client's connection together:
  each of its methods performs one step, so the run-level claims hold of the objects.
- A driver's run is a sequence of calls and `getProperties`. What it leaves registered,
  told, configured and listed is a function of those events (Registry.dfy); the device and
  its handles, which are objects, are proved to be as that function says.
- A JSON frame is the message it encodes. The order in which a set or a dictionary is
  walked is left arbitrary where nothing depends on it (the bridge's open browsers), and is
  a list beside a map where something does (a device's properties).
- Agreement is of the map from (device, name) to vectors. A device without properties is
  not seeded to a browser, so device lists may differ.
- Element names are unique in a vector, and a `set` gives its elements the kinds the
  definition gave them (`Admissible`, `WellFormed`): the protocol's models do not enforce
  either, and the two stores differ where they fail.
- An element's `label` is called `caption`, the former being a reserved word.

Where the code decides against its own documentation, or a claim fails:

- src/indikit/driver/device.py:1499-1503 says a property defined before a setup attempt
  survives even if the attempt redefined it. The code keeps only handles that are still
  the registered ones, and so does `Driver.Device.RollBackSetup`;
  `DriverRuns.DroppedByRollback` is the run.
- An update that raises midway leaves the values before the failing one written and
  unsent (`Property.FailsAt`, `Property.RaisingLeavesTheClientBehind`), which a client does
  not see exactly when they show a change (`RegistryRuns.RaisedUpdate`).
- Redefining a persisted property in place without `persist` leaves the list naming it
  (`RegistryRuns.DefiningExactly`), and withdrawing it then misleads a client
  (`DriverRuns.MisledClient`), which nothing else does (`RegistryRuns.HonestExactly`).
- A handle that a later definition replaced still sends what is written through it, onto
  the newer definition a client holds (`Driver.Device.UpdateSuperseded`,
  `Driver.SupersededMisleads`).
- The browser prints 10^21 degrees and more with an exponent, the server in full
  (`Sexagesimal.PrintersAgree`, `Sexagesimal.PrintersDiffer`).
- Printing what was parsed from a sexagesimal text gives the text back except for a
  negative value that rounded to zero (`Sexagesimal.ReadThenPrint`).
- A saved exclusive switch vector restores exactly unless two members were on
  (`Property.SaveThenRestore`).
- Printing an update always states its state (`Codec.AbsentStateIsStated`).
- A handshake overflows with more than 255 recorded policies and ends the connection loop
  (`Client.IndiClient.EnqueueHandshake`, `Client.IndiClient.Connect`).

## Model

| member | source | states |
|---|---|---|
| FanoutSafety.EveryBrowserIsItsPendingFramesAway | src/indikit/web/bridge.py:385-500 | in every reachable state, for every live browser and every property, folding the frames it was sent, then a definition of each unsent seed as it stands now, then its queue, gives what folding every upstream message gives |
| FanoutSafety.EveryBrowserIsAccountedFor | src/indikit/web/bridge.py:513-562 | in every reachable state a live browser's queue is within the backlog, its log messages are the last ones received before it attached, as many as are retained, and then every one received since, once and in order, and the images offered to it were sent, are queued or were counted as replaced; the global counters are the sums |
| FanoutSafety.EveryBrowserIsTold | src/indikit/web/bridge.py:420-431 | in every reachable state a live browser is greeted before anything else, and the last word on the upstream connection among what it was sent and is to be sent is how the last connection change left it, or that there was none |
| FanoutSafety.EveryQueueIsBounded | src/indikit/web/bridge.py:540-562 | in every reachable state a live browser's queue is within the backlog and can be overwritten for exactly the properties with a slot queued and no `def` or `del` of them behind; a browser dropped for its backlog had one frame too many and no more |
| Fanout.LastEnds | src/indikit/web/bridge.py:320-320 | the retained notes are the last ones, in order, as many as there are up to the limit |
| FanoutSafety.StepKeepsInv | src/indikit/web/bridge.py:636-736 | every step (an upstream message folded and relayed, a connection change, an attach, a pump step, a control frame, a departure) keeps the invariant of all browsers |
| FanoutSafety.RunKeepsInv | src/indikit/web/bridge.py:284-736 | every run from the empty bridge keeps that invariant |
| FanoutSafety.UpstreamIsTheFold | src/indikit/web/bridge.py:636-686 | the cache the bridge relays from is the fold of every upstream message of the run |
| FanoutSafety.LogIsReceived | src/indikit/web/bridge.py:676-686 | the log the bridge retains the end of is the log messages received, in order |
| FanoutSafety.HeardKeepsSub | src/indikit/web/bridge.py:650-674 | relaying the change a message made keeps a browser pending frames away, though its unsent seeds are references that changed under it |
| FanoutSafety.RelayedIs | src/indikit/web/bridge.py:636-686 | an update of a known property is relayed as the full state it leaves it in; a definition, a deletion of something and a log message as they came, the deletion's reason and time with it; nothing else is relayed |
| FanoutSafety.PumpMovesBoundary | src/indikit/web/bridge.py:483-494 | the pump moves the boundary between sent and pending and changes nothing else a browser will have been sent |
| FanoutSafety.AttachedSub | src/indikit/web/bridge.py:385-431 | a browser attached with references to every cached vector starts in agreement with the upstream cache |
| FanoutSafety.AttachedIsSent | src/indikit/web/bridge.py:418-431 | a browser that attaches is sent, in this order, the greeting, a definition of every cached property, the retained notes and the connection |
| Coalescing.CoalescingRefinesFifo | src/indikit/web/bridge.py:184-270 | from any browser cache, draining the coalesced queue ends in the same property map as every frame uncoalesced, for every interleaving of offers and pops |
| Coalescing.OfferFaithful | src/indikit/web/bridge.py:184-257 | offering a frame keeps the queue sound and its fate equal to the plain queue's |
| Coalescing.OverwriteSameFate | src/indikit/web/bridge.py:203-230 | a set that overwrites the queued one of its property hides it: the frames behind it concern other properties and the later state absorbs the earlier |
| Coalescing.OverwriteSplits | src/indikit/web/bridge.py:203-230 | the frame overwritten in place is an earlier state of the same property with only other properties' frames behind it |
| Coalescing.OfferedSound | src/indikit/web/bridge.py:237-257 | after every offer each coalescible key's last slot is queued and no frame about the property follows it |
| Coalescing.PoppedSound | src/indikit/web/bridge.py:259-270 | popping takes the head frame, and a key can still be overwritten if and only if it could be before and a slot queued under it remains |
| Coalescing.RanTight | src/indikit/web/bridge.py:184-270 | in every run of a queue, whatever is offered: a key can be overwritten if and only if a slot is queued under it with no `def` or `del` of it behind, and between two slots of one property there is a `def` or a `del` of it |
| Coalescing.OfferedTight | src/indikit/web/bridge.py:184-257 | offering a frame takes no slot if it is a `set` of a property that is open to overwriting, which it then overwrites, and one slot otherwise |
| Coalescing.SecondSetOverwrites | src/indikit/web/bridge.py:203-230 | two `set`s of one property, with only frames about others offered between and the first still queued, occupy one slot: the second takes the first one's place |
| Coalescing.OfferTells | src/indikit/web/bridge.py:184-235 | whatever a frame overwrites, the last connection frame a browser will have been sent is the last one offered |
| Coalescing.OfferAccounts | src/indikit/web/bridge.py:513-537 | an image is missing from what a browser will have been sent exactly when a later one replaced it, and no log message ever is |
| Bridge.Subscription.Enqueue | src/indikit/web/bridge.py:184-235 | the mutable deque and the coalescible dictionary become the value-level queue after the frame; the result says whether a queued frame was overwritten, and if none was there is one slot more; a keyed frame is recorded as coalescible |
| Bridge.Subscription.Invalidate | src/indikit/web/bridge.py:237-257 | the coalescible slots of the property, or of the device, are forgotten and nothing else changes |
| Bridge.Subscription.Pop | src/indikit/web/bridge.py:259-270 | the head frame is returned and the queue becomes the value-level queue without it |
| Bridge.Subscription.PumpStep | src/indikit/web/bridge.py:483-494 | the frame handed to the socket and the state left are those of the pump step, a seed serialised as it is now |
| Bridge.Bridge.Deliver | src/indikit/web/bridge.py:513-562 | one browser receives the frame; overrunning the backlog closes it, detaches it and counts it, and a replaced image is counted |
| Bridge.Bridge.Detach | src/indikit/web/bridge.py:502-511 | a browser that left is forgotten and receives nothing more, and every other browser is as it was |
| Bridge.Bridge.Broadcast | src/indikit/web/bridge.py:698-736 | every open browser receives the frame once, in any order of the walk, and the two counters grow by the totals |
| Bridge.Bridge.OnEvent | src/indikit/web/bridge.py:636-674 | the frame relayed for a cache event is the one the event renders as, with its invalidation or its coalescing key |
| Bridge.Bridge.OnMessage | src/indikit/web/bridge.py:676-686 | the retained history is the last messages of the whole log, and the message is relayed |
| Bridge.Bridge.Attach | src/indikit/web/bridge.py:385-431 | the new browser's state is that of the attach step: the greeting, every cached object once, the retained notes and the connection as it stands (which `FanoutSafety.EveryBrowserIsTold` carries to every run) |
| Bridge.EventIsRelayed | src/indikit/web/bridge.py:636-674 | the frame of a store's event is the frame the step system relays for the message |
| Bridge.Bridge.SendControl | src/indikit/web/bridge.py:174-182 | a control frame reaches one browser alone, which may overrun its backlog and be dropped and counted; every other browser is as it was |
| BridgeRuns.Hub.Hear | src/indikit/web/bridge.py:636-686 | folding a message into the store and relaying what it changed, object by object, is one step of the step system |
| BridgeRuns.Hub.Attach | src/indikit/web/bridge.py:385-431 | a browser attaching is its attaching step, seeded with the objects the store files |
| BridgeRuns.Hub.Pump | src/indikit/web/bridge.py:483-494 | a browser's pump sending a frame is its pump step |
| BridgeRuns.Hub.Connect | src/indikit/web/bridge.py:688-696 | an upstream connection change announced to every browser is its step |
| BridgeRuns.Hub.Control | src/indikit/web/bridge.py:615-633 | an error frame queued for one browser is its step |
| BridgeRuns.Hub.Leave | src/indikit/web/bridge.py:502-511 | a browser going away is its leaving step, whatever was pending for it |
| BridgeRuns.Hub.BrowserHolds | src/indikit/web/bridge.py:385-736 | after whatever was done to the objects, the store holds the fold of every message heard, and an open browser's sent frames followed by its pending ones fold to just that |
| BridgeRuns.Hub.BrowserIsTold | src/indikit/web/bridge.py:420-431 | after whatever was done to the objects, an open browser is greeted first and the last word it was sent or is to be sent on the connection is how the connection stands |
| BridgeRuns.Hub.BrowserCoalesces | src/indikit/web/bridge.py:184-270 | after whatever was done to the objects, an open browser's dictionary names exactly the properties with a slot queued and no `def` or `del` of them behind, its queue is within the backlog, and a dropped one's is one past it |
| Merge.LaterStateAbsorbs | web/packages/client/src/store.ts:97-112 | merging a full later state of a definition reproduces it exactly |
| Merge.EarlierStateIsHidden | web/packages/client/src/store.ts:97-112 | whatever is cached, merging an earlier and then a later state of a definition is merging the later one |
| Merge.MergeFoldsExactly | web/packages/client/src/store.ts:68-112 | a vector is the merge of a `set` onto another if and only if it takes what the `set` carries (the state if stated, each optional field that is there, the last value sent for each element of the same kind, a BLOB's format if one came) and is otherwise the cached one, field by field and element by element |
| Merge.MergeOfNothing | web/packages/client/src/store.ts:97-112 | a `set` that carries nothing changes nothing |
| Merge.MergeMovesForward | web/packages/client/src/store.ts:97-112 | a merge never loses an optional field nor changes a definition's metadata |
| Merge.LiveVector.Merge | src/indikit/client/store.py:70-109 | the in-place merge of the Python store leaves the vector the immutable merge computes: what the `set` carries taken, everything else, each optional field it lacks included, as it was |
| Store.PyStore.Apply | src/indikit/client/store.py:171-197 | the nested dictionary of live vectors becomes the folded cache, and the event reports the change and refers to the object that changed |
| Store.PyStore.Delete | src/indikit/client/store.py:199-229 | a named deletion keeps the device, an unnamed one takes it, and a deletion that removes nothing reports nothing |
| Store.AppliedTouches | src/indikit/client/store.py:171-229 | a definition replaces what was cached, an update of nothing does nothing, a deletion leaves nothing it names, what a message does not name stays, and only the deletion of a whole device forgets it |
| Store.EventReports | src/indikit/client/store.py:171-229 | an event is reported for a definition, an update of a known property and a deletion that removes something, and only then: with the vector as it is now cached, or the deletion's reason and time |
| BrowserStore.TsStore.Apply | web/packages/client/src/store.ts:153-174 | the map, its frozen per-device snapshots and its sorted device list stay in step; other devices keep the very snapshot object |
| BrowserStore.TsStore.Remove | web/packages/client/src/store.ts:200-228 | the same for a deletion, with its event |
| BrowserStore.SortNames | web/packages/client/src/store.ts:240-242 | the device list is the list of the known devices in strictly ascending order of UTF-16 code units |
| BrowserStore.SortedListUnique | web/packages/client/src/store.ts:240-242 | there is only one such list |
| BrowserStore.UnitsBeforeExactly | web/packages/client/src/store.ts:240-242 | a name is before another if and only if its code units begin the other's or are the smaller where they first differ |
| BrowserStore.SurrogatesComeFirst | web/packages/client/src/store.ts:240-242 | two names that code units order otherwise than the characters' own numbers |
| BrowserStore.UnitsInjective | web/packages/client/src/store.ts:240-242 | different names have different code units, so the order is total |
| BrowserStore.SurrogatesSpell | web/packages/client/src/store.ts:240-242 | a character past the basic plane is a high and then a low surrogate, which spell it |
| BrowserStore.StoresAgree | web/packages/client/src/store.ts:153-174 | for every sequence of messages both stores reach the same map through the same events |
| Decimals.ToDecimalIsExact | web/packages/client/src/format.ts:101-122 | the digits denote exactly mantissa times two to the exponent |
| Decimals.RoundDecimalIsQuotient | web/packages/client/src/format.ts:132-153 | rounding gives the nearest multiple of ten to minus the places, through a carry out of the leading digit and for negative places |
| Decimals.QuotientIsHalfEven | web/packages/client/src/format.ts:139-147 | that multiple is the exact value rounded half to even |
| Decimals.DigitsDecide | web/packages/client/src/format.ts:140-143 | the comparison of digit characters rounds as the numbers they denote would |
| Decimals.HalfEvenUnique | web/packages/client/src/format.ts:126-131 | there is only one half-even rounding |
| Decimals.ExponentOfIsExponent | web/packages/client/src/format.ts:156-159 | the exponent is the power of ten below the value, or 0 for zero |
| Decimals.RoundedExponent | web/packages/client/src/format.ts:186-197 | rounding to significant digits moves the exponent exactly when it carries to a power of ten |
| Decimals.CarriesAlike | web/packages/client/src/format.ts:209-218 | after a carry the fixed style's own rounding of the exact value gives the same power of ten: no double rounding |
| Printf.FixedBodyPrints | web/packages/client/src/format.ts:179-183 | `%f` text is the value rounded half to even: a whole part without a zero too many, and exactly its precision of digits behind the point |
| Printf.ExponentSpells | web/packages/client/src/format.ts:204-205 | the printed exponent has its sign, at least two digits, and no leading zero beyond two |
| Decimals.ExpansionCanonical | web/packages/client/src/format.ts:101-122 | no zero but a lone one leads the digits ahead of the point of a double's expansion |
| Decimals.RoundingCanonical | web/packages/client/src/format.ts:132-153 | nor after rounding, through a carry too |
| Printf.SignificantDigits | web/packages/client/src/format.ts:187-201 | the significant digits are one more than the precision, lead with zero only for zero, and a carry yields a power of ten |
| Printf.ScientificBodyPrints | web/packages/client/src/format.ts:186-206 | `%e` text reads as the value rounded half to even to that many significant digits |
| Printf.GeneralBodyPrints | web/packages/client/src/format.ts:209-220 | `%g` picks its style from the exponent after rounding, and either style, trimmed or not, reads as the same rounded value |
| Printf.TrimKeepsNumber | web/packages/client/src/format.ts:162-167 | trimming keeps the number and the exponent's text and leaves no trailing zero in the fraction |
| Printf.TextReads | web/packages/client/src/format.ts:178-206 | what a decimal text with a point and an exponent reads as |
| Doubles.QuotientIsNearest | web/packages/client/src/format.ts:101-153 | rounding a double's expansion to any number of places, negative ones too, gives the integer nearest to the double scaled by that power of ten, ties to even |
| Doubles.ExponentIsDecade | web/packages/client/src/format.ts:156-159 | the expansion's decimal exponent is the decade mantissa times two to the exponent lies in |
| Doubles.FieldsAreBinary64 | web/packages/client/src/format.ts:104-118 | the fields are those of a binary64: 1023 with no fraction is one, one more in the exponent field doubles, and the smallest normal is one unit above the largest subnormal |
| Doubles.FixedBodyOfDouble | web/packages/client/src/format.ts:101-183 | from a double's fields, `%.pf` prints, with q the integer nearest to it times ten to the p, ties to even, the plain text of q / 10^p and exactly p digits with the value q mod 10^p |
| Doubles.ScientificBodyOfDouble | web/packages/client/src/format.ts:101-206 | from a double's fields, `%.pe` prints one digit, exactly p digits behind the point and a signed exponent of at least two digits: the integer nearest to it at p + 1 significant digits, a carry printed as the power of ten it is |
| Doubles.GeneralBodyOfDouble | web/packages/client/src/format.ts:101-220 | from a double's fields, `%.pg` prints the integer nearest to it at p significant digits, with an exponent if and only if the rounded value's is below -4 or at least p; the whole part is plain, the fraction all of p digits' worth, and trimming takes the zeros it ends in and nothing else |
| Sexagesimal.PrintedReads | src/indikit/protocol/numbers.py:58-102 | the reader of numbers reads any decimal text with a sign, a point and an exponent as the number it denotes |
| Doubles.FixedReads | web/packages/client/src/format.ts:101-183 | what `%.pf` prints of a double is read as the multiple of 10^-p nearest to it |
| Doubles.ScientificReads | web/packages/client/src/format.ts:101-206 | what `%.pe` prints of a double is read as the nearest number of p + 1 significant digits |
| Doubles.GeneralReads | web/packages/client/src/format.ts:101-220 | what `%.pg` prints of a double, in either style and trimmed or not, is read as the nearest number of p significant digits |
| Sexagesimal.PrintThenRead | src/indikit/protocol/numbers.py:147-164 | parsing a printed `%w.fm` value gives back its whole parts of a degree with its sign, for every value, width and precision |
| Sexagesimal.RoundedIsNear | src/indikit/protocol/numbers.py:147-151 | what is read back is at most half a part away, a half going away from zero |
| Sexagesimal.ReadThenPrint | src/indikit/protocol/numbers.py:147-164 | printing what was read gives the same text if and only if it was not a negative value that rounded to zero |
| Sexagesimal.FieldsBelowSixty | src/indikit/protocol/numbers.py:155-164 | the minute and second fields are two digits each and below sixty |
| Sexagesimal.TextWidth | src/indikit/protocol/numbers.py:147-164 | a printed value is blanks, sign and degrees without leading zeros, and exactly `frac` characters from a colon on for 3, 5, 6, 8 and 9 (three for any other); the whole as wide as the width, or wider if the degrees need it |
| Sexagesimal.SeparatorsAlike | src/indikit/protocol/numbers.py:90-90 | parts are read apart by colons, blanks, tabs and line ends alike, in any number |
| Sexagesimal.PrintersAgree | web/packages/client/src/format.ts:50-73 | the browser prints the text the server prints if and only if there are fewer than 10^21 degrees |
| Sexagesimal.PrintersDiffer | web/packages/client/src/format.ts:53-64 | the input 10^21 with `%9.6m`, on which the browser prints `1e+21:00:00` and the server 22 digits |
| Sexagesimal.Accumulate | src/indikit/protocol/numbers.py:99-102 | the accumulating loop computes degrees plus minutes over sixty and so on |
| Sexagesimal.ParseNumber | src/indikit/protocol/numbers.py:58-102 | the reader's result is the specification's, empty and malformed text included |
| DriverRuns.Session.Run | src/indikit/driver/device.py:1418-1530 | any sequence of driver calls and `getProperties`, failing setups included, leaves the device, its handles, its configuration, its list and what a client was told as the model of those events says |
| DriverRuns.Session.ClientAgrees | src/indikit/driver/device.py:661-726 | after any run a client that folded everything emitted holds exactly the registered properties: equal (always), or with equal state and message, every number rendering to the same text and every other value equal (on_change), unless an update raised, having written a change, since the property was last sent; an exclusive switch vector is never shown with two on; at no prefix did its list name a property it did not hold, if and only if no call withdrew a property no longer persisted that the list still named; and the list is exact unless a definition replaced a persisted property by one that is not |
| DriverRuns.Session.Perform | src/indikit/driver/device.py:661-1123 | one call of a driver does to the device what the model's step says, on the same handles |
| DriverRuns.Session.Ask | src/indikit/driver/device.py:1418-1487 | the first `getProperties` runs the setup and undoes it if it raises, a later one announces everything, as the model's step says |
| DriverRuns.Session.Fail | src/indikit/driver/device.py:1489-1530 | a failed setup leaves exactly the handles that were announced before it and still registered, all of them shown to the client, and the values of the others configured |
| DriverRuns.MisledClient | src/indikit/driver/device.py:661-726 | a run whose client is left with a list naming a property it does not hold: defined persisted, published, defined again without `persist`, withdrawn |
| DriverRuns.DroppedByRollback | src/indikit/driver/device.py:1499-1530 | a run in which a property defined before a setup is gone from the registry and the client because the setup redefined it and raised |
| DriverRuns.SaveAfterWithdrawal | src/indikit/driver/device.py:551-576 | a document saved any time after a persisted property was withdrawn holds its last values, unless it was loaded or defined as a persisted one in between |
| Registry.EventsKeepInv | src/indikit/driver/device.py:661-1530 | every run keeps: what is told is an earlier state of what is held, both of what was defined; handles, names and registry agree; a list that never misled names only registered properties |
| Registry.EditFaultStays | src/indikit/driver/property.py:591-649 | whether an update raises is a matter of the definition, not of the values held |
| RegistryRuns.EditInStep | src/indikit/driver/property.py:494-501 | a client is in step after an edit if and only if it was sent or what it wrote shows as what the client was told; from being in step, if and only if it did not raise or what it wrote shows no change |
| RegistryRuns.RaisedUpdate | src/indikit/driver/property.py:229-236 | an update that raises, under either policy, does so at the first value the definition refuses, and leaves the client in step if and only if the values before that one show no change; one refused at its first value always does |
| RegistryRuns.InStepUnlessLeftBehind | src/indikit/driver/device.py:661-1123 | in any run a property is in step at the end unless an update of it raised, having written what shows as a change, since it was last defined, sent or announced |
| RegistryRuns.AnnouncedIsInStep | src/indikit/driver/device.py:1485-1530 | an announcement, or the end of a failed setup, brings every property into step |
| RegistryRuns.DefiningExactly | src/indikit/driver/device.py:661-726 | a definition leaves an exact published list exact if and only if it does not replace a persisted property by one that is not |
| RegistryRuns.ListUnlessUnlisted | src/indikit/driver/device.py:410-467 | in any run without such a definition the published list is exact at the end and misled no client on the way |
| RegistryRuns.ForgettingHonestly | src/indikit/driver/device.py:1078-1123 | a withdrawal leaves a truthful list truthful if and only if the property is persisted to the last or the list does not name it |
| RegistryRuns.HonestExactly | src/indikit/driver/device.py:410-467 | in any run no client was misled by the list if and only if no call withdrew a property no longer persisted that the list still named |
| RegistryRuns.ExactNames | src/indikit/driver/device.py:457-467 | what a client reads in an exact list is the registered persisted properties, no more and no fewer |
| RegistryRuns.WithdrawnIsSaved | src/indikit/driver/device.py:1036-1123 | through any events, a withdrawn persisted property's last values stay in every document saved until it is loaded or defined as a persisted one |
| RegistryRuns.LiveIsSaved | src/indikit/driver/device.py:551-576 | a save writes what every live persisted property holds and keeps every other entry |
| RegistryRuns.CallLeavesOthers | src/indikit/driver/device.py:661-1123 | a call leaves every property it is not about as it was, with what is configured for it unless it saves |
| RegistryRuns.DefiningRegisters | src/indikit/driver/device.py:661-726 | a definition registers its property under a handle of its own, as given but for configured values if it is persisted, told just as held; only a persisted one that cannot be saved is refused, with no effect |
| RegistryRuns.SetupRetried | src/indikit/driver/device.py:1418-1530 | a setup that raised is run again by the next `getProperties`, on what the failed one left; one that did not raise is not run again |
| RegistryRuns.LoadAndDefineCommute | src/indikit/driver/device.py:490-522 | loading a saved document and then defining the property leaves the elements that defining it and then loading leaves, whatever was configured, and they are the saved ones if and only if an exclusive vector was not saved with two on |
| RegistryRuns.ExclusiveStays | src/indikit/driver/property.py:593-607 | in any run an exclusive switch vector defined with at most one member on holds at most one on, was never told otherwise, and is restored exactly by what a save writes of it |
| RegistryRuns.MisleadingRunEnds | src/indikit/driver/device.py:661-726 | the events after which a published list names a withdrawn property |
| RegistryRuns.DroppingRunEnds | src/indikit/driver/device.py:1499-1530 | the events after which a redefined property is dropped by a rollback |
| Driver.Device.Define | src/indikit/driver/device.py:661-726 | the handle replaces any older one of its name and its announcement already holds the configured values; refused for lights, BLOBs and names with white space if persisted; an exact published list stays exact if and only if no persisted property was replaced by one that is not |
| Driver.Device.Update | src/indikit/driver/property.py:227-236 | a successful update brings an always property into step and keeps an on_change one in step; one that raises keeps a client in step if and only if what was written shows no change, under either policy |
| Driver.Device.UpdateSuperseded | src/indikit/driver/property.py:227-236 | an update through a handle a later definition replaced still goes out, merged by a client onto the newer definition; a client in step stays so if and only if nothing goes out or what it then holds shows as the newer vector does |
| Driver.SupersededMisleads | src/indikit/driver/device.py:661-726 | two definitions and an update through the first handle, after which the client holds the values written and the registry the others |
| Driver.Device.Withdraw | src/indikit/driver/property.py:372-391 | a handle withdraws the property it owns, the list's own included, keeping a persisted one's values, and says nothing when it owns none |
| Driver.Device.DeleteProperty | src/indikit/driver/device.py:1036-1076 | by name: the handle is dead, a persisted one's values are kept and the retraction is the last thing said; silent for a name that is not there |
| Driver.Device.Forget | src/indikit/driver/device.py:1078-1123 | identity decides; the values are captured and the list restated ahead of the retraction |
| Driver.Device.AnnounceAll | src/indikit/driver/device.py:1485-1487 | a definition of every property, in order, after which every one is in step |
| Driver.Device.RollBackSetup | src/indikit/driver/device.py:1489-1530 | what survives is what was announced and is still the same handle, announced again in that order; a property the attempt redefined is dropped, and every dropped handle is dead |
| Driver.Device.PublishPersisted | src/indikit/driver/device.py:410-441 | the list is published once, exact, when a configuration property is defined |
| Driver.Device.Refresh | src/indikit/driver/device.py:443-455 | the list is restated and exact, and a client's list stays honest |
| Driver.Device.SaveConfig | src/indikit/driver/device.py:551-576 | a saved document holds every live persisted property's current values and keeps every other entry |
| Driver.Device.LoadConfig | src/indikit/driver/device.py:490-522 | the configuration takes the document; exactly the live persisted properties it names take its values and are told under their policy; the elements refused are returned by property, in order |
| PersistedList.WordsOfJoin | src/indikit/driver/device.py:457-467 | reading the space-separated list gives the names back |
| Handle.BoundProperty.Set | src/indikit/driver/property.py:174-236 | the values, state, message and time written, whether a `set` was sent, and what a raising call leaves |
| Handle.BoundProperty.SetAll | src/indikit/driver/property.py:238-269 | the same for one value given to every element |
| Handle.BoundProperty.Select | src/indikit/driver/property.py:271-335 | the same for one element selected, its missing-name and no-unselected-value errors first |
| Handle.BoundProperty.Restore | src/indikit/driver/property.py:440-471 | saved values applied tolerantly, the refused ones named, and published under the policy; a retracted handle raises and writes nothing |
| Handle.BoundProperty.ApplyValues | src/indikit/driver/property.py:425-438 | elements that are gone are skipped, values that will not take are dropped and named in order, the rest apply; a retracted handle raises and writes nothing |
| Handle.BoundProperty.Assign | src/indikit/driver/property.py:572-649 | one element's coerced value, or nothing and the fault |
| Handle.BoundProperty.Publish | src/indikit/driver/property.py:494-501 | nothing is sent or stamped if and only if the policy is on_change, it is not forced, and state, message and every value a client reads are as they were; otherwise the stamped vector is sent |
| Handle.EditedWrites | src/indikit/driver/property.py:174-335 | beside its elements an edit changes the state and the message it asks for (a light selected without a state gives its vector its own) and nothing else, and one that raises neither |
| Handle.SelectFills | src/indikit/driver/property.py:271-335 | selecting with nothing said of the rest turns the other switches off and the other lights idle, and of any other kind is refused with nothing written |
| Handle.SetAllWrites | src/indikit/driver/property.py:238-269 | one value given to every element, of a vector without an exclusive rule, is taken by each of them; it raises if and only if one will not take it |
| Handle.BoundProperty.Reports | src/indikit/driver/property.py:174-335 | after an edit the vector has the state and the message asked for or those it had, and the time of the edit if and only if it was sent |
| Property.ShowsExactly | src/indikit/driver/property.py:548-570 | a client in step holds the vector itself or, under on_change, one equal in state and message, its numbers rendering to the same text and every text, switch, light and payload equal |
| Property.EmitsExactly | src/indikit/driver/property.py:494-501 | an update goes out if and only if it is forced, the policy is always, or one of those differs |
| Property.AssignWrites | src/indikit/driver/property.py:572-649 | a value turned on under an exclusive rule leaves every other switch off; any other value changes its own element, and of a BLOB the length only if it is not declared compressed |
| Property.AssignAllWrites | src/indikit/driver/property.py:229-231 | after an update that did not raise, of a vector without an exclusive rule, an element no value was given for is as it was and any other took the last value given for it |
| Property.Coercions | src/indikit/driver/property.py:593-649 | what switches, numbers, texts and payloads make of each kind of value |
| Property.AssignAllStaysExclusive | src/indikit/driver/property.py:593-607 | an exclusive switch vector with at most one member on keeps at most one on through any update |
| Property.RaisesExactly | src/indikit/driver/property.py:229-231 | an update raises if and only if one of its values names no element or will not take, judged before anything is written, and with the fault of the first such |
| Property.FaultStays | src/indikit/driver/property.py:591-649 | what a definition takes does not depend on the values it holds |
| Property.FailsAt | src/indikit/driver/property.py:229-231 | an update that raises has written the values before the one that failed and none from it on |
| Property.RefusedAre | src/indikit/driver/property.py:425-438 | a value is named as refused if and only if its element is there and will not take it |
| Property.RaisingLeavesTheClientBehind | src/indikit/driver/property.py:229-236 | an input on which a raised update leaves the live vector changed and unsent |
| Property.StampedShows | src/indikit/client/store.py:70-109 | a client merging the published vector holds exactly it |
| Property.SaveThenRestore | src/indikit/driver/config.py:113-143 | saved values restore the elements they were read from, whatever was held, if and only if an exclusive vector was not saved with two members on |
| Property.RestoreForgets | src/indikit/driver/config.py:113-143 | restoring all of a vector's values leaves the same elements whatever it held |
| Property.RestoredStaysExclusive | src/indikit/driver/property.py:425-438 | restoring any values keeps an exclusive vector exclusive |
| Property.SelectSwitch | src/indikit/driver/property.py:330-335 | selecting a switch leaves it on and every other one off, whatever the rule |
| Property.SelectLight | src/indikit/driver/property.py:330-335 | selecting a light gives it the value and every other light the unselected one |
| Property.CollectValues | src/indikit/driver/config.py:131-143 | the saved values of a vector, lights and BLOBs left out |
| Emission.Run | src/indikit/driver/property.py:528-546 | after any later writes into the live vector every queued message equals the vector when it was emitted |
| Emission.LiveModel.Detached | src/indikit/protocol/models.py:364-387 | a detached copy is equal and shares no object |
| Codec.DefinitionRoundTrip | src/indikit/protocol/xml.py:233-273 | a definition without payloads parses as it was printed, its numbers as their text reads |
| Codec.UpdateRoundTrip | src/indikit/protocol/xml.py:570-693 | a printed and parsed update leaves any cached definition as the original would |
| Codec.AbsentStateIsStated | src/indikit/protocol/xml.py:265-268 | an update printed though its state was absent merges the same if and only if the cached state is that one |
| Codec.RefusedExactly | src/indikit/protocol/xml.py:202-208 | a vector is refused if and only if it holds a compressed payload without its length |
| Codec.MessageRoundTrip | src/indikit/protocol/xml.py:276-321 | a request, a deletion, a log message and a BLOB policy parse as they were printed |
| Codec.CommandRoundTrip | src/indikit/protocol/xml.py:570-693 | a client's `new` vector parses for the same property, time and message with the values it asked for, and nothing of a definition's metadata |
| Codec.StateIfStated | src/indikit/protocol/xml.py:690-690 | an update states its state if and only if its node has one; one that has none leaves the state a property is latched in alone |
| Codec.BareVectorReads | src/indikit/protocol/xml.py:570-627 | what a vector that says nothing but whose it is reads as: Idle, rw unless of lights, AnyOfMany if of switches; an empty token or time says nothing |
| Codec.BareElementReads | src/indikit/protocol/xml.py:352-415 | what an element that says nothing but its name reads as; an empty format and bounds that are no numbers say nothing |
| Codec.BareMessagesRead | src/indikit/protocol/xml.py:655-681 | the other messages with no more than they need, and the refusal of a deletion or a policy of no device |
| Codec.PayloadSaysItsLength | src/indikit/protocol/xml.py:195-225 | a payload is printed with the length it was said to have, or its own, and that of its text; a definition prints none |
| Codec.UnreadableRefused | src/indikit/protocol/xml.py:352-415 | a vector with an element whose number, token or payload cannot be read is refused |
| Codec.UnnamedRefused | src/indikit/protocol/xml.py:510-535 | a vector without a device or a name is refused |
| Codec.CompressedArrivesInflated | src/indikit/protocol/xml.py:352-415 | a compressed payload arrives inflated, with its inflated length and the format without `.z` |
| Streams.StreamSurvives | src/indikit/protocol/xml.py:276-321 | folding a whole printed and parsed stream gives any cache what folding the stream with its numbers settled gives |
| Streams.ReaderHoldsSettled | src/indikit/protocol/xml.py:135-321 | where updates keep their definition's number formats, the reader's cache is the writer's with each number as its text reads |
| Codec.SexagesimalSettles | src/indikit/protocol/xml.py:162-171 | a number printed in a sexagesimal format keeps its whole parts of a degree |
| Codec.DecimalSettles | src/indikit/protocol/xml.py:162-171 | a number printed as decimal text keeps the number that text denotes |
| Codec.VectorXml | src/indikit/protocol/xml.py:233-273 | the node built by the loop over the elements, or none if one cannot be described |
| Codec.ElementSetReads | src/indikit/protocol/xml.py:135-230 | an update's element reads back with the value any merge takes from it |
| Codec.ElementDefReads | src/indikit/protocol/xml.py:352-415 | a definition's element reads back whole |
| Connection.Run | web/packages/client/src/connection.ts:59-171 | for any interleaving of calls, callbacks, socket events and the timer: frames handed to sockets and then the held ones are the frames sent in order, every socket but the current one was closed, and a started connection that is not closing has a socket or a booked attempt |
| Connection.ReconnectingConnection.Start | web/packages/client/src/connection.ts:83-93 | it keeps the socket it holds or opens one, and books nothing |
| Connection.ReconnectingConnection.Close | web/packages/client/src/connection.ts:96-108 | the socket is dropped and closed and the timer cancelled |
| Connection.ReconnectingConnection.Send | web/packages/client/src/connection.ts:111-117 | the frame follows every earlier one, on the wire or in the outbox |
| Connection.ReconnectingConnection.OnOpen | web/packages/client/src/connection.ts:129-135 | the current socket is handed the outbox in order; a dropped one nothing |
| Connection.ReconnectingConnection.OnClose | web/packages/client/src/connection.ts:144-149 | only the current socket's close empties the connection |
| Connection.ReconnectingConnection.TimerFires | web/packages/client/src/connection.ts:154-163 | it opens a socket exactly when none is held and none is unwanted |
| Client.Perform | src/indikit/client/client.py:316-395 | a connecting step of a client that may connect opens one connection, whose handshake is getProperties and the policies recorded so far; any other moves the newest connection alone, whose accepted sends grow by exactly the message a step sends with room for it |
| Client.Run | src/indikit/client/client.py:307-355 | each connection's handshake is that of the policies set before it opened, its accepted sends are those accepted while it was up, and what was written on it is a prefix of the two, in order |
| Client.IndiClient.EnqueueHandshake | src/indikit/client/client.py:357-370 | the handshake is getProperties and then every recorded policy, and fits if and only if there are at most 255 |
| Client.IndiClient.Connect | src/indikit/client/client.py:317-331 | a new connection starts with its handshake alone in the queue; an overflow ends the loop |
| Client.IndiClient.Send | src/indikit/client/client.py:739-749 | accepted exactly when connected and the queue has room, otherwise nothing is held |
| Client.IndiClient.EnableBlobs | src/indikit/client/client.py:796-798 | the policy is recorded whether or not it can be sent, in the place its key first took |
| Client.IndiClient.End | src/indikit/client/client.py:333-347 | nothing queued for a connection outlives it |
| Client.HandshakeHasEachPolicyOnce | src/indikit/client/client.py:369-370 | each recorded policy is in the handshake once, with its latest setting |
| Client.HandshakeIsLatest | src/indikit/client/client.py:357-370 | in the handshake after any steps every policy ever set is there once, as it was set last |
| Client.RecordedInPlace | src/indikit/client/client.py:796-798 | a policy keeps the place its key first took, and a new key comes last |
| Client.WaitFor | src/indikit/client/client.py:681-706 | a wait resolves to the first state that satisfied it, as a copy no later message reaches, or not at all if none did |
| Telescope.SlewOut | examples/telescope_device.py:286-323 | an uninterrupted slew arrives after exactly the larger of one tick and the two axes' distances over their steps, rounded up, and never later than a half turn or pole to pole takes; a park ends parked, any other slew tracking if asked to |
| Telescope.RaApproaches | examples/telescope_device.py:294-299 | a tick takes exactly a step off the circular distance and never goes past the target |
| Telescope.DecApproaches | examples/telescope_device.py:301-305 | the same on the bounded axis |
| Telescope.FarthestSlew | examples/telescope_device.py:42-48 | the farthest slew takes 3600, 360, 36 or 6 seconds at the four rates |
| Telescope.DriftIs | examples/telescope_device.py:333-350 | right ascension rises by 15.041 arcseconds a second under a mount that does not track, by what solar and lunar rates lack of that under one that does, and not at all in the sidereal rate or parked |
| Telescope.PaddlesMove | examples/telescope_device.py:325-331 | north raises the declination and south lowers it, as far as the pole; west raises the right ascension and east lowers it, an hour for fifteen degrees |
| Telescope.PulseIs | examples/telescope_device.py:517-564 | a second's guide pulse at the full rate moves 15.041 arcseconds, in proportion to rate and length |
| Telescope.TelescopeSimulator.TickSlew | examples/telescope_device.py:286-323 | the slew step, its arrival and what arriving does to parking and tracking |
| Telescope.TelescopeSimulator.Tick | examples/telescope_device.py:270-279 | a slew's step, or the paddles and then the drift of the sky; a parked mount stays at rest, a disconnected one is not simulated |
| Telescope.TelescopeSimulator.Park | examples/telescope_device.py:464-482 | parking starts a slew to the pole with the paddles at rest; anything else unparks |
| Telescope.TelescopeSimulator.OnDisconnect | examples/telescope_device.py:227-250 | all motion halts and a park that never arrived is retracted |
| Telescope.Run | examples/telescope_device.py:227-564 | every run stays in range, and a parked mount that is never unparked does not move and does not track |

## Left out

- lxml framing, the stream parser's recovery and stall detection, base64 and zlib: the codec starts from complete nodes and takes the conversions as parameters (`Codec.Library`).
- Sockets, asyncio scheduling, threads, FastAPI routes, the CLI, settings, logging and origin checks: input and output around the modelled steps.
- The bridge's parsing of what a browser sends (src/indikit/web/bridge.py:565-634) and the forwarding of it: the error frame it may answer with is a step, when and with what it does is not modelled.
- The driver's dispatch of client writes to handlers, periodic jobs and their lock: a run is any sequence of the calls they make.
- Configuration files: names, versions, atomic replacement and size limits; a document is a value, and `purge_config` only removes the file.
- The log messages a device sends beside its properties, and the warnings a restore logs.
- A light given something that is not a state: the source stores it, the model refuses it.
- Python integers handed to an element are taken as floats; underscores, Unicode digits and Unicode white space in numbers are not read.
- IEEE 754 rounding in the sexagesimal printer and reader and in the telescope: values are reals. The decimal expansion starts from a double's sign, mantissa and exponent and is exact.
- format.ts:222-296: the `#`, `+`, space, `-` and `0` flags, the width and `%d`, which arrange a body already printed.
- Calendar arithmetic: a timestamp is a count of whole seconds, and its text a parameter that reads back.
- Calls back into the connection from a socket's own `send` or from the socket factory: neither does in a browser; calls from the owner's callbacks are modelled.
- Exceptions in the browser's connection: an owner's `onClose` or a socket factory that throws, which leaves neither a socket nor a timer, and a `send` that throws while the outbox is flushed, which loses the frames behind it.
- Parser counters, statistics and callbacks of the Python client; failing the waits of a closed client.
- The telescope's `message` lines, its property vectors' busy states other than the park vector's, its elevation and longitude.
- Wildcard subscriptions and the order of callbacks in both stores.
- Driver.Device.Define: does not model a driver defining INDIKIT_CONFIG_PERSISTED itself, nor a vector of another device (src/indikit/driver/device.py:697-698 fills in only an unset one), because the list is the device's own and a device answers for its own properties.
- Driver.Device.Update: does not model a driver writing to INDIKIT_CONFIG_PERSISTED through the handle the registry gives it, because its text is the device's to keep; withdrawing it is modelled.
- DriverRuns.Session.Run: does not count an update through a handle that a later definition replaced among the events, because what a client merges then is of another definition than the one registered; `Driver.Device.UpdateSuperseded` says what such an update does.
- Merge.LiveVector.Merge: does not model repeated element names, or a `set` element of another kind than its definition's, to which the Python store assigns a value of the other type all the same.
- Store.PyStore.Apply: the same, for the messages it is given.
- BrowserStore.TsStore.Apply: a snapshot is a map; the source's is a plain object, in which a property named `__proto__` is not a key of its own.
- Sexagesimal.StringOf: prints a whole number's own digits; past 2^53 a JavaScript number is a double, whose shortest digits are a matter of IEEE rounding.
- Telescope's setters of modes, rates and location: their contracts state the fields they set; only that they keep the mount in range and a parked one at rest matters to a run.
- The dome, Open-Meteo and other examples, the React components and the in-browser simulators: they would add easy members.
