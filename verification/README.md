# Verified model of nlcpp

nlcpp wraps libnl in C++ classes that own what they point at. This project models the parts of nlcpp
that carry state of their own and proves what they promise, over every run:

* **Handles** (`Handles`, `HandlesProofs`, `Collected`, `Programs`): the owning classes over reference-counted
  objects. One class `Handle` has a field for the pointer; `Kind` selects the few places where `Cache`,
  `Address`, the route objects (`RouteAddress`, `RouteLink`, `Route`) and `Message` differ. After any
  sequence of operations each count is the number of owners, and the list of uses that break this is
  exact. `Collected` is the same program as plain pointers under a garbage collector, and the two agree
  over every run.
* **Next hops** (`NextHops`, `HopOwnership`, `CollectedHops`, `HopPrograms`): uncounted objects with one owner, a
  `NextHop` handle, a route, or outside code, again compared with a garbage collector.
* **Address fields** (`AddressFields`): over every run the five `Address` fields of a `RouteAddress` are
  five optional values, whatever the caller does to the addresses it passed in or got out.
* **Gateway** (`Gateways`): the address of a `NextHop`, whose setter ignores a failed copy.
* **Iteration** (`Iteration`): the skipping iterator over a cache produces exactly the matching objects,
  and gives back every reference.
* **Requests** (`Sync`, `Family`): the synchronous request loop, its callbacks, and the two queries of
  the generic netlink controller.
* **Watching** (`Watch`, `WatchPrograms`, `PollTables`): who is told about which change, through a raw
  pointer to a list owned elsewhere.
* **Flags** (`Flags`, `Sorting`): composing and decomposing a 32-bit word of flags.
* **Command line of the test tool** (`Tokenizer`, `LinkArgs`).

`Libnl` states what is assumed of libnl. A get and a put change a count by one, and the last put frees;
putting null does nothing, and getting or cloning null, like any use of an object that does not exist,
is a fault. A clone is a fresh equal object, or null when there is no memory. Further assumptions sit with
the code that needs them: matching is loose (`Iteration.Matches`); a next hop is added at the tail
(`NextHops.Route.Append`); a setter for an address field takes its own reference or refuses
(`AddressFields.RouteAddress.RawSet`, and `Gateways.NextHop.RawSet`, which never refuses); one call of
`nl_recvmsgs` reads one datagram, so that further parts of a reply are read by further rounds of the loop,
and `NL_STOP` ends a datagram and `NL_SKIP` does not
(`Sync.Socket.Receive`); a manager accepts one cache of a kind (`Watch.RouteCacheManager.AddressCache`).
Whether memory is available, whether libnl refuses, and what arrives on a socket are parameters.

`Enumeration` states what a list holds: `Lists(got, less, pick)` says that `got` has one entry for each index
that `pick` accepts, the entry it picks, in the order of the indices. There is only one such list. Callbacks
run, messages delivered, events told, and objects selected are described in this way, apart from the loops
and recursive functions that compute them.

Where a member is a method on objects, its contract ties the new state to specification functions, and
the lemmas are about those. `Programs.Program.ExecuteAll`, `HopPrograms.Program.ExecuteAll` and
`WatchPrograms.Program.ExecuteAll` run whole programs on objects and are proved equal to the state machines
the lemmas speak of; `AddressFields.SetIsStep` and `ClearAndGetAreSteps` do the same for the address fields.

Five properties one might expect are false of the code as it stands. Each has its exact condition:

* copying from a moved-from handle or hop goes through null (`HandlesProofs.StepSafeIff`,
  `HopOwnership.StepSafeIff`, and a `CopyOfMovedFromFaults` in each module);
* filtered iteration reads through null exactly when the cache is empty or the filter was moved from: the
  match test in `begin()` does not look at its pointers, as the loop of `++` does
  (`Iteration.VisitFiltered`);
* a gateway that was set is not read back when copying it failed: the old one is dropped without an
  exception (`Gateways.ReadBackIffCopied`);
* decomposing flags does not end for words with the top bit (`Flags.DecompositionEndsIff`);
* an event that arrives after the cache object is gone is sent through a dangling pointer
  (`Watch.StepSafeIff`, `Watch.EventAfterTheCacheDied`).

The header says that a synchronous call waits for an acknowledgement or the end of a dump
(include/nlcpp/netlink.h:72); the code also returns on an error message, whose status it keeps in
`callStatus` and reports to nobody (src/netlink.cpp:113-122). The model follows the code.

`dafny verify dfyconfig.toml` checks everything.

## Model

| member | source | states |
|---|---|---|
| Handles.Handle.Construct | src/route.cpp:18-23 | a default constructor owns a new object with one reference, or throws and leaves nothing behind; the same for links, routes and messages |
| Handles.Handle.Take | src/netlink.cpp:244-247 | taking ownership stores the pointer and changes no count |
| Handles.Handle.Share | src/route.cpp:35-40 | sharing adds one reference; the route objects and `Address` accept null, `Cache` and `Message` (src/message.cpp:20-24) do not test for it |
| Handles.Handle.CreateCopy | src/netlink.cpp:129-134 | copying from a pointer owns a fresh equal object, or throws with nothing leaked |
| Handles.Handle.CopyConstruct | src/netlink.cpp:158-163 | an `Address` clones, a `Cache` (lines 255-259) shares |
| Handles.Handle.CopyAssign | src/netlink.cpp:165-172 | self-assignment does nothing; otherwise the old reference is dropped before the source is copied, and an `Address` whose clone fails is left null without an exception |
| Handles.Handle.Move | src/netlink.cpp:174-178 | the reference changes hands and the source is null |
| Handles.Handle.MoveAssign | src/route.cpp:48-56 | self-move does nothing; otherwise the old reference is dropped, the source's is taken over and the source is null |
| Handles.Handle.Destroy | src/route.cpp:58-61 | one reference is dropped |
| HandlesProofs.StepSafeIff | src/netlink.cpp:229-290 | from a state where every count is the number of owners, an operation leads to such a state if and only if it is not one of the listed misuses; aliased sides, self-assignment, moved-from targets and failed clones are not among them |
| HandlesProofs.RunIsSafe | src/route.cpp:25-61 | after any legal sequence of operations on any number of handles no freed object was touched, each count equals handles plus outside references, an object lives exactly while that is positive, and no handle dangles |
| HandlesProofs.FreedExactlyOnce | src/route.cpp:323-336 | in one step a live object dies exactly when its last owner goes, and a dead one stays dead |
| HandlesProofs.NeverAliveAgain | src/route.cpp:323-336 | over any legal run a pointer whose object is gone is never alive again and has no owner, so nothing is freed twice |
| HandlesProofs.NothingLeaks | src/message.cpp:20-45 | when all handles are destroyed and nothing outside holds a reference, nothing is left allocated |
| HandlesProofs.CopyOfMovedFromFaults | src/netlink.cpp:255-275 | copying a `Cache` or `Address` that was moved from goes through null |
| HandlesProofs.CopiedCacheIsShared | src/netlink.cpp:255-259 | a copied `Cache` is the same object with one reference more, and no object comes or goes |
| HandlesProofs.AssignedCacheIsShared | src/netlink.cpp:261-269 | an assigned `Cache` is the source's object with one reference more; the target's old object has one less, and dies if that was its last |
| HandlesProofs.CopiedAddressIsNew | src/netlink.cpp:158-163 | a copied `Address` is an object that was not alive, equal to the source and with one reference; the source's count stays; without memory nothing changes |
| HandlesProofs.AssignedAddressIsNew | src/netlink.cpp:165-172 | the same for assignment, where the target is null without memory, and its old object has one reference less |
| HandlesProofs.SharedNull | src/netlink.cpp:249-253 | sharing null is a fault for `Cache` and `Message` (src/message.cpp:20-24), and gives a null handle otherwise |
| Collected.CountingIsCollecting | src/netlink.cpp:229-290 | every operation that is not a misuse does what the same assignment of plain pointers does when afterwards all that nothing refers to is collected: same handles, same pointers, same objects alive, same values |
| Collected.RunIsCollected | src/route.cpp:18-61 | and so does every legal run |
| Programs.Program.ExecuteAll | src/netlink.cpp:229-290 | running any operations on handle objects changes the heap and the handles as the state machine says |
| NextHops.NextHop.CopyAssign | src/route.cpp:445-455 | the old hop is freed, then the source is cloned; a failed clone throws and leaves the handle null |
| NextHops.NextHop.MoveAssign | src/route.cpp:463-472 | the old hop is freed and the source's taken over |
| NextHops.NextHop.Take | src/route.cpp:517-522 | the caller gets the pointer and the handle is empty |
| NextHops.Route.AddMove | src/route.cpp:631-635 | the hop itself becomes the last of the route and the handle is empty |
| NextHops.Route.AddCopy | src/route.cpp:626-629 | a copy becomes the last of the route and the handle keeps its hop; a failed copy throws before the route changes |
| NextHops.Route.Nexthops | src/route.cpp:637-648 | fresh handles on copies of all hops in order, or an exception after which no copy is left |
| NextHops.CopiesAreEqualAndFresh | src/route.cpp:642-645 | the copies are new objects equal to their originals in order, and nothing else changes |
| NextHops.CopiesThenFreed | src/route.cpp:637-648 | destroying the copies leaves the live hops as before the listing |
| HopOwnership.StepSafeIff | src/route.cpp:414-478 | from a state where every live hop has exactly one owner, an operation leads to such a state if and only if it is not one of the listed misuses |
| HopOwnership.RunIsSafe | src/route.cpp:414-522 | after any legal sequence of operations nothing freed was touched, every live hop has exactly one owner, no owner dangles, and without owners no hop is left |
| HopOwnership.CopyOfMovedFromFaults | src/route.cpp:438-443 | copying a hop that was moved from, or adding it to a route, goes through null |
| HopOwnership.FailedAssignment | src/route.cpp:445-455 | a failed clone in copy assignment frees exactly the old hop, nulls exactly that handle, and touches nothing else |
| HopOwnership.RouteKeepsAddedHops | src/route.cpp:626-635 | over any run the hops of a route are those it had followed by the added ones in order, each with its value when added, whatever happens to handles and listed copies |
| HopOwnership.ListingEqualsRoute | src/route.cpp:637-648 | the i-th hop listed is a new object equal to the i-th of the route |
| HopOwnership.WrittenIsCopied | src/route.cpp:485-515 | a copy made after a setter has the value set |
| HopOwnership.WrittenIsAdded | src/route.cpp:485-515 | a hop added after a setter, by copy or by move, appends the value set |
| CollectedHops.OwningIsCollecting | src/route.cpp:414-522 | every operation that is not a misuse does what the same operation does on references that free nothing, when afterwards all that nothing refers to is collected |
| CollectedHops.RunIsCollected | src/route.cpp:414-522 | and so does every legal run |
| HopPrograms.Program.ExecuteAll | src/route.cpp:414-522 | running any legal operations on hop and route objects is the run of the state machine and keeps single ownership |
| AddressFields.RouteAddress.Set | src/route.cpp:144-149 | the caller's address is copied, the copy handed to libnl and destroyed; it fails exactly when the copy does, is refused exactly when the copy succeeds and libnl refuses, and is done otherwise; the four other fields have the same code |
| AddressFields.RouteAddress.SetOptional | src/route.cpp:151-156 | with an address as `Set`; without one the field is cleared, unless refused |
| AddressFields.RouteAddress.Get | src/route.cpp:137-142 | nothing for an unset field, otherwise a copy of what is stored or an exception |
| AddressFields.FieldsRefineRecord | src/route.cpp:137-240 | every operation of the program acts on the five fields as on five optional values: a successful set stores the source's value in its field, an accepted clear empties it, and nothing else changes any field |
| AddressFields.RunRefinesRecord | src/route.cpp:137-240 | over every run, from any good state, the fields are those of the record, failed and refused sets included |
| AddressFields.EveryRunReadsItsRecord | src/route.cpp:137-240 | at the end of every run from the start a get of any field reads the record, and all counts are right |
| AddressFields.FailedSetChangesNothing | src/route.cpp:144-149 | when the copy fails or libnl refuses, handles, fields, live objects and counts are as before, so the temporary's reference is released |
| AddressFields.ReadBack | src/route.cpp:137-149 | after a successful set and anything that does not succeed in changing that field, a get returns a new address equal to the one set |
| AddressFields.WrittenIsStored | src/netlink.cpp:226-230 | after writing through a handle, copies of every handle on the object and a field set from it have the value written |
| AddressFields.SetIsStep | src/route.cpp:144-149 | the setter of the class and the step of the state machine have the same effect on the heap and the fields, and each outcome its own condition |
| Gateways.NextHop.SetGateway | src/route.cpp:509-515 | with memory the hop holds an equal address of its own with one reference; without, or when none is given, none; it faults exactly on an address that was moved from |
| Gateways.NextHop.Gateway | src/route.cpp:502-507 | nothing when unset, otherwise a copy or an exception |
| Gateways.ReadBackIffCopied | src/route.cpp:502-515 | a gateway set is read back if and only if it could be copied; otherwise the setter does what it does without an address |
| Gateways.GatewayIsAField | src/route.cpp:509-515 | with memory a set has the effect of setting an address field, otherwise of clearing one |
| Iteration.Iterator.Plain | src/route.cpp:756-759 | an unfiltered iterator holds one reference on its object and owns an empty filter of its own; when that allocation throws, the object's reference is given back |
| Iteration.Iterator.Filtering | src/route.cpp:761-768 | a filtered iterator starts on the first match with one reference on it and one on the filter; the match test faults exactly on an empty cache or a filter that was moved from |
| Iteration.Iterator.Advance | src/route.cpp:797-801 | the loop finds the first matching object behind the current one, or null |
| Iteration.Iterator.Increment | src/route.cpp:794-804 | the iterator moves to that object, exchanging its one reference |
| Iteration.Iterator.PostIncrement | src/route.cpp:806-819 | the returned iterator stands where this one stood with the same filter; this one stands where `++it` would; both are valid; one reference more on the filter and on the new object |
| Iteration.Iterator.PostIncrementOver | src/route.cpp:806-819 | when the iterator returned by `it++` has died, this one and the heap are as after `++it` |
| Iteration.LoopWithPostIncrement | src/route.cpp:782-819 | a loop written with `*it++` visits the same objects as one with `++it` and leaves the same heap |
| Iteration.Loop | src/route.cpp:782-804 | from its first object to the end the iterator visits what is left of the selection, holding one reference on the current object throughout and none after |
| Iteration.VisitFiltered | src/route.cpp:833-850 | iterating a filtered cache ends and visits exactly the matching objects, each once, in cache order; afterwards, or after an exception, only the filter's own reference is gone; it faults exactly on an empty cache or a filter that was moved from |
| Iteration.VisitAfterFilteredDied | include/nlcpp/route.h:424-436 | the same when the `Filtered` object dies right after `begin()` |
| Iteration.VisitAll | src/route.cpp:821-831 | iterating without a filter visits the whole cache and leaves every count as it was, also when an allocation throws |
| Iteration.SelectBoth | src/route.cpp:794-804 | a filter with the attributes of two compatible filters selects what both select; incompatible filters have nothing in common |
| Iteration.SelectedIff | src/route.cpp:801 | an object is selected if and only if it is in the cache and has every attribute of the filter |
| Iteration.SelectedInOrder | src/route.cpp:794-804 | the selected objects are those at the places of matching objects, one for each, in cache order |
| Iteration.SelectionVisitsMatches | src/route.cpp:833-850 | the pointers of a selection, which a filtered loop visits, are those at the places of matching objects, one for each, in cache order |
| Iteration.SelectEverything | src/route.cpp:756-759 | the empty filter selects the whole cache |
| Sync.Socket.ValidCallbackWrapper | src/netlink.cpp:105-111 | the callback gets the message, if there is one; after both wrapping layers the message's count is what it was |
| Sync.Socket.Dispatch | src/netlink.cpp:91-122 | finish and ack set the status to 0, an error to its code, or to -71 (-EPROTO) when positive, anything else leaves it; ack and error stop the datagram, finish does not |
| Sync.Socket.SendMessageSync | src/netlink.cpp:47-53 | the loop does what the specification of waiting says, for any stream of datagrams |
| Sync.Socket.SendMessageSyncWith | src/netlink.cpp:55-60 | the given callback gets exactly the payloads delivered during the call, no other sink changes, and the previous callback is installed again on return |
| Sync.BatchStatus | src/netlink.cpp:91-122 | the status stays 1 until the first finish, ack or error, and is never positive from then on |
| Sync.BatchAnswers | src/netlink.cpp:91-122 | the status left behind is that of the last finish, ack or error looked at: 0, 0, or the error's code, -71 when positive; without any it is unchanged |
| Sync.BatchDelivers | src/netlink.cpp:105-122 | a datagram delivers exactly the valid messages before which there is no ack or error, each once, in order |
| Sync.WaitCharacterized | src/netlink.cpp:47-60 | a call returns if and only if the stream holds a finish, ack or error; it uses up the datagrams to the first one that does, with the status of the last one looked at there, and its callback gets exactly the valid messages before the stop of each datagram used up, in order |
| Sync.SendAndSee | src/netlink.cpp:47-60 | what the callback has seen grows by exactly those messages, `callStatus` is that status, and the previous callback is back |
| Sync.GetFamily | src/ctrl.cpp:36-49 | the parse of the last valid reply, in the sense of `Family.IsParsed`, or nothing without one |
| Sync.GetFamilies | src/ctrl.cpp:51-63 | the parses of all valid replies, one each, in order |
| Family.ParseGenericFamily | src/ctrl.cpp:65-95 | name and id are those of the last attributes of their types and unchanged without one; the groups of the last list of groups follow those already there |
| Family.UpdatedIsParsed | src/ctrl.cpp:65-95 | the same of the function the queries use |
| Family.GroupsAreCompleteEntries | src/ctrl.cpp:80-94 | the groups come, in order, from exactly the nested entries with both a name and an id, each with the last name and the last id of its entry |
| Family.LookupFindsLast | src/ctrl.cpp:67-75 | what is found is the last attribute of its type, and nothing exactly when there is none |
| Watch.RouteCacheManager.AddressCache | src/route.cpp:722-737 | on success the manager has the address of the new list and the handle owns it; otherwise the list is deleted |
| Watch.RouteCacheManager.OnEvent | src/route.cpp:726-733 | the log grows by exactly one delivery for each on the list, and the i-th is to the i-th |
| Watch.RouteAddressCache.MoveAssign | include/nlcpp/route.h:448-463 | the target's list is deleted and the source's taken over at the same address |
| Watch.StepSafeIff | src/route.cpp:722-737 | memory is misused exactly by watching through a moved-from cache and by an event after the owner of the list is gone |
| Watch.EveryEventIsDelivered | src/route.cpp:855-858 | over every interleaving of subscriptions, moves and events there is exactly one delivery for each event and each earlier subscription, ordered by event and then by subscription |
| Watch.EventAfterTheCacheDied | src/route.cpp:726-736 | an event after the cache was destroyed reads freed memory |
| WatchPrograms.Program.ExecuteAll | src/route.cpp:722-737 | on real handles and a real manager, any legal interleaving makes exactly these deliveries and reads no freed list |
| PollTables.Tool.AddressWatch | src/test-tool.cpp:221-245 | the three tables grow together, and each row's cache owns the list its manager calls through |
| PollTables.Tool.Dispatch | src/test-tool.cpp:287-290 | each row whose descriptor is ready hears each of its events once, in order, rows in order, and no other row hears anything |
| Flags.Compose | src/utils.inl:9-15 | the word is the union of the list |
| Flags.Decompose | src/utils.inl:25-33 | the list holds exactly the bits of the word, strictly increasing |
| Flags.DecompositionEndsIff | src/utils.inl:29 | the loop ends if and only if the word is below 2^31 |
| Flags.ComposeDecomposed | src/utils.inl:9-33 | composing the decomposed list gives the word back |
| Flags.CanonicalIsUnique | src/utils.inl:25-33 | a word has only one such list |
| Flags.OrAllHas | include/nlcpp/utils.h:30-33 | a flag is in the union if and only if it is in some member |
| Flags.UnionOfSameWords | src/utils.inl:9-15 | the union does not depend on order or repetition |
| Flags.UnionOfGroups | include/nlcpp/utils.h:30-33 | the union does not depend on grouping |
| Flags.Normalize | src/utils.inl:9-33 | decomposing the union of a list gives the bits of its members, sorted and without repetition, and composing those gives the union |
| Tokenizer.Tokenize | src/test-tool.cpp:296-313 | without words there is no command and no argument; otherwise the command is the first word and the arguments are the others in order |
| Tokenizer.TextIsTheStart | src/test-tool.cpp:299-310 | the text of a line is what stands before the first NUL |
| Tokenizer.WordsAreTheRuns | src/test-tool.cpp:299-313 | a list of words is the result if and only if the text is those words, non-empty and without white space, with white space between them |
| Tokenizer.TypedWordsComeBack | src/test-tool.cpp:296-313 | words joined by spaces are read back |
| LinkArgs.ParseLinkArgs | src/test-tool.cpp:52-69 | the loop sets the link's attributes, or ends with the argument or number it stumbles on, as the specification says |
| LinkArgs.AcceptedIff | src/test-tool.cpp:54-68 | an argument list is accepted if and only if it spells a list of settings |
| LinkArgs.OutcomeIs | src/test-tool.cpp:52-69 | for every argument list: a prefix spells settings, which are set, and the outcome is the end of the list, the first argument that is no keyword or has no value, or the value of `ifindex` that is not an `int` |
| LinkArgs.GetsToOnce | src/test-tool.cpp:52-69 | whatever prefix and outcome fit this description are what parsing does, so there is one outcome |
| LinkArgs.ParseSaid | src/test-tool.cpp:54-63 | such a list sets what it spells, values that are keywords included |
| LinkArgs.ParseInTwo | src/test-tool.cpp:52-69 | a complete list followed by another is read as the one and then the other |
| LinkArgs.LastWins | src/test-tool.cpp:54-63 | each attribute ends with its last setting, or its old value without one |
| LinkArgs.StoiOfDecimal | src/test-tool.cpp:59 | every 32-bit number written in decimal is read back |
| LinkArgs.NumeralIsRead | src/test-tool.cpp:59 | white space, a sign or none, digits, and anything else behind is read as that number, or is out of range |
| LinkArgs.NotANumberIff | src/test-tool.cpp:59 | a text is not a number exactly when it is not of that form |
| LinkArgs.TypedSpecificationIsRead | src/test-tool.cpp:296-313 | a command with any link specification, typed, tokenized and parsed, gives each attribute its last setting |
| LinkArgs.ReadLinkCommand | src/test-tool.cpp:296-313 | the same of the tokenizer and the parser run one after the other on a real link object |

## Left out

- Libnl.GetRef: counts are unbounded; the width of libnl's counters is not modelled.
- Handles.Handle.Destroy: what libnl lets go of when it frees an object, such as a cache its objects, are outside references in the model, dropped by separate steps.
- Handles.Handle.Take: one class stands for six C++ classes, as they differ only where `Kind` says; values stand for the contents of objects.
- NextHops.Route.AddMove: adding to a moved-from `Route` is not modelled, since the hop list belongs to the route object; the counting of route objects is in `Handles`.
- NextHops.Route.Nexthops: the exception of a failed clone is assumed to pass through libnl's C loop.
- AddressFields.RouteAddress.Get: a moved-from `RouteAddress` is not modelled; nor why libnl refuses an address, or its side effect on the prefix length.
- Iteration.Iterator.PostIncrement: an iterator at the end is excluded; the cache does not change during an iteration, and its objects outlive it.
- Iteration.VisitFiltered: with a filter that was moved from, what is visited after the fault is not described.
- Gateways.NextHop.SetGateway: the copy a caller makes when passing its address by value is a `Handles` copy; the other values of a hop are one value in `HopOwnership`.
- Flags.Decompose: excludes the words for which the loop does not end, exactly those by `DecompositionEndsIff`.
- Sync.Socket.SendMessageSync: a stream that runs out stands for waiting forever; the result of sending, failures of `nl_recvmsgs`, callbacks that throw, send again on the same socket or keep their message are not modelled.
- Sync.Socket.ValidCallbackWrapper: the lambdas are named by `Callback` and `Action`, and what they capture by `Sink`.
- Family.ParseGenericFamily: an attribute is given by its readings as string, number and nested list, not by its bytes.
- Watch.RouteCacheManager.AddressCache: one cache for a manager; the reference the callback holds on the changed object is a `Handles.Handle.Share` and `Destroy` and not repeated.
- PollTables.Tool.Dispatch: `poll`, the standard input and exceptions of `dataReady` are not modelled.
- LinkArgs.ParseLinkArgs: the length limit of an interface name inside libnl is not modelled; `exit(1)` is an outcome.
- `parseAddressArgs` and `addressList`: a keyword loop like `parseLinkArgs` with a default arm that takes any other argument as an address, a list split at commas, and look-ups of addresses and interfaces in libnl.
- `GenericFlags` as strings, and the bitwise operators: libnl's names, and one machine instruction each.
- `Socket` and `CacheManager` construction and destruction, `receiveMessages`, `onValidMessage`, group membership: calls into libnl.
- Plain accessors, `RouteSocket`, `Exception::throwCode`, the `put` family and nl80211: one branch each.
- `getByName`: its ownership is `Handles.Handle.Take`.
