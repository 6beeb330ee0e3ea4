# A verified model of a Diameter stack

A Dafny model of the Go Diameter stack (RFC 6733) and proofs about the parts of
it where the code and the thing it stands for are furthest apart. Check it with
`dafny verify dfyconfig.toml`.

**Codec.** `Codec` states the TLV decoder and serializer (headers, padding,
vendor ids, depth limit, raw fallbacks, the Failed-AVP exemption) as functions;
`Buffers` holds the loops that advance an offset or fill a byte buffer in place
and ties them to those functions. `Lossless` proves that whatever framing the
decoder accepts tiles the body and serializes back to the same octets but for
zeroed padding. `RoundTrip` and `Messages` prove decode after serialize, and give
the exact trees for which it is the identity. `Datatypes` holds the leaves.

**Dictionary.** `Inheritance` is the depth-first cycle check, `Ancestry` the
breadth-first ancestor list, `DictionaryMerge` the flattening into hash indexes in
any map order, `DictionaryRules` the rule and parent comparisons and
`DictionaryBuild` the whole snapshot. `DictionaryLookup` proves that the constant
number of probes answers "search the application, then its ancestors breadth
first, then base".

**Validator.** `Grammar` states RFC 6733 sections 3.2 and 4.4 declaratively;
`Validator` is the one-pass loop and the proof that it decides that grammar and
that the result code it gives names a fault that is there.

**Requests.** `Failover` makes every region under the manager's lock one step of a
machine; `FailoverSafety` proves what all interleavings keep and `RetryBound` that
retrying ends; `Manager` is the object with its loops, proved against the steps. `Tracker`, `Rollback` and
`Publication` do the same for one connection's answer ownership, `Fence` for the
write gate and connection generations.

**Peers.** `PeerState` is the section 5.6 table and the identity order, `Peers` two
actors and the connections between them, `PeerActor` the actor as an object,
`Agreement` the proof that two open peers agree on the connection. The proof
covers runs in which a late disconnect of an abandoned leg takes an actor from
Closing to Closed while its other leg is still open.

**Transport and discovery.** `Streams` is the heap of stream buffers with its
index, `Demux` the single receiver and the restart fence. `Srv` is the weighted
SRV order as a function of the draws. `Lookups` makes a DNS lookup a chain of
questions and the replies to them, and `Routes` strings lookups together from a
realm to a peer's addresses; `Discovery` is the budgeted search, every candidate of
which comes with its route.

Sockets, clocks, random numbers, DNS answers and the decisions of the protocol
core are parameters or steps that may happen at any time.

## Model

| member | source | states |
|---|---|---|
| Octets.GetPut | diam/header.go:96-104 | a number survives its k-octet encoding exactly when it fits in k octets |
| Octets.PutGet | diam/header.go:49-86 | re-encoding the number read from k octets gives the octets back |
| Datatypes.DecodeThenSerialize | diam/avp.go:197-206 | a decoded leaf serializes to the octets it was read from whenever its length matches the payload |
| Datatypes.SerializeThenDecode | diam/datatype/decoder.go:80-90 | every leaf value in its type's range decodes from its own serialization |
| Datatypes.AddressRoundTrip | diam/datatype/address.go:107-143 | an Address payload is accepted only with a valid family and size and then serializes back unchanged |
| Datatypes.TimeRoundTrip | diam/datatype/time.go:24-42 | every four-octet Time decodes, in either era, and serializes back |
| Codec.Wire | diam/avp.go:277-290 | an AVP's serialization has exactly the length Len announces, members and padding included |
| Codec.WireAll | diam/group.go:119-128 | a group's serialization has the sum of its members' lengths |
| Codec.Frame | diam/avp.go:122-155 | a framed AVP carries fewer octets than its input, so decoding its payload terminates |
| Lossless.FrameOctets | diam/avp.go:122-155 | the framed header and payload are exactly the first octets of the input |
| Lossless.InterpretKeeps | diam/avp.go:156-209 | decoding, falling back or stopping at the depth limit keeps the frame and every payload octet but padding |
| Lossless.DecodedStands | diam/avp.go:122-209 | every AVP the decoder returns, faulty or not, re-serializes to the octets it came from with its padding zeroed |
| Lossless.GroupTiles | diam/message.go:297-343 | when framing is accepted the AVPs' lengths sum to the body's, and re-serializing gives the body back but for zeroed padding |
| RoundTrip.FrameWire | diam/avp.go:226-274 | the header written for an AVP frames to that AVP with its payload, whatever follows it |
| RoundTrip.Reads | diam/avp.go:122-209 | a conforming AVP decodes from its serialization to itself without a fault |
| RoundTrip.ReadsAll | diam/group.go:48-90 | conforming AVPs decode from their joint serialization to themselves |
| RoundTrip.DecodedConforms | diam/avp.go:122-209 | whatever decodes without a fault conforms |
| RoundTrip.RoundTrips | diam/group.go:48-128 | decode after serialize is the identity exactly on conforming trees: consistent V bit, dictionary leaves, depth and 24-bit length |
| RoundTrip.Canonical | diam/group.go:48-90 | a body that decodes without a fault has a canonical form, zero-padded, that decodes to the same tree |
| RoundTrip.ExemptFaults | diam/avp.go:122-209 | inside Failed-AVP the only member fault still reported is nesting beyond the limit |
| Messages.HeaderRoundTrip | diam/header.go:49-104 | a header with an aligned length reads back exactly when the version is 1 and the command fits 24 bits |
| Messages.MessageRoundTrip | diam/message.go:594-617 | a serializable message reads back, header and AVPs, exactly for version 1, a 24-bit command that has a grammar, and conforming AVPs |
| Messages.ReadLosesNothing | diam/message.go:193-288 | any message read from a stream serializes again, to the header's own octets and a body that fills the announced length and differs from the one read in zeroed padding only |
| Messages.Aligned | diam/avp.go:295-297 | serialized lengths are multiples of four |
| Messages.UnknownKeepsOffenders | diam/message.go:131-155 | the unknown-mandatory hierarchy holds exactly the offending AVPs, in order, each under the same groups, and nothing else |
| Messages.EvidenceBound | diam/message_error.go:133-166 | the evidence of a decoding fault is never longer than the AVP it stands for, so an error answer cannot grow with nesting |
| Messages.GroupEvidenceBound | diam/message_error.go:56-64 | the evidence of a group's first fault, wrapped in its ancestors, is no longer than the group's payload |
| Buffers.SerializeTo | diam/avp.go:226-263 | writes the AVP's serialization at its place, changes nothing outside it, and succeeds exactly for serializable trees |
| Buffers.SerializeAll | diam/group.go:94-116 | the same for a list of members, one after the other |
| Buffers.SerializeMessage | diam/message.go:568-617 | the message's octets, or none exactly when the length or a member does not fit |
| Buffers.DecodeGroupedFromBytes | diam/group.go:48-90 | the offset loop computes the recursive decoding, first fault and loss of framing included |
| Buffers.DecodeAVPs | diam/message.go:297-343 | the body loop computes the same and collects the unknown-mandatory hierarchy |
| Buffers.FindAVPs | diam/message.go:648-668 | every matching AVP of the tree in depth-first order, or just the first of them |
| Inheritance.Visit | diam/dict/snapshot.go:367-389 | the colouring search terminates on any graph; failure means a cycle, success a finished parents-first order |
| Inheritance.ValidateParents | diam/dict/snapshot.go:351-391 | succeeds exactly when base has no parent, no parent is Relay, every non-base parent is declared and the graph is acyclic |
| Ancestry.AncestorApps | diam/dict/snapshot.go:395-414 | the queue loop computes the breadth-first list, base last |
| Ancestry.AncestorsComplete | diam/dict/snapshot.go:395-414 | the list holds every reachable non-base ancestor exactly once and ends in base |
| Ancestry.NearestFirst | diam/dict/snapshot.go:395-414 | no ancestor is listed before one that is fewer inheritance steps away |
| DictionaryMerge.InheritCodes | diam/dict/snapshot.go:285-290 | in any map order, one ancestor's codes are added where nothing nearer defines them |
| DictionaryMerge.InheritNames | diam/dict/snapshot.go:291-302 | in any map order, one ancestor's names are added unless nearer ones exist or the code was renamed |
| DictionaryMerge.InheritAll | diam/dict/snapshot.go:275-304 | after all ancestors an application's indexes answer its whole chain, and no other application's changed |
| DictionaryMerge.MergeInheritedAVPs | diam/dict/snapshot.go:244-306 | whatever the iteration order, every application's indexes answer its search along the chain |
| Dictionary.NameIsCode | diam/dict/snapshot.go:285-302 | the first definition of a name that is not renamed nearer is the one its code resolves to |
| DictionaryBuild.LoadKeepsLast | diam/dict/snapshot.go:90-114 | of several definitions of a code in one application the last one loaded is indexed |
| DictionaryBuild.IndexNames | diam/dict/snapshot.go:121-127 | names can be indexed exactly when no application uses one name for two codes, and then names and codes identify the same definitions |
| DictionaryBuild.RegisterConsistent | diam/dict/snapshot.go:129-139 | registrations keep names and codes consistent |
| DictionaryBuild.OwnDetermined | diam/dict/snapshot.go:121-139 | an application's own definitions do not depend on the order names were indexed in |
| DictionaryBuild.MergeDetermined | diam/dict/snapshot.go:244-306 | any two merges of the same definitions give the same indexes: no dependence on map order |
| DictionaryBuild.AcceptedIsPublished | diam/dict/snapshot.go:83-144 | every snapshot that is accepted meets the conditions of the lookup theorems |
| DictionaryBuild.Snapshot.IndexFiles | diam/dict/snapshot.go:90-114 | loads all files in order and fails exactly when a command is defined twice |
| DictionaryBuild.Snapshot.IndexRegistrations | diam/dict/snapshot.go:129-139 | applies the registrations in order and fails exactly when one conflicts |
| DictionaryBuild.Snapshot.Build | diam/dict/snapshot.go:83-144 | succeeds with an accepted snapshot, and fails only if no snapshot of these files and registrations is acceptable |
| DictionaryLookup.LookupIsSearch | diam/dict/util.go:109-117 | for every application, code and vendor the two probes return the first own definition along application, ancestors, base |
| DictionaryLookup.FindByNameIsSearch | diam/dict/util.go:133-142 | a name lookup returns the first definition of that name that no nearer application renames |
| DictionaryLookup.NamesAgreeWithCodes | diam/dict/util.go:133-142 | the definition found by name is the very one its code resolves to, with that name, also through base |
| DictionaryLookup.RenameHidesName | diam/dict/util.go:133-142 | where a code and vendor resolve under another name, no definition of theirs is found by the old one |
| DictionaryRules.ResolveRules | diam/dict/snapshot.go:192-228 | decides that every named rule resolves and no prohibited flag is required |
| DictionaryRules.ValidateRules | diam/dict/snapshot.go:148-180 | decides rule resolution for every application in scope, base commands included |
| DictionaryRules.ValidateInheritedNames | diam/dict/snapshot.go:312-346 | decides that direct parents agree on every name the child does not define itself |
| DictionaryRules.UndeclaredSeesBase | diam/dict/util.go:133-142 | an application nobody declared or registered sees exactly base's names |
| DictionaryRules.GroupedRulesClosed | diam/dict/snapshot.go:148-228 | for every application id, declared or not, the rules of every definition found there resolve there |
| DictionaryRules.CommandRulesClosed | diam/dict/util.go:150-158 | for every application id the rules of every command found there resolve there |
| Validator.Advance | diam/validation.go:302-319 | the pointer reaches the AVP's rule, or a fixed rule before it still lacks AVPs, or it lies behind |
| Validator.CheckFixed | diam/validation.go:284-322 | accepts a fixed AVP within its maximum, in the prefix and in order; otherwise the whole list breaks a maximum or the order |
| Validator.CheckItem | diam/validation.go:243-333 | the loop's counters and pointer describe the AVPs seen so far, or the list is at fault with the code given |
| Validator.CountFixed | diam/validation.go:228-239 | decides that every fixed AVP occurs often enough, wherever it stands |
| Validator.CheckContents | diam/validation.go:336-361 | decides Failed-AVP evidence, a group's own grammar and the Vendor-Specific-Application-Id choice, and the code it gives names a fault in there |
| Validator.SkippedMisplaced | diam/validation.go:302-316 | skipping a fixed rule whose minimum is unmet can only happen in a list that is out of order |
| Validator.ValidateAVPs | diam/validation.go:208-378 | nil exactly for the lists the grammar allows at every depth, and otherwise a result code whose fault is really there |
| Grammar.BlamesInvalid | diam/validation.go:208-378 | a list that the grammar allows can be blamed for no result code, at any depth |
| FailoverSafety.Keeps | diam/peer/send.go:277-580 | every step of every goroutine keeps the invariant on requests, reservations, ids and limits |
| FailoverSafety.ExactlyOnce | diam/peer/send.go:364-451 | in every run a request has at most one result, a matching answer if any; unfinished, reservations and entries mirror each other; done, it holds none |
| FailoverSafety.Discipline | diam/peer/send.go:277-330 | in every run the reservations of a request go to different peers, carry its message, set T on all but the first and change the Hop-by-Hop id each time |
| FailoverSafety.AttemptsBounded | diam/peer/send.go:531-580 | with finitely many peers a request is reserved at most once for each |
| RetryBound.OffersBounded | diam/peer/send.go:531-580 | from any reachable state and whatever the other goroutines do in between, a request makes no more retry offers than its unattempted and unrefused peers allow |
| RetryBound.RetryTerminates | diam/peer/send.go:531-580 | in every run over n peers a request is refused by or reserved on retry candidates at most n(n+1)/2 times in all |
| FailoverSafety.NotForgotten | diam/peer/send.go:513-580 | an unfinished request that nobody is failing over still holds a reservation on its current session |
| FailoverSafety.OneOwner | diam/peer/send.go:513-580 | the failovering flag of an unfinished request is set exactly while one goroutine owns the failover, and that owner skips every attempted peer |
| FailoverSafety.UniqueIds | diam/peer/send.go:287-341 | on a live session an eligible id is no pending request's, control exchange's or selected writer's, these never share one, and a peer's reservations stay within the limit |
| FailoverSafety.SelectedOnce | diam/peer/session.go:335-360 | a request taken from the queue is not already being written on that session |
| FailoverSafety.RunEvolves | diam/peer/send.go:189-275 | over any run a request keeps its End-to-End id and payload, and its reservations, attempted peers and result are only added to |
| Manager.SomeEligible | diam/peer/send.go:332-341 | unless every id is taken, an eligible one exists |
| Manager.Manager.NextHopID | diam/peer/send.go:332-341 | the scan ends, across uint32 wrap, at the first eligible id after the last one used |
| Manager.Manager.PeerPending | diam/peer/send.go:287-292 | counts the reservations of a peer over all its sessions |
| Manager.Manager.Reserve | diam/peer/send.go:277-316 | refuses a finished request or an unusable session, then a full peer, and otherwise performs the reservation step |
| Manager.Manager.Complete | diam/peer/send.go:364-376 | removes every reservation of the request and records one result, once |
| Manager.Manager.CloseAdmission | diam/peer/send.go:456-490 | performs the Closing step and returns exactly the requests it claimed |
| Manager.Manager.FailoverSession | diam/peer/send.go:513-529 | performs the claim and returns exactly the requests it claimed |
| Manager.Manager.ClaimRetired | diam/peer/renewal.go:232-249 | performs the retirement step and returns exactly the requests it claimed |
| Tracker.WellKept | diam/pending_requests.go:64-250 | every step keeps rollback links pointing to older tickets of the same key and owners uncancelled |
| Tracker.Sound | diam/pending_requests.go:162-214 | in every run rollback links are acyclic and no cancelled ticket owns a key |
| Tracker.Frozen | diam/pending_requests.go:217-225 | after Closing, over any run, the set of owned keys only shrinks |
| Rollback.FailedOwner | diam/pending_requests.go:162-214 | an owner that has failed appears exactly when a failed ticket that is still reserved is written again |
| Rollback.NeverFailed | diam/pending_requests.go:162-214 | on a connection tracked by BeginWrite alone no owned key points at a failed ticket, in any run |
| Rollback.FailedOwnerExists | diam/pending_requests.go:162-214 | with a reservation it can: a run in which a ticket fails, is written again and owns its key |
| Rollback.ConsumedStaysConsumed | diam/pending_requests.go:162-250 | in any run of BeginWrite, ownership consumed by an answer is never given back by a write failure |
| Publication.PendingRequests.BeginWrite | diam/pending_requests.go:162-192 | the ticket that takes the key, linked to the one it displaced; nothing when Closing or cancelled |
| Publication.PendingRequests.EndWrite | diam/pending_requests.go:192-213 | success drops the links; failure gives the key to the nearest ticket displaced that neither failed nor was cancelled |
| Publication.FirstLive | diam/pending_requests.go:201-206 | the walk back along displaced tickets ends, at the first that neither failed nor was cancelled |
| Publication.PendingRequests.PrepareWrite | diam/pending_requests.go:64-73 | a fresh reservation that owns nothing |
| Publication.PendingRequests.CancelWrite | diam/pending_requests.go:77-91 | the ticket is cancelled and gives up only its own key |
| Publication.PendingRequests.ReleaseWrite | diam/pending_requests.go:95-105 | the reservation goes if it is still this ticket's; ownership stays |
| Publication.PendingRequests.CloseAdmission | diam/pending_requests.go:217-225 | latches Closing and changes nothing else |
| Publication.PendingRequests.MatchAnswer | diam/pending_requests.go:236-250 | true exactly when a request owns the key, which consuming removes |
| Publication.WriteGate.TryAcquire | diam/write_gate.go:16-34 | a gated write takes the gate and owns its key in one step, exactly when the gate is free, the ticket uncancelled and Closing not latched |
| Publication.WriteGate.Unlock | diam/write_gate.go:72-80 | frees the gate and closes the channel its waiters hold |
| Fence.Keeps | diam/accepted_generation.go:134-310 | every step of writers, renewals and close keeps the gate exclusive, waiters reachable and cleared writers current |
| Fence.GenerationFence | diam/server.go:629-674 | in every run a transport write happens under the gate, alone, while its generation is current, and a waiter is woken or the holder will wake it |
| Fence.NoOldWrites | diam/accepted_generation.go:192-310 | once a generation is installed nothing is written for an older one in any continuation |
| Fence.UnlockWakes | diam/write_gate.go:72-80 | when the holder unlocks, every waiter can go on: no wakeup is missed |
| PeerState.Identity | diam/peer/manager.go:266-274 | the loop folds exactly the ASCII letters |
| PeerState.OneWinner | diam/peer/manager.go:275-277 | two identities never both win the election, and one of them wins unless they differ in case only |
| PeerActor.FollowsTable | diam/peer/transition.go:51-98 | every step takes the actor exactly where the row of its own event does, through the election where that row enters Wait-Returns; with no row it stays, and only a failure or a missing responder leg closes it |
| PeerActor.Peer.Fail | diam/peer/actor.go:229-251 | both legs closed and forgotten |
| PeerActor.Peer.Accept | diam/peer/actor.go:707-722 | the responder leg becomes active and its CEA is sent, or the leg is closed |
| PeerActor.Peer.Elect | diam/peer/actor.go:518-535 | equal identities fail, the winner closes I and accepts R, the loser waits |
| PeerActor.Peer.DialDone | diam/peer/actor.go:438-472 | the dialled connection becomes I, with an election if R is already there |
| PeerActor.Peer.ReceiveCER | diam/peer/actor.go:473-517 | R accepted, kept as a candidate, elected or rejected by state |
| PeerActor.Peer.OpenInitiator | diam/peer/actor.go:725-740 | I becomes active and a losing R is closed |
| PeerActor.Peer.ConnectionGone | diam/peer/actor.go:552-575 | the lost leg is forgotten and the table's disconnect row taken |
| Agreement.WinKeeps | diam/peer/actor.go:632-647 | the winner's I is closed before R is accepted, so no two legs are in use |
| Agreement.StepKeeps | diam/peer/actor.go:438-740 | every event at either peer keeps the order in which legs were dialled, accepted and opened |
| Agreement.TwoPeersAgree | diam/peer/actor.go:438-740 | in every run of two peers, whatever their identities, if both are open on connections neither has closed then it is the same connection |
| Agreement.ElectionDecides | diam/peer/actor.go:518-535 | of two peers that each compare identities for themselves one accepts and the other waits, unless the identities differ in case only, when both fail |
| Streams.RootLongest | diam/network_sctp.go:144-180 | the root of the heap is a longest buffer |
| Streams.Longest | diam/network_sctp.go:326-344 | the root is empty exactly when nothing is buffered on any stream |
| Streams.Streams.Fix | diam/network_sctp.go:144-180 | after one buffer changed, restores heap order with map, heap and positions consistent and no octet moved |
| Streams.Streams.Read | diam/network_sctp.go:326-344 | the first octets of the stream asked for, or of a longest buffer; none exactly when the reader finds nothing |
| Streams.Streams.Buffer | diam/network_sctp.go:463-474 | appends to the stream's buffer, creating it if needed, and changes no other |
| Demux.Keeps | diam/network_sctp.go:276-474 | every step conserves octets per stream and keeps the receiver's target dry while it is on the wire |
| Demux.HandsOver | diam/network_sctp.go:447-460 | when a received chunk is handed over nothing of its stream is buffered, so the branch that re-reads through the buffer is never taken |
| Demux.InOrder | diam/network_sctp.go:293-417 | in every interleaving of readers each stream's delivered octets are a prefix of those received, and the rest is still held |
| Demux.RestartFence | diam/network_sctp.go:256-287 | nothing is received or delivered past a pending restart until the reset |
| Srv.WeightShare | dnsdiam/discover.go:528-547 | of the total + 1 draws over some records exactly w choose a record of weight w, and one more if it stands first |
| Srv.ChoosesOne | dnsdiam/discover.go:539-547 | a draw chooses one record only |
| Srv.Choose | dnsdiam/discover.go:539-547 | the running-sum loop finds the record the draw chooses |
| Srv.SortedSorts | dnsdiam/discover.go:509 | the priority sort is an ascending rearrangement |
| Srv.OrderSRV | dnsdiam/discover.go:502-553 | the nested loops give the order that is a function of the records and the draws, or fail as it does |
| Srv.OrderSorts | dnsdiam/discover.go:502-553 | that order is a permutation of the records by ascending priority |
| Srv.FacingIsLowest | dnsdiam/discover.go:511-517 | what a draw is made over is exactly the records of the lowest priority not placed yet |
| Srv.OrderPlaces | dnsdiam/discover.go:518-549 | the p-th record is the one the p-th draw chooses among those it is made over, weightless ones first |
| Srv.EarlierDrawsOnly | dnsdiam/discover.go:518-549 | what a draw is made over depends on the earlier draws only |
| Srv.PlaceShare | dnsdiam/discover.go:528-547 | with the earlier draws fixed, exactly w of the total + 1 values of the next put a record of weight w into the next place, and one more if it stands first |
| Srv.OrderFails | dnsdiam/discover.go:536-538 | the order fails exactly when some draw is out of range for what it is made over |
| Lookups.Earlier | dnsdiam/discover.go:170-175 | the earlier of two times, where no time never wins |
| Lookups.LookupFirst | dnsdiam/discover.go:255-301 | a lookup expires exactly with the first of the aliases it met and the records it found, or with an empty answer's own expiry |
| Lookups.LeadsFrom | dnsdiam/discover.go:236-250 | the first question of a chain is for the name looked up |
| Routes.ExpiresFirst | dnsdiam/discover.go:80-107 | a candidate expires exactly with the first of all the records on its route, whole answers and aliases included, or with the realm's empty NAPTR answer if that is sooner |
| Routes.AddressesOnRecord | dnsdiam/discover.go:554-582 | a candidate's addresses are exactly those that the two address lookups of its host found |
| Discovery.Search.Query | dnsdiam/discover.go:207-235 | the next reply, capped at 1024 records, and the question on record; no question once the budget is used up |
| Discovery.Search.Sift | dnsdiam/discover.go:255-283 | the alias and the records the name owns; refused exactly for an unnamed owner, a second or unwanted alias, or one beside the records asked for |
| Discovery.Search.Turn | dnsdiam/discover.go:245-302 | one question takes the chain of aliases one permitted alias further, ends it with all the answer holds, or fails |
| Discovery.Search.Lookup | dnsdiam/discover.go:236-304 | terminates within maxDepth questions and the budget, with the chain of aliases from the name to the answer, everything that answer holds for the name reached, and its exact expiry |
| Discovery.Search.ResolveHost | dnsdiam/discover.go:554-591 | both families were looked up for the host; the addresses are all that they found, each once, and the expiry is the exact one |
| Discovery.Search.ResolveSRV | dnsdiam/discover.go:452-501 | each candidate is a permitted host of a server in the service's answer with its exact expiry, in priority order, and every such server was tried |
| Discovery.Search.Walk | dnsdiam/discover.go:359-445 | terminates within depth and budget on any records, cyclic ones too; every candidate has a loop-free route from the realm through usable NAPTR records, and no usable record is passed over |
| Discovery.Search.Follow | dnsdiam/discover.go:412-429 | a NAPTR record leads to its replacement's servers, its addresses or its own NAPTR records, by its flag |
| Discovery.Search.Discover | dnsdiam/discover.go:65-129 | within the query budget and candidate limit; every candidate has its route of questions really asked, beginning at the realm or its service name, for a transport asked for; every transport was searched |
| Discovery.InOrderPreferred | dnsdiam/discover.go:365-374 | NAPTR records are followed by order, then preference |

## Left out

- Validator.ValidateAVPs: stated for rule lists that resolve to distinct AVPs; with a repeated AVP the code's map keeps the last rule and its ordered list keeps both.
- Rollback.ConsumedStaysConsumed: not for runs that also admit a ticket through the native gate, which does not reset a ticket's link.
- Validator: only the verdict and its result code; the example AVP an error carries (missingAVPExample) and the outgoing flag walk (walkOutgoingFlags) are not modelled.
- Discovery: candidate name lists are not modelled; service-field parsing and name syntax other than its length limit are parameters; an error keeps its kind but not the failures joined to it.
- Demux: the Read adaptor that puts octets back for a concurrent reader is not a step; ReadMessage uses ReadAtLeast.
- Streams: what verifyStreamBuff does with a non-empty buffer, where it reads without fixing the heap again; HandsOver shows the branch is not reached.
- Manager: peer selection by realm, route and watchdog health is the choice of step, not modelled; the nested maps of pending requests are one map by session and id.
- Failover: the two steps of queueing a write and of handing its result to the caller are part of the reservation and of completion.
- Tracker: which octet strings are tracked request frames (publicationHeader) is decided before a step.
- Fence: dispatch draining, admission waits and retirement callbacks only make a renewal fail or go on.
- Peers: watchdog, leases, timers and the protocol core's own decisions appear as events that close a connection, fail an actor or disconnect it.
- Floating-point leaves are held as their bit patterns; IPv4 and IPv6 values have the size of their type.
- Nil AVP data, buffer pools and aliasing between a message and the buffer it was read from.
- Dictionary files are taken as the sequence of their applications; flag texts are taken as parsed, and attributes that only tell definitions apart are one number.
- The ordered dispatch queue, discovery leases, TLS, sockets, listeners, logging and reflection-based marshalling.
- Paths in avpsWithPath and the by-name variants of the message searches.
