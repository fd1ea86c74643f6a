# linuxptp: a verified model of its hard logic

linuxptp is an implementation of the Precision Time Protocol (IEEE 1588-2008). This project models six of
its connected cores in Dafny and proves what they are for. `dafny verify dfyconfig.toml` checks all of it.

- **Unicast service.** The granting side of unicast negotiation: a table of intervals, each with a list of
  client contracts, and a timer queue over the same intervals. `PriorityQueue` is the binary heap, whose
  entries are references to cells, so that a client can change a key behind its back as in C. `Contracts`
  is the table as a value and what grants and cancellations do to it, `Schedule` the deadlines and grants of
  one interval, `TimerRounds` the loop of the timer as turns over the table, and `UnicastService` the C
  functions in place: linked lists become sequences of cells, and every method keeps list and queue equal,
  the table sound and the timer armed for the earliest deadline.
- **Best master clock.** `DatasetComparison` has both comparison algorithms and the exact hypotheses under
  which they are orders. `Selection` is the scan for the best as a function; `ForeignMasters` and
  `StateDecision` are the records, their qualification, and the handler that runs both scans and decides
  for every port.
- **Matching Sync and Follow_Up.** `TransparentClock` has the lists of a transparent clock as values and
  over all runs, `Forwarding` the functions that work on shared messages, with corrections and reference
  counts, `Relay` the functions over all ports, and `TimeTransfer` what the corrections are for.
  `SyncMatcher` is the slave's state machine, proved against a definition that only looks at neighbours in
  the stream of accepted messages.
- **Messages and TLVs.** `ByteOrder` says what it means to convert fields of a buffer, `Tlv` which fields
  each TLV has, `WireStructs` derives these from the packed structures of the headers and `TlvImages` from
  the images of texts and addresses, `Codec` says what becomes of whole messages in both directions, and
  `MessageBuffer` does it in place.
- **Delay filters and time stamps.** `DelayFilters` proves the circular buffers of the moving average and
  the moving median against windows of the sample history, `TimestampProcessor` the delay and offset.
- **Negotiation client and servo.** `UnicastClient` is the requesting side, with the history of each record
  in a log; `PiServo` is the controller over the real numbers, with its inputs in a log.

Methods are proved against functions of the old state; the properties are then lemmas about these functions
over all inputs and all runs. Clock readings, received bytes, time stamps and the outcome of `realloc` are
parameters. Some things turn out not to hold of the code, and are stated with the exact condition:

- The timer of the unicast service need not terminate: `log_to_timespec` gives no increment for exponents of
  -30 and less. The loop ends if and only if each such interval that is due has no clients, or the port is a
  master and their grants come to an end (`TimerRounds.TerminatesIff`, `TimerRounds.WillEndIff`).
- `dscmp` is not an order when announcements of one grandmaster differ and the better one does not come the
  better way; for every such pair of data sets there is a third that breaks the order, and for no other pair
  (`DatasetComparison.OrderNeedsConcord`).
- `msg_current` does not mean younger than four intervals for senders faster than 2^-11 s or slower than
  2^30 s (`ForeignMasters.CurrentIsFourIntervals`), at the ages in `ForeignMasters.MisjudgedAges`.
- The scaled-nanoseconds conversions are not inverse to each other, and time stamps in the body are
  converted in one direction only (`Codec.RoundTrip`).
- The interval that `port_synchronize` is given depends on the order of arrival (`SyncMatcher.EitherOrder`).
- A renewal time of zero reads as none (`UnicastClient.RenewalIsLeast`), and the peer is asked once per
  master (`UnicastClient.Port.PeerIsAskedPerMaster`).
- The frequency is within its limits from the start only if it was configured so
  (`PiServo.BoundedOnceLocked`).

Two more results are about a function by itself, on inputs that its callers never give it. `addreq` compares
no addresses of transports other than UDP and IEEE 802.3, so that a contract there could not be cancelled
(`Contracts.GrantThenCancel`); but only numbered ports have a unicast service, and they have one of these
transports. `dscmp2` is not an order on a data set one step away that names its receiver as sender
(`DatasetComparison.OrderNeedsLocation`); but `port_ignore` drops the messages it could come from, and
`ForeignMasters.Port.CandidatesAreLocated` proves that the selection never sees one.

## Model

| member | source | states |
|---|---|---|
| PriorityQueue.PQueue.constructor | app/linuxptp-3.0/pqueue.c:66-82 | a queue for a comparison that is a total preorder starts empty, with the requested capacity |
| PriorityQueue.PQueue.Insert | app/linuxptp-3.0/pqueue.c:105-128 | keeps the heap, adds exactly the one element to the stored multiset, doubles the array exactly when it is full, and fails only when it cannot; then cells, capacity and array are those from before |
| PriorityQueue.PQueue.SiftUp | app/linuxptp-3.0/pqueue.c:118-127 | the sift-up loop restores the heap order that the new leaf may break |
| PriorityQueue.PQueue.Heapify | app/linuxptp-3.0/pqueue.c:41-62 | an order broken only between one place and its children is restored, and the multiset stays |
| PriorityQueue.PQueue.Extract | app/linuxptp-3.0/pqueue.c:90-103 | returns an element that goes before or with every other one, removes exactly it, and returns nothing exactly from the empty queue |
| PriorityQueue.PQueue.Peek | app/linuxptp-3.0/pqueue.c:135-138 | shows the element that extraction would return, and changes nothing |
| PriorityQueue.RootIsGreatest | app/linuxptp-3.0/pqueue.c:35-62 | in a heap no key goes before the one at the root, for every total preorder |
| PriorityQueue.SiftUpStep | app/linuxptp-3.0/pqueue.c:118-125 | one exchange with the parent moves the broken place up and breaks nothing else |
| PriorityQueue.SiftDownStep | app/linuxptp-3.0/pqueue.c:41-62 | one exchange with the selected child moves the broken place down and breaks nothing else |
| PriorityQueue.HeapWithLastAtRoot | app/linuxptp-3.0/pqueue.c:90-103 | putting the last element in the place of the root breaks the order at the root alone |
| PriorityQueue.Drain | app/linuxptp-3.0/pqueue.c:90-103 | extracting until the queue is empty yields a sorted permutation of what was in it |
| Contracts.PositivePeriods | app/linuxptp-3.0/unicast_service.c:111-127 | among the exponents whose shift C defines, exactly those from -29 on give an increment greater than zero |
| Contracts.PeriodDoubles | app/linuxptp-3.0/unicast_service.c:111-127 | the increment is one second for zero and twice as long for each exponent more |
| Contracts.PeriodIsPowerOfTwo | app/linuxptp-3.0/unicast_service.c:111-127 | the increment is two to the exponent in seconds, and below zero that in whole nanoseconds, rounded down |
| Contracts.TimespecCompare | app/linuxptp-3.0/unicast_service.c:135-150 | the sign tells which of two normalized times is earlier in nanoseconds |
| Contracts.StripHas | app/linuxptp-3.0/unicast_service.c:308-323 | stripping takes away exactly the one pair of address and message type |
| Contracts.StripTerms | app/linuxptp-3.0/unicast_service.c:308-323 | who still holds something after the stripping holds it at the same address until the same end |
| Contracts.StripRecords | app/linuxptp-3.0/unicast_service.c:308-323 | stripping leaves one record per address and no record with an empty mask |
| Contracts.ContractHas | app/linuxptp-3.0/unicast_service.c:326-339 | extending or making a record adds exactly the requested pair |
| Contracts.GrantedHas | app/linuxptp-3.0/unicast_service.c:292-358 | after a grant the requested pair is served at the requested period and nowhere else; every other pair is served where it was |
| Contracts.GrantEffect | app/linuxptp-3.0/unicast_service.c:292-358 | a grant keeps every invariant of the table (distinct periods, one record per address, no empty mask, one interval per address and type) and moves exactly one contract; all others stay at the same address until the same end, no interval changes its increment or deadline, and a new one has those of the requested period |
| Contracts.GrantLasts | app/linuxptp-3.0/unicast_service.c:197-216 | a later request never shortens the grant of an address in an interval: it ends at the later of the two times |
| Contracts.CancelEffect | app/linuxptp-3.0/unicast_service.c:455-470 | a cancellation takes away exactly the cancelled pair in every interval; who still holds anything holds it at the same address until the same end, every interval keeps its increment and deadline, and the invariants stay |
| Contracts.GrantThenCancel | app/linuxptp-3.0/unicast_service.c:264-471 | on every transport that addreq compares, which are those a port with a unicast service can have, no contract is left after a grant and its cancellation; on any other one it would stay |
| Schedule.AdvanceIsLeast | app/linuxptp-3.0/unicast_service.c:500-525 | adding the increment while a deadline is due reaches the least deadline of the original cadence after now |
| Schedule.KeptAreUnexpired | app/linuxptp-3.0/unicast_service.c:160-195 | exactly the records whose grant has not ended are kept |
| Schedule.SentToUnexpired | app/linuxptp-3.0/unicast_service.c:160-195 | Announce and Sync go to exactly the clients that hold them in a record whose grant has not ended |
| Schedule.AnnounceFirst | app/linuxptp-3.0/unicast_service.c:182-191 | a client that holds both is sent the Announce before the Sync |
| Schedule.UnexpiredHas | app/linuxptp-3.0/unicast_service.c:160-195 | expiry never makes a contract that was not there |
| Schedule.UnexpiredRecords | app/linuxptp-3.0/unicast_service.c:160-195 | expiry leaves one record per address and no record with an empty mask |
| TimerRounds.TerminatesIff | app/linuxptp-3.0/unicast_service.c:500-525 | the loop of the timer makes a bounded number of turns if and only if every interval that is due and has no increment loses its clients some time: on a master port by the end of their grants, on another port by having none from the start |
| TimerRounds.WillEndIff | app/linuxptp-3.0/unicast_service.c:473-531 | that condition as the caller sees it: an interval of 2^-30 s or less that is due has no clients, or the port is a master and the clock passes the end of each of their grants |
| TimerRounds.MasterEnds | app/linuxptp-3.0/unicast_service.c:160-195 | if time goes on, the loop ends on a master port for every table |
| TimerRounds.MeasureDrops | app/linuxptp-3.0/unicast_service.c:500-525 | each turn lowers the overdue increments of the table or takes one of the readings in which grants run out, and keeps what makes the loop end |
| TimerRounds.LogIsBounded | app/linuxptp-3.0/unicast_service.c:500-525 | no run makes more turns than the measure at its start |
| TimerRounds.StandsForever | app/linuxptp-3.0/unicast_service.c:500-525 | an interval that is due, has no increment and never loses its clients is due after every run of turns |
| TimerRounds.OwnWay | app/linuxptp-3.0/unicast_service.c:500-525 | whatever the others do, each interval of the table is after any run where its own turns take it, and is gone exactly when one of them left it without clients |
| TimerRounds.StateClients | app/linuxptp-3.0/unicast_service.c:160-195 | after any run an interval has the clients of the start less those whose grants ran out, and one that was retired has none whose grant goes on |
| TimerRounds.TurnsProgress | app/linuxptp-3.0/unicast_service.c:506-523 | the turns an interval has had and those it still needs add up to the overdue increments it started with |
| TimerRounds.CadenceKept | app/linuxptp-3.0/unicast_service.c:500-525 | an interval that survives is at the least deadline of its own cadence after now and has had one turn for each increment on the way, so the cadence never drifts; one without an increment has not been due |
| TimerRounds.ServedPerTurn | app/linuxptp-3.0/unicast_service.c:160-195 | a client is sent each message type it holds exactly as often as its interval has a turn before the end of its grant |
| TimerRounds.ServedPerIncrement | app/linuxptp-3.0/unicast_service.c:473-531 | a client whose grant outlasts the run is sent exactly one message of each type for each overdue increment of its interval |
| TimerRounds.AllServed | app/linuxptp-3.0/unicast_service.c:160-195 | on every transport, whoever is still entitled at the end by an interval that has had a turn was sent the message |
| TimerRounds.DueHasTurn | app/linuxptp-3.0/unicast_service.c:500-525 | an interval that was due has had a turn when the loop is over |
| TimerRounds.OnlyEntitled | app/linuxptp-3.0/unicast_service.c:160-195 | every message sent was owed at the start by an interval that was due |
| UnicastService.TimespecNormalize | app/linuxptp-3.0/unicast_service.c:152-158 | the result is normalized and the same time in nanoseconds |
| UnicastService.LogToTimespec | app/linuxptp-3.0/unicast_service.c:111-127 | the loops compute the period of the exponent |
| UnicastService.ServeClients | app/linuxptp-3.0/unicast_service.c:160-195 | sends to exactly the clients whose grant has not ended, Announce before Sync, and drops exactly the others |
| UnicastService.ScanInterval | app/linuxptp-3.0/unicast_service.c:292-324 | the loop over the clients of one interval strips it, or finds the record to use, or settles the request at once |
| UnicastService.CancelIn | app/linuxptp-3.0/unicast_service.c:455-470 | the loop over the clients of one interval hits exactly if the pair is there, and then strips it |
| UnicastService.StripAtHit | app/linuxptp-3.0/unicast_service.c:455-470 | with one record per address, editing the record that is hit is the whole stripping |
| UnicastService.CancelMayStop | app/linuxptp-3.0/unicast_service.c:455-470 | stopping at the first interval that hits loses nothing, because no other one holds the pair |
| UnicastService.ScanMayStop | app/linuxptp-3.0/unicast_service.c:292-324 | stopping when the requested interval holds the pair loses nothing, because no other one does |
| UnicastService.ExtractedIsAlone | app/linuxptp-3.0/unicast_service.c:500-525 | an interval that is out of the queue can change its timeout without disturbing the order of the queue |
| UnicastService.Service.constructor | app/linuxptp-3.0/unicast_service.c:399-424 | the service starts with no interval, an empty queue for 16 intervals and no armed timer, and satisfies the invariant |
| UnicastService.Service.RearmTimer | app/linuxptp-3.0/unicast_service.c:218-235 | the armed deadline becomes that of the first interval in the queue, or none |
| UnicastService.Service.ArmedIsEarliest | app/linuxptp-3.0/unicast_service.c:218-235 | in every valid state no interval is due before the armed deadline |
| UnicastService.Service.Add | app/linuxptp-3.0/unicast_service.c:264-359 | keeps list and queue equal and the table sound; a granted request gives the table of GrantEffect, a negotiated request is denied only when there is no interval of its period and the queue cannot take a new one, which leaves the stripped table |
| UnicastService.Service.Scan | app/linuxptp-3.0/unicast_service.c:292-324 | the nested loops strip every other interval, or stop early when the request is settled in place |
| UnicastService.Service.LinkInterval | app/linuxptp-3.0/unicast_service.c:341-358 | a new interval is linked to list and queue together, or to neither |
| UnicastService.Service.InitializeInterval | app/linuxptp-3.0/unicast_service.c:93-102 | the new interval has the period of the exponent and its first deadline 10 ms after the clock reading |
| UnicastService.Service.Remove | app/linuxptp-3.0/unicast_service.c:426-471 | keeps the invariant; the pair is stripped from all intervals unless the request is to be maintained or the type is not negotiated |
| UnicastService.Service.PutBack | app/linuxptp-3.0/unicast_service.c:515-523 | the re-insertion in the timer never grows the queue and never fails |
| UnicastService.Service.Round | app/linuxptp-3.0/unicast_service.c:500-525 | one turn of the loop in place: the first interval in the queue serves and drops clients as its grants say, and is put back one increment later, or retired when it has no clients; list and queue stay equal |
| UnicastService.Service.LoggedRound | app/linuxptp-3.0/unicast_service.c:500-525 | the turn is that of the table for an earliest interval that is due; the table stays sound, what is sent is what the log says, and the measure of the loop drops |
| UnicastService.TurnIsSound | app/linuxptp-3.0/unicast_service.c:500-525 | a turn leaves the table sound: one record per address, no empty mask, one interval per address and type |
| UnicastService.Service.Timer | app/linuxptp-3.0/unicast_service.c:473-531 | terminates exactly when the loop of the table does; the table becomes that of a possible run of turns of earliest due intervals after which nothing is due, and what is sent is, in order, what these turns send, and nothing unless the port is a master; list and queue stay equal and the timer is armed again |
| DatasetComparison.Dscmp2Antisymmetric | app/linuxptp-3.0/bmc.c:24-70 | swapping the arguments of dscmp2 negates its result, for all data sets |
| DatasetComparison.DscmpAntisymmetric | app/linuxptp-3.0/bmc.c:72-116 | swapping the arguments of dscmp negates its result, for all data sets |
| DatasetComparison.TelecomAntisymmetric | app/linuxptp-3.0/telecom.c:26-73 | swapping the arguments of telecom_dscmp negates its result, for all data sets |
| DatasetComparison.Dscmp2IsKeyOrder | app/linuxptp-3.0/bmc.c:24-70 | dscmp2 agrees with the lexicographic order of distance and sender if and only if the farther of two data sets one step apart does not name its receiver as sender |
| DatasetComparison.WonByTheWay | app/linuxptp-3.0/bmc.c:24-116 | for all data sets and both algorithms: a comparison is won by topology exactly if it is won, both speak of one source, and they are equally far or the loser is one step farther and was received on a port that comes behind its sender in memory; every other win is by attributes |
| DatasetComparison.DscmpIsKeyOrder | app/linuxptp-3.0/bmc.c:72-116 | on located data sets dscmp is the lexicographic order of one key for exactly the concordant pairs: those of two grandmasters, and those of one whose announcements are equal or are ranked like the ways they came |
| DatasetComparison.AgreementIsConcordant | app/linuxptp-3.0/bmc.c:72-116 | data sets that announce the same priorities and quality of one grandmaster are concordant |
| DatasetComparison.TelecomIsKeyOrder | app/linuxptp-3.0/telecom.c:26-73 | telecom_dscmp is the lexicographic order of a key without the agreement about grandmasters |
| DatasetComparison.OrderlyIsRanked | app/linuxptp-3.0/bmc.c:72-116 | on orderly data sets the sign of either comparison is that of the lexicographic order of the keys |
| DatasetComparison.CompareTransitive | app/linuxptp-3.0/bmc.c:24-116 | under these hypotheses the sign of the comparison is a transitive total preorder, also with missing data sets |
| DatasetComparison.OrderNeedsLocation | app/linuxptp-3.0/bmc.c:24-70 | a data set can take part in an order if and only if it has no step removed or its receiver differs from its sender |
| DatasetComparison.OrderNeedsConcord | app/linuxptp-3.0/bmc.c:72-116 | a located pair is concordant if and only if no located third data set, concordant with both, breaks the order between them; for every other pair there is one |
| DatasetComparison.DisagreementCycle | app/linuxptp-3.0/bmc.c:72-116 | a concrete cycle of three located data sets, two of which announce one grandmaster differently |
| Selection.LeaderIsBest | app/linuxptp-3.0/port.c:2378-2411 | no candidate compares better than the one the scan ends with, and every earlier one compares worse |
| Selection.ClearedAreLosers | app/linuxptp-3.0/port.c:2390-2408 | the scan clears exactly the candidates that an earlier candidate equals or beats, and never its winner |
| Selection.GlobalMaximum | app/linuxptp-3.0/clock.c:1838-1844 | the two nested scans find a maximum over every candidate of every port, and nothing exactly when there is no candidate |
| ForeignMasters.CurrentIsFourIntervals | app/linuxptp-3.0/port.c:135-153 | among all exponents a header can hold, msg_current means younger than four announce intervals at every age for exactly those from -11 to 30 |
| ForeignMasters.MisjudgedAges | app/linuxptp-3.0/port.c:135-153 | for every exponent and every age, the ages at which msg_current is wrong: one that the truncated division cuts off below 2^-11 s, one or two below 2^-30 s where the lifetime is zero, and the far end of the times from 2^31 s on |
| ForeignMasters.DiffersIsDataset | app/linuxptp-3.0/port.c:61-72 | two messages of one sender differ exactly when the data sets they give differ |
| ForeignMasters.PrunedKeepsCurrent | app/linuxptp-3.0/port.c:279-301 | for a sender that keeps its interval pruning keeps exactly the current ones among the newest two messages |
| ForeignMasters.PrunedAgain | app/linuxptp-3.0/port.c:279-301 | pruning at a later time gives the same whether or not it was done before |
| ForeignMasters.CandidateIff | app/linuxptp-3.0/port.c:2382-2394 | of a sender that keeps its interval there is a candidate exactly if its two newest messages are current |
| ForeignMasters.ForeignClock.Prune | app/linuxptp-3.0/port.c:279-301 | the two loops prune the list, and the count stays its length |
| ForeignMasters.ForeignClock.Clear | app/linuxptp-3.0/port.c:267-277 | the list becomes empty and the count zero |
| ForeignMasters.ForeignClock.Append | app/linuxptp-3.0/port.c:340-393 | the message becomes the newest of the pruned list; the results tell whether the threshold is just reached and whether the announced grandmaster changed |
| ForeignMasters.Port.AddForeignMaster | app/linuxptp-3.0/port.c:340-393 | the message goes to the record of its sender alone; an unknown sender gets an empty record; lists stay newest first, at most three long and counted exactly |
| ForeignMasters.Port.UpdateCurrentMaster | app/linuxptp-3.0/port.c:1811-1844 | the message goes to the record of its sender alone and an unknown sender gets an empty record; a change is reported when the announced grandmaster differs and, for other senders than the best master, when the threshold is just reached |
| ForeignMasters.Port.ComputeBest | app/linuxptp-3.0/port.c:2378-2411 | the loop ends with the winner of the pruned, qualified records; a master-only port keeps everything and has no best |
| ForeignMasters.Port.BestOfPort | app/linuxptp-3.0/port.c:2390-2408 | what the loop leaves as best is the winner over all candidates |
| ForeignMasters.Port.WinnerKeepsMessages | app/linuxptp-3.0/port.c:2390-2408 | the winner still has its two newest messages |
| ForeignMasters.Port.BestSaysNewest | app/linuxptp-3.0/port.c:74-87 | the data set of the best record is, member by member, what its newest message says, as received by this port |
| ForeignMasters.Port.ClearedOnPort | app/linuxptp-3.0/port.c:2390-2408 | among the qualified records exactly those that an earlier one equals or beats have lost their messages |
| ForeignMasters.Port.KeptThroughSelection | app/linuxptp-3.0/port.c:2378-2411 | selection keeps what holds of the records in every run |
| ForeignMasters.Port.CandidatesAreLocated | app/linuxptp-3.0/port.c:690-718 | because port_ignore drops what the clock itself sent, no candidate of any run names its receiver as sender |
| StateDecision.OneSlave | app/linuxptp-3.0/bmc.c:118-164 | with all ports on the standard algorithm SLAVE is recommended exactly to the port of the best foreign clock, when the class is above 127 and the local data set does not beat it |
| StateDecision.SlaveCount | app/linuxptp-3.0/bmc.c:118-164 | the number of ports recommended SLAVE is one when the clock follows a master and zero otherwise |
| StateDecision.OneSource | app/linuxptp-3.0/bmc.c:118-164 | no snapshot recommends GRAND_MASTER to one port and SLAVE or MASTER to another |
| StateDecision.NoopIsNotDecided | app/linuxptp-3.0/bmc.c:118-164 | the BMCA_NOOP setting makes a difference only to a port without a foreign master, which keeps its state |
| StateDecision.PassiveIffShadowed | app/linuxptp-3.0/bmc.c:148-163 | with a class above 127 a port other than the best one is PASSIVE exactly if the clock follows and the data set of the port speaks of the same source by a worse way, MASTER in every other case in which the clock follows, and GRAND_MASTER exactly when it does not, but for a listening port that has heard nobody |
| StateDecision.ShadowedByKey | app/linuxptp-3.0/bmc.c:159-163 | on orderly data sets that condition is about their keys, their sources and their ways alone |
| StateDecision.ListeningStays | app/linuxptp-3.0/bmc.c:135-137 | LISTENING is the outcome exactly for a port that listens and has no foreign master |
| StateDecision.MasterIsJustified | app/linuxptp-3.0/bmc.c:118-164 | MASTER and PASSIVE go only to ports whose own foreign master is not better than the best, by attributes and by topology respectively |
| StateDecision.UnchallengedIsGrandMaster | app/linuxptp-3.0/bmc.c:118-164 | a clock whose data set beats the best of every port is GRAND_MASTER on every port, except on those that listen and have heard no foreign master |
| StateDecision.PrimaryNeverFollows | app/linuxptp-3.0/bmc.c:135-147 | a clock of class 127 or less is never recommended SLAVE or MASTER: a port is PASSIVE exactly when its foreign master is at least as good, and GRAND_MASTER otherwise, but for one that listens and has heard nobody |
| StateDecision.Clock.SelectBest | app/linuxptp-3.0/clock.c:1831-1880 | the first loop and the assignments choose the winner of the winners of all ports, or the local clock when there is none, and tell whether it is a new one |
| StateDecision.Clock.HandleStateDecisionEvent | app/linuxptp-3.0/clock.c:1831-1905 | each port is recommended what the decision says for the snapshot after the selection |
| StateDecision.EventOutcome | app/linuxptp-3.0/clock.c:1831-1905 | for a whole event: no candidate beats the chosen clock; SLAVE is recommended to one port when the clock follows and to none otherwise, and GRAND_MASTER never together with SLAVE or MASTER; MASTER and SLAVE are justified by the candidates |
| StateDecision.Clock.HeardIsOrderly | app/linuxptp-3.0/clock.c:1838-1844 | what the ports hold in any run is in order, for IEEE 1588 exactly when the announcements of each grandmaster are concordant |
| StateDecision.Clock.BestOfAllHeard | app/linuxptp-3.0/clock.c:1838-1844 | over what the ports hold in any run the chosen clock is a maximum: for G.8275 without any hypothesis, for IEEE 1588 if the announcements of each grandmaster are concordant |
| StateDecision.ProcessAnnounce | app/linuxptp-3.0/port.c:1855-1883 | a message from the clock itself, from too far away or in a state that does not listen changes nothing; every other one goes to the record of its sender alone, and a change is never reported for a sender not known before |
| StateDecision.Clock.ComputeBests | app/linuxptp-3.0/clock.c:1838-1844 | the loop over the ports leaves every port with the winner of its own records |
| TransparentClock.EitherOrder | app/linuxptp-3.0/tc.c:177-236 | Sync then Follow_Up and Follow_Up then Sync release the same Follow_Up with the residence time of the Sync and leave the list as it was |
| TransparentClock.ReleaseIsForPair | app/linuxptp-3.0/tc.c:177-236 | a Follow_Up leaves only when its Sync has been seen, with the residence time of that Sync, and is held only when no partner waits |
| TransparentClock.RequestAndResponse | app/linuxptp-3.0/tc.c:120-175 | a response finds the residence time of its request and leaves the list as it was before the request |
| TransparentClock.CompletedKeepsNoPairs | app/linuxptp-3.0/tc.c:177-236 | completing a Sync or Follow_Up never leaves two entries that match |
| TransparentClock.EveryRun | app/linuxptp-3.0/tc.c:120-236 | in every run of one port the list holds no matching pair and is in order of host time |
| TransparentClock.PrunedIsFresh | app/linuxptp-3.0/tc.c:499-514 | on a list in order of time stopping at the first current entry removes exactly the stale ones |
| TransparentClock.PruneIsExact | app/linuxptp-3.0/tc.c:499-514 | so after every run pruning removes exactly the entries that are a second old or older |
| Forwarding.CompleteSyFup | app/linuxptp-3.0/tc.c:177-236 | the first match is released with the original correction plus residence, peer delay and asymmetry; without a match the message is stored; stored corrections and reference counts come out right |
| TimeTransfer.IntervalIsExact | app/linuxptp-3.0/tc.c:220-221 | inside the 48 bits of nanoseconds the conversion to a time interval is exact |
| TimeTransfer.ToldBehindClock | app/linuxptp-3.0/tc.c:220-225 | if a Sync left the neighbour at the origin time plus the correction, took the peer delay and asymmetry of the path and stayed in the clock, then origin plus the new correction is the time at which it leaves: exactly with equal frequencies, to within a nanosecond otherwise |
| TimeTransfer.ToldBehindChain | app/linuxptp-3.0/tc.c:177-236 | through a chain of clocks origin and correction behind the last one are the time at which the Sync leaves it, wrong by less than a nanosecond for each clock of another frequency and exact if there is none |
| Forwarding.CompleteResponse | app/linuxptp-3.0/tc.c:140-175 | the response leaves with the residence time of the first matching request, which is removed; without a match nothing is sent |
| Forwarding.Stash | app/linuxptp-3.0/tc.c:120-138 | the entry goes to the end of the list and holds one reference |
| Forwarding.Prune | app/linuxptp-3.0/tc.c:499-514 | the loop prunes the list and gives up exactly the references of the removed entries |
| Forwarding.Flush | app/linuxptp-3.0/tc.c:372-381 | the list becomes empty and its references are given up |
| Forwarding.SendCorrected | app/linuxptp-3.0/tc.c:220-232 | a message is sent with another correction and has its own again afterwards |
| Forwarding.CompleteAll | app/linuxptp-3.0/tc.c:283-311 | for Syncs, Follow_Ups and delay requests, over all ports together: each port that is not blocked gets its completion, each sends what its list releases, corrections are unaltered and every reference count balances |
| Forwarding.EitherOrderEverywhere | app/linuxptp-3.0/tc.c:408-421 | a Sync and its Follow_Up in either order through all ports: the same Follow_Up leaves every port that is not blocked, each with its own residence time, and nothing stays behind |
| Forwarding.FlowOfTime | app/linuxptp-3.0/tc.c:54-118 | nothing goes back to its own port or to port 0; without a spanning tree or into another domain everything else passes; along the spanning tree of its domain messages go exactly from a port towards the master to ports towards slaves, and delay requests exactly to ports towards the master |
| Forwarding.RequestIsHeld | app/linuxptp-3.0/tc.c:120-138 | a delay request is stored at the end of the list and nothing is sent for it |
| Relay.ForwardEvent | app/linuxptp-3.0/tc.c:266-311 | every port that is not blocked sends the event message unchanged; afterwards the lists hold it with the residence time of each port, and waiting Follow_Ups leave |
| Relay.ForwardOneStep | app/linuxptp-3.0/tc.c:443-473 | a one-step Sync leaves as a two-step one, and a Follow_Up of its own with the same origin time stamp leaves every port that is not blocked, with residence, peer delay and asymmetry as its correction; nothing stays behind and nobody holds the new message |
| Relay.BothLeave | app/linuxptp-3.0/tc.c:443-473 | when nothing like the Sync waits anywhere, Sync and Follow_Up through all ports leave every list as it was and release the Follow_Up on every port that is not blocked |
| Relay.ForwardResponse | app/linuxptp-3.0/tc.c:428-441 | every port that is not blocked is offered the response in turn, sends it with the residence time of the first matching request, and references stay balanced |
| Relay.ResponseFindsTheWayBack | app/linuxptp-3.0/tc.c:120-175 | a request through all ports and its response from one of them: the response leaves through the port of the request and through no other, with the residence time of the request on the port it came back through, and leaves that list as it was |
| Relay.WayBackIsOpen | app/linuxptp-3.0/tc.c:54-118 | a response may come back from b to a exactly when the request may go from a to b and a is towards the slaves |
| Forwarding.BlockedAlike | app/linuxptp-3.0/tc.c:54-118 | whether a port is blocked is the same for a Sync and its Follow_Up |
| Forwarding.PendingIsHeld | app/linuxptp-3.0/tc.c:207-219 | a message that is pending on some port has a reference count of at least one |
| Forwarding.StillBalanced | app/linuxptp-3.0/tc.c:207-219 | a step that accounts for the references from one port keeps the count of every message equal to its holders plus the pending entries of all ports |
| SyncMatcher.EveryCallIsExplained | app/linuxptp-3.0/port.c:1241-1326 | over a whole stream every call is for a one-step Sync or joins two neighbours of one sequence number, a two-step Sync and a Follow_Up, and hands over the ingress time and correction of the Sync and the origin time and correction of the Follow_Up; no two calls use one message |
| SyncMatcher.EitherOrder | app/linuxptp-3.0/port.c:1241-1326 | from SF_EMPTY both orders hand over the same ingress time, origin time and corrections, with the interval of the later message; a Follow_Up with an older software time stamp only matches when it comes second |
| SyncMatcher.NoPairIsLost | app/linuxptp-3.0/port.c:1241-1326 | a stream that comes in matching neighbours, in either order each, gives one call per pair |
| SyncMatcher.PairsAtEvenPlaces | app/linuxptp-3.0/port.c:1241-1326 | in such a stream the pairs are exactly the ones that were sent |
| SyncMatcher.OverlappingPairsAreLost | app/linuxptp-3.0/port.c:1255-1282 | when two Syncs arrive before their two Follow_Ups there is no call at all |
| SyncMatcher.SyncPort.PortSyfuFsm | app/linuxptp-3.0/port.c:1241-1326 | a mismatch keeps the new message alone; a match calls port_synchronize and keeps nothing |
| SyncMatcher.SyncPort.ProcessSync | app/linuxptp-3.0/port.c:2307-2354 | in every run the calls made are those of the accepted stream, and the machine holds the message that waits in it; the asymmetry is added to the correction |
| SyncMatcher.SyncPort.ProcessFollowUp | app/linuxptp-3.0/port.c:2003-2039 | the same for a Follow_Up, which is not accepted without the information TLV when that is configured |
| SyncMatcher.SyncPort.FlushLastSync | app/linuxptp-3.0/port.c:1629-1635 | the machine holds nothing |
| SyncMatcher.SyncPort.Transition | app/linuxptp-3.0/port.c:2413-2499 | the message held is dropped exactly on the way to FAULTY, DISABLED or UNCALIBRATED |
| SyncMatcher.SyncPort.PairIsFromOneSource | app/linuxptp-3.0/port.c:101-110 | a pair joins messages of different senders exactly when the parent changed between them |
| ByteOrder.ConvertedTwice | app/linuxptp-3.0/tlv.c:42-54 | converting fields twice restores the buffer exactly when every scaled-nanoseconds field repeats its high half in the last bytes of the low half and has zeros before |
| ByteOrder.ScaledIsLost | app/linuxptp-3.0/tlv.c:42-54 | a value of one nanosecond does not survive scaled_ns_n2h and scaled_ns_h2n |
| ByteOrder.ConvertedReads | app/linuxptp-3.0/msg.c:81-90 | after the conversion the host reads from a field the number that was received in it |
| ByteOrder.ScaledReads | app/linuxptp-3.0/tlv.c:42-54 | the host reads the high half and the fraction of a scaled-nanoseconds field as they were sent, and in the place of the low half the high half once more |
| ByteOrder.ConvertFields | app/linuxptp-3.0/msg.c:81-99 | converting the fields one after the other in place converts them all |
| Tlv.ArrayIsExact | app/linuxptp-3.0/tlv.c:97-111 | the wrapped subtraction never lets a TLV pass that is too short: what passes holds a whole number of items, with 32-bit and 64-bit size_t |
| Tlv.ReceiveIsOrdered | app/linuxptp-3.0/tlv.c:810-884 | the fields a received TLV is converted in lie inside its value, one after the other, also in clock descriptions, monitoring responses and records |
| Tlv.SendUndoesReceive | app/linuxptp-3.0/tlv.c:886-945 | before sending, exactly the fields that were converted on receipt are found from the value in host order and the descriptor |
| Codec.TlvRoundTrip | app/linuxptp-3.0/tlv.c:810-945 | a received TLV comes back exactly unless it is a time status or 802.1 follow-up information that is not kept |
| Codec.WhereScaled | app/linuxptp-3.0/tlv.c:280-291 | those two are the only TLVs with a scaled-nanoseconds field |
| Codec.SuffixRoundTrip | app/linuxptp-3.0/msg.c:185-237 | sending a received list of TLVs restores every byte exactly when every TLV is kept, for any number and mix |
| Codec.TlvsCoverSuffix | app/linuxptp-3.0/msg.c:185-223 | accepted TLVs are contiguous, even in length and inside the received length, and leave fewer than four bytes |
| Codec.SuffixAcceptedIff | app/linuxptp-3.0/msg.c:185-223 | a suffix is accepted exactly if its TLVs are even in length, cover it up to three bytes, and each has a layout |
| Codec.AllInHostOrder | app/linuxptp-3.0/msg.c:193-221 | every TLV of an accepted suffix, under its own descriptor, is what tlv_post_recv makes of it, with type and length turned |
| Codec.TlvReads | app/linuxptp-3.0/tlv.c:810-884 | what the host reads from a converted field of a TLV is the number that was sent in it |
| Codec.RoundTrip | app/linuxptp-3.0/msg.c:338-479 | for every message type, sending what was received restores the datagram if and only if its TLVs are kept and, in the four types whose time stamp only msg_pre_send converts, the parts of the time stamp read the same backwards |
| Codec.ForwardedUnchanged | app/linuxptp-3.0/msg.c:338-479 | Signaling and Management messages without scaled nanoseconds always come back byte for byte |
| Codec.HostReadsWhatWasSent | app/linuxptp-3.0/msg.c:338-430 | what the host reads from a converted field of header or body is the number that was sent in it |
| Codec.PduRoundTrip | app/linuxptp-3.0/msg.c:81-99 | the fixed part comes back except for the time stamp |
| MessageBuffer.ConvertRecords | app/linuxptp-3.0/tlv.c:597-695 | the record loops convert every record in place and nothing else |
| MessageBuffer.TlvPostRecv | app/linuxptp-3.0/tlv.c:810-884 | a TLV is refused, or its value is converted in place and its inner positions are noted |
| MessageBuffer.TlvPreSend | app/linuxptp-3.0/tlv.c:886-945 | the value is converted in place by what it says in host order |
| MessageBuffer.ReceiveOne | app/linuxptp-3.0/msg.c:193-221 | one TLV at the pointer is accepted under exactly the three checks, converted in place, and ends where the next starts |
| MessageBuffer.SuffixPostRecv | app/linuxptp-3.0/msg.c:185-223 | the loop converts the suffix in place to what the specification says and lists one descriptor per TLV, or refuses it |
| MessageBuffer.SuffixPreSend | app/linuxptp-3.0/msg.c:225-237 | the loop over the descriptors converts the suffix in place to network order |
| MessageBuffer.Message.PostRecv | app/linuxptp-3.0/msg.c:338-430 | the result is that of the specification, with the same errors; the bytes beyond the message stay, and the time stamp of the body is read out |
| MessageBuffer.Message.PreSend | app/linuxptp-3.0/msg.c:432-479 | the buffer becomes the datagram of the specification, the bytes beyond it stay, and the list of TLVs is given back |
| WireStructs.MessageTables | app/linuxptp-3.0/msg.h:90-176 | lengths and fields of header and body of every message type are those of the packed structures, member by member |
| WireStructs.SuffixIsParsed | app/linuxptp-3.0/msg.c:102-126 | for every accepted message whose structure ends in a suffix there is exactly one descriptor for each TLV behind it, and the host reads type, length and every field of each as they were sent; behind Sync, Pdelay_Req and Pdelay_Resp nothing is touched |
| WireStructs.AcceptedIff | app/linuxptp-3.0/msg.c:338-430 | a datagram is accepted exactly if it holds a header of version 2, one of the ten types, the whole structure of that type and, where that ends in a suffix, TLVs that cover the rest; a wrong version is told apart from everything else |
| WireStructs.ManagementTables | app/linuxptp-3.0/ds.h:33-108 | sizes and fields of the standard management data sets are those of their structures |
| WireStructs.OwnManagementTables | app/linuxptp-3.0/tlv.h:309-338 | the same for the management data that is not part of the standard |
| WireStructs.RecordTables | app/linuxptp-3.0/tlv.h:241-273 | the same for the records of slave timing data |
| WireStructs.TlvTables | app/linuxptp-3.0/tlv.h:161-295 | the same for the monitoring response, follow-up information and unicast negotiation |
| WireStructs.SlaveDataTlvs | app/linuxptp-3.0/tlv.c:597-695 | slave timing data is accepted exactly if it holds a whole number of records behind the port identity, and every record is converted as its structure says |
| WireStructs.PathTraceTlvs | app/linuxptp-3.0/tlv.c:844-848 | a path trace is accepted exactly if it holds a whole number of clock identities |
| WireStructs.ManagementTlvs | app/linuxptp-3.0/tlv.c:818-824 | a management TLV with a data set of fixed size is accepted exactly if it is empty or holds that data set, and is converted as its structure says |
| WireStructs.UnicastTlvs | app/linuxptp-3.0/tlv.c:711-760 | a negotiation TLV is accepted exactly if its structure fits and it names one of the four message types, and is converted as its structure says |
| WireStructs.CommandTlvs | app/linuxptp-3.0/tlv.c:329-337 | a management command is accepted exactly with no data |
| WireStructs.PortStatsTlvs | app/linuxptp-3.0/tlv.c:321-328 | port statistics are accepted exactly if the value is their structure, whose port number is converted |
| WireStructs.ResponseTlvs | app/linuxptp-3.0/tlv.c:443-514 | a monitoring response is accepted exactly if it holds its head, an address as long as its transport says, and its foot, and nothing else; both structures are converted and the descriptor notes where the foot is |
| WireStructs.ErrorStatusTlvs | app/linuxptp-3.0/tlv.c:826-832 | an error status is accepted exactly if its structure fits |
| WireStructs.ExtensionTlvs | app/linuxptp-3.0/tlv.c:548-575 | of the organization extensions only the two of IEEE 802.1 are looked at: these are accepted exactly with the size of their structures, and only the follow-up information is converted |
| TlvImages.ClockDescriptions | app/linuxptp-3.0/tlv.c:132-230 | a clock description is accepted exactly if the value is the image of some description, texts and addresses of any length each behind its own length, with at most one byte of padding |
| TlvImages.ClockDescriptionFields | app/linuxptp-3.0/tlv.c:132-230 | in the image of a description the four numbers are converted where the parts before them end, and the descriptor notes where the two addresses start |
| TlvImages.UserDescriptions | app/linuxptp-3.0/tlv.c:231-237 | a user description is accepted exactly if the value holds one text and at most one byte of padding |
| TlvImages.PortProperties | app/linuxptp-3.0/tlv.c:313-320 | port properties are accepted exactly if the value holds identity, state, kind of time stamping and one text, with at most one byte of padding |
| DelayFilters.AscendingIsUnique | app/linuxptp-3.0/mmedian.c:44-77 | there is one ascending arrangement of a window, so its median is well defined |
| DelayFilters.CircularMoves | app/linuxptp-3.0/mmedian.c:49-71 | writing at the index and advancing it makes the buffer hold the window after the new sample |
| DelayFilters.ValuesOfPermutation | app/linuxptp-3.0/mmedian.c:61-69 | an order list that names every live slot once lists every live value once |
| DelayFilters.InsertedInOrder | app/linuxptp-3.0/mmedian.c:61-69 | inserting the newest slot before all greater values keeps the order by value with ties oldest first |
| DelayFilters.MovingMedian.Sample | app/linuxptp-3.0/mmedian.c:44-77 | the order list stays a permutation of the live slots, sorted by value with ties oldest first; the result is the median of the last samples, for an even number the truncated mean of the two middle ones |
| DelayFilters.MovingMedian.Reset | app/linuxptp-3.0/mmedian.c:79-84 | the window becomes empty |
| DelayFilters.MovingMedian.CloseGap | app/linuxptp-3.0/mmedian.c:54-58 | the replaced entry is taken out and the others keep their order |
| DelayFilters.MovingMedian.ShiftUp | app/linuxptp-3.0/mmedian.c:61-68 | the loop stops at the last entry that is not greater, and moves the others up by one |
| DelayFilters.MovingAverage.Accumulate | app/linuxptp-3.0/mave.c:41-53 | the result is the truncated mean of the last samples |
| DelayFilters.MovingAverage.SumIsWindowSum | app/linuxptp-3.0/mave.c:41-53 | in every run the running sum is the sum of the window |
| DelayFilters.MovingAverage.Reset | app/linuxptp-3.0/mave.c:55-63 | the window becomes empty |
| DelayFilters.FiltersStayBetween | app/linuxptp-3.0/filter.c:36-49 | the result of either filter lies between the least and the greatest sample of its window |
| TimestampProcessor.RawError | app/linuxptp-3.0/tsproc.c:124-146 | with equal frequencies the offset is wrong by half the difference of the two path delays to within half a nanosecond, and exact for a symmetric path |
| TimestampProcessor.RawErrorAtRate | app/linuxptp-3.0/tsproc.c:124-146 | with reference time that passes at the rate of the ratio, the raw delay is that of both ways halved and the offset wrong by half of their difference, each to within one nanosecond |
| TimestampProcessor.ConstantDelay | app/linuxptp-3.0/tsproc.c:148-179 | after any number of equal raw delays either filter gives that delay |
| TimestampProcessor.SymmetricPath | app/linuxptp-3.0/tsproc.c:124-228 | over a symmetric path of constant delay the delay and the offset are exact in every mode, through either filter, with full weight, whatever the clock difference of each exchange |
| TimestampProcessor.FilteredStaysBetween | app/linuxptp-3.0/tsproc.c:148-179 | the filtered delay lies between the raw delays of its window |
| TimestampProcessor.Weight | app/linuxptp-3.0/tsproc.c:215-225 | the weight is above zero and at most one, and is one exactly without weighting, without positive delays, or when the filtered delay is not below the raw one |
| TimestampProcessor.TsProc.UpdateDelay | app/linuxptp-3.0/tsproc.c:148-179 | fails exactly without the second or third time stamp; otherwise the raw delay joins the history and the filtered delay is what the filter makes of it |
| TimestampProcessor.TsProc.UpdateOffset | app/linuxptp-3.0/tsproc.c:181-228 | fails exactly without what its mode needs; otherwise the offset is corrected by the delay of the mode |
| TimestampProcessor.TsProc.Reset | app/linuxptp-3.0/tsproc.c:230-242 | time stamps are cleared; a full reset also clears filter, ratio and validity, a partial one keeps them |
| UnicastClient.GrantedIsEnough | app/linuxptp-3.0/unicast_client.c:450-491 | in every run a master that delivers has every bit of its mask granted, and a master past waiting has Announce granted |
| UnicastClient.GrantedIsNotCancelled | app/linuxptp-3.0/unicast_client.c:296-344 | a message type is granted exactly when it was granted once and not cancelled since; a rejection does not take it away |
| UnicastClient.SydyIsSelected | app/linuxptp-3.0/unicast_fsm.c:22-86 | Sync is asked for and delivered by exactly the masters that were selected after granting Announce, with no cancellation, rejection or other selection since |
| UnicastClient.WaitIsSilent | app/linuxptp-3.0/unicast_fsm.c:22-86 | a master is past waiting exactly when it has granted Announce with no cancellation or rejection since |
| UnicastClient.HaveSydyDelivers | app/linuxptp-3.0/unicast_fsm.c:22-86 | a master delivers from the grant on that completes its mask after its selection until something ends it; selecting it again does not |
| UnicastClient.RenewingGrants | app/linuxptp-3.0/unicast_client.c:448-491 | the grants that set the renewal time are those of Announce before the master announces and while it delivers, and those of Sync and Delay_Resp while it is the selected one |
| UnicastClient.IdentityIsIntroduced | app/linuxptp-3.0/unicast_client.c:450-458 | a record has the identity of the port that last made the master announce, and until then that from the start |
| UnicastClient.RenewalIsLeast | app/linuxptp-3.0/unicast_client.c:205-222 | the renewal time is one of the times computed since the last renewal; a time that is not zero is their minimum if and only if none of them was zero |
| UnicastClient.ZeroIsLost | app/linuxptp-3.0/unicast_client.c:205-222 | a computed time of zero is overwritten by the next one |
| UnicastClient.AskedIsWhatIsNeeded | app/linuxptp-3.0/unicast_client.c:224-253 | the requests ask for the mask, and when all that is asked for is granted in any order the master reaches the next state |
| UnicastClient.Master.Grant | app/linuxptp-3.0/unicast_client.c:450-491 | the record stays what its log says, and the log has the grant with its renewal time |
| UnicastClient.Master.Renew | app/linuxptp-3.0/unicast_client.c:152-203 | it is time exactly when the renewal time has come, which is then cleared |
| UnicastClient.Master.SetRenewal | app/linuxptp-3.0/unicast_client.c:205-222 | the renewal time becomes the earlier of the old one and three quarters of the duration from now |
| UnicastClient.Port.Grant | app/linuxptp-3.0/unicast_client.c:408-492 | exactly the record of the sender notes a grant or a rejection; under the peer mechanism the delay responses do not touch the table and a peer grant moves only the renewal time of the peer |
| UnicastClient.Port.Cancel | app/linuxptp-3.0/unicast_client.c:296-344 | exactly the record of the sender notes the cancellation, and it is acknowledged, unless the grant is maintained or the type is not one of three |
| UnicastClient.Port.StateChanged | app/linuxptp-3.0/unicast_client.c:500-517 | every record notes whether it is that of the parent |
| UnicastClient.Port.Timer | app/linuxptp-3.0/unicast_client.c:519-549 | every master of the transport is asked for what its state needs, each at its own reading of the clock; the peer is asked as often as PeerRequests says |
| UnicastClient.Port.PeerIsAskedPerMaster | app/linuxptp-3.0/unicast_client.c:519-549 | the peer is asked once for each master of the transport from the first one on that finds the renewal time of the peer reached, and not at all if none does |
| PiServo.BoundedOnceLocked | app/linuxptp-3.0/pi.c:64-178 | in every run drift and frequency are the initial ones until the servo first locks and within the maximum frequency ever after; they are within it from the start if and only if the initial one is |
| PiServo.SampleBounds | app/linuxptp-3.0/pi.c:104-154 | one sample keeps the bounds, and every frequency reported in lock is within them |
| PiServo.IntegralStaysBounded | app/linuxptp-3.0/pi.c:138-147 | the integral update that is not clamped keeps the bound, because both terms pull in one direction |
| PiServo.MeasurementIsExact | app/linuxptp-3.0/pi.c:101-103 | with the measured drift the local clock would have advanced exactly as far as the reference between the two samples |
| PiServo.FirstLockIsExact | app/linuxptp-3.0/pi.c:84-124 | when the servo has measured and no limit is in the way, its clock will advance as the reference did between its first and its last sample |
| PiServo.JumpIff | app/linuxptp-3.0/pi.c:113-121 | a jump is reported exactly when the first measurement finds an offset over the step threshold or, before the first update, over that for the first step |
| PiServo.UnlockedIff | app/linuxptp-3.0/pi.c:74-135 | the servo is unlocked exactly without two samples that are 1000 s, or 0.016 s over the integral gain, apart, and when an offset in lock is over the step threshold |
| PiServo.NoOffsetNoChange | app/linuxptp-3.0/pi.c:137-149 | a locked servo that sees no offset keeps its drift, and its frequency becomes the drift |
| PiServo.ControlLaw | app/linuxptp-3.0/pi.c:137-149 | while no sample runs into the limits the frequency is the drift measured at the start plus the integral gain times the weighted sum of all offsets plus the proportional gain times the last one |
| PiServo.SampleOutOfRange | app/linuxptp-3.0/pi.c:137-149 | while a sample runs into a limit the frequency is that limit and the drift stays |
| PiServo.StableIsEnoughSmall | app/linuxptp-3.0/servo.c:97-107 | the stable state is reported exactly when enough offsets below the threshold were seen in lock, consecutive or not |
| PiServo.Servo.PiSampleInPlace | app/linuxptp-3.0/pi.c:64-155 | the updates in place are those of the specification |
| PiServo.Servo.Sample | app/linuxptp-3.0/servo.c:109-143 | the servo stays what its inputs make it, and every frequency it reports in lock is within the maximum |
| PiServo.Servo.Reset | app/linuxptp-3.0/pi.c:173-178 | only the count is reset; drift and frequency stay |

## Left out

- UnicastService.Service.Add: requires a log period of at most 30, because C does not define the shift for greater ones.
- UnicastService.Service.Timer: requires that the loop ends; TimerRounds.TerminatesIff proves the condition exact.
- Forwarding.CompleteAll: is for runs in which every send succeeds, because a fault can flush the list that is being edited.
- MessageBuffer.TlvPostRecv: does not say what a refused TLV looks like; in C the checks are interleaved with the conversions, here the layout is found first and all fields are converted afterwards.
- DelayFilters.MovingAverage.Accumulate: uses unbounded integers, so that the sum does not overflow.
- PiServo.BoundedOnceLocked: is over the real numbers; rounding, and the powers from which pi_sync_interval computes the gains, are not modelled, and the gains are given as not negative.
- Integers of time values are unbounded, except where the code saturates them or where a width decides a branch.
- The host is little-endian.
- Allocation failures other than that of the `realloc` in the queue, failures of the clock other than in unicast_client_set_renewal, and failures to send.
- Replies to unicast requests, acknowledgements and the messages that the unicast service sends, beyond their addressees and types.
- The dispatch of port events after a state decision, and the state machines of fsm.c and designated_fsm.c.
- tc_forward, which counts the step in Announce messages, and tc_ignore; port_ignore but for the identities it compares.
- The recycling of messages and TLV descriptors whose reference count reaches zero, and reference counts around port_syfufsm.
- msg_tlv_append, and the contents of TLVs that are not converted.
- The checks of sk_check_fupsync beyond the comparison of software time stamps.
- Sockets, PHC and system clock access, configuration, command-line programs, statistics, and the linear regression servo.
