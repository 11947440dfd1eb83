# A verified model of pcscid

pcscid is a Go client for the pcscd smart card daemon: it watches readers, reads the UID of every
presented card, gives each reader a tag that follows the physical unit, and serves the presentations
over a bridge. The repository also contains the other side of the socket, `internal/pcscfake`, so
several results here are about client and daemon together.

The Dafny files follow the program's parts.

| file | part |
|---|---|
| `Handshake.dfy` | version negotiation, client object against daemon object |
| `WaitProtocol.dfy`, `WaitOutcomes.dfy` | reader states, waits and card commands of one connection as a two-party state machine over FIFO streams, and what its calls return |
| `UnitRegistry.dfy`, `PortScan.dfy`, `PortNames.dfy`, `UnitIdentity.dfy` | which reader owns which USB port, how a port is found and named, what holds over a session |
| `Card.dfy`, `CardBytes.dfy`, `CardRuns.dfy`, `Insistence.dfy`, `Leftovers.dfy`, `Probe.dfy` | connecting, insisting on a UID, resets, handle ownership, over the byte stream of the card commands; what unread answers do to it |
| `Watch.dfy`, `Inventory.dfy` | the poll loop over snapshots and the startup inventory, both over the registry and the card probe |
| `Atr.dfy`, `AtrBytes.dfy`, `Wire.dfy`, `Ssh.dfy` | parsers and printers |
| `Bridge.dfy` | ring, subscribers, dedup table and their composition in `Feed` |
| `Tags.dfy` | reader names and the message hashed into a reader tag |
| `Common.dfy` | options, results, 32-bit numbers, bytes, joined texts |

Code that updates state is modelled by classes and methods with loops, each proved equal to a
specification function over the old state; the results below are then about those functions, over
all inputs and all runs. `WaitProtocol.dfy` is a step relation instead, because what matters there
is the interleaving of two parties.

## How to read the main results

**One connection.** A run is any sequence of atomic steps of the client, the daemon and the card
readers: states, waits and card commands over the same two streams. `Owed` lists every reply the
daemon still has to write or the client still has to read, in stream order; `Due` lists what the
client's phase expects. `Inv` says the two are equal (with the replies the client went on without in
front), and every step keeps it. From it follow, under both dialects: no read ever takes another
call's reply, a completed call leaves the streams quiet, exactly one answer is written for a stop, no
signal is lost. The hypothesis, `AllRead`, is that no drain and no card command passed its deadline
and no response was refused for its length; `AbandonedReplyDesyncs` shows that without it the next
states call reads the stale reply first, and `EveryReadTakesItsOwnReply` is an if-and-only-if in that
hypothesis. What the calls then return is in `WaitOutcomes`: over every run, a wait is reported timed
out if and only if its timeout was taken, and a reported change is newer than its registration exactly
when no wake was due when it was registered.

**Unit identity.** `Wiring` fixes a home port for each reader, no two the same. `Physical` says what
a wired machine may answer: a channel id resolves to the home port, the reader's own device is among
the candidates, was there at the first traffic snapshot and moved at least as much as any other. Then
over every sequence of probes, pins and disappearances each claim is true and none is refused. The
watch loop and the inventory are proved to be such sequences.

**UID insistence.** A card is any deterministic behaviour over any state type, so the results hold
for every sequence of answers. Each answer is bytes on the client's stream, of which a given number
comes before the deadline; what was not read, late bytes or the payload of a transmit answer above
264 bytes, is in front of the next answer, and the next command decodes it. `AllRead` says that no
answer of a probe left bytes behind. `ProbeInStepIff`: exactly then every command read its own answer
and the stream is empty; and then handles are conserved (`ProbeConservesHandles`). A caller can rely
on it for every card that answers in time and within the buffer (`OnTimeConservesHandles`, and
`Watch.WatchedConservesHandles` over whole runs of the watch loop). Without it handles leak:
`LongUidLeaksHandles` and `LateConnectOpensTwo` are the inputs; they do not have to leak, since what
follows depends on what the bytes spell and on how much follows (`LongUidAtLastPinConserves`). For the
fake reader, which is never late, `FakeReadsAllIff` says exactly which readers leave bytes behind. Its
success is characterised exactly as well (`UidBudget`), and `Insistence` says of any card what every
single answer does, in its bytes.

**Event tracking.** `Tracks` ties the mutable maps to the last snapshot. The events of a poll are
stated reader by reader in terms of two consecutive snapshots, and `Watch.FakeArrivalIsReportedIff` goes
all the way from the failure counters of a card to the event of the poll.

## Where the code and its documentation differ

- `readers.go:69-71` promises that the reported tag is exactly the tag of the reader's insertion
  events. `Inventory.InventoryMatchesInsertionIff` gives the exact condition on a wired machine, line
  by line. A reader whose card could be probed keeps its tag if its serial stays and, without one, its
  port is found both times or never. A reader without a usable card connection keeps it if the driver
  serves no serial later and the port is found later exactly when the inventory could pin it; a pinned
  reader with a serial does not (`Inventory.PinnedReaderWithSerialChangesUnit`).
- `pcsc/ipc.go:208-215` promises that the stream stays in sync after a timeout. It does exactly when
  the drain read at `pcsc/ipc.go:251-256` gets its answer in time, and no card command on the connection
  passed its deadline or refused a response.
- `pcsc/ipc.go:208-215` says that the signal is delivered once a change happens. The daemon changes a reader first
  and signals afterwards (`internal/pcscfake/pcscfake.go:206-219`), so a wake still due tells a wait
  registered in between of a change it already had; `WaitOutcomes.ReportedChangeIsNewIff` says exactly
  when. No news is lost by it (`WaitProtocol.RegistrationMissesNothing`).
- `pcsc/ipc.go:385-390` refuses a transmit response longer than 264 bytes to avoid a large allocation,
  and leaves its payload on the stream; `pcsc/ipc.go:149-162` and `pcsc/ipc.go:376-379` leave the reply
  of a card command past its deadline there. The connection goes on (`uid.go:101-115`,
  `uid.go:176-195`, `uid.go:282-319`), so the following commands decode the wrong bytes. A transmit
  answer leaves nothing if and only if it carries a result code or at most 264 bytes
  (`CardRuns.TransmitLeavesNothingIff`). The fake daemon serves UIDs of any length: a UID of 660
  zero bytes makes one probe leave two card handles open (`Leftovers.LongUidLeaksHandles`), and any one
  above 262 bytes puts the stream out of step once it is served (`Leftovers.FakeReadsAllIff`).
- `bridge.go:366-370` promises that a repeated pair within the window is dropped. The table keeps that
  promise over an ordered run if and only if no more than 1024 pairs are ever active in a window
  (`Dedup.AnswersExactlyIffModerate`); beyond, the table is cleared and pairs come through again.
- `pcscid.go:247-250` promises that a serial and a port path of the same text never collide. On one
  machine, or on none, they never do, whatever the names (`Tags.SerialNeverCollidesWithPort`). On two
  machines they can, and `Tags.SameTextCollidesAcrossMachinesIff` says exactly for which names and text.
- `pcscid.go:204-239` promises distinct tags for the units of one model, which holds of all texts
  (`Tags.SameModelKeepsUnitsApart`). Units of two models can share a message: `Tags.ModelsMeetIff`
  says exactly for which names.

## Model

| member | source | states |
|---|---|---|
| Handshake.IpcClient.Handshake | pcsc/ipc.go:97-129 | succeeds if and only if the offered minor is at least 2, within two rounds, both sides then on that minor and on the same wait dialect; on failure the connection's version is untouched |
| WaitProtocol.AppendRequest | internal/pcscfake/pcscfake.go:371-421 | how one more request changes the replies promised by a stream of unread requests, the registration left open after it, and the request discipline |
| WaitProtocol.CallKeepsInv | pcsc/ipc.go:149-257 | sending a states, wait, stop or card request keeps the balance of owed and due replies in both dialects |
| WaitProtocol.ServeKeepsInv | internal/pcscfake/pcscfake.go:371-421 | serving any request keeps the invariant, and a client of the same minor is never hung up on |
| WaitProtocol.WakeKeepsInv | internal/pcscfake/pcscfake.go:268-279 | a change signal, whenever it is written, takes the place of the one answer its registration owes |
| WaitProtocol.ReadMatches | pcsc/ipc.go:216-299 | a read takes a reply that is not its own exactly when an earlier reply was abandoned; otherwise the oldest reply settles the client's first debt; what the call then returns is WaitOutcomes.EveryReadEndsItsPhase |
| WaitProtocol.TimeoutKeepsInv | pcsc/ipc.go:149-162 | past the deadline of a drain or card command the reply is still owed, behind those abandoned before, and the client goes on |
| WaitProtocol.TooLongKeepsInv | pcsc/ipc.go:385-390 | a result refused for its length is the client's own, and what it refused is what is still owed |
| WaitProtocol.StepKeepsInv | pcsc/ipc.go:149-299 | every step of client, daemon and readers keeps the invariant |
| WaitProtocol.RunKeepsInv | internal/pcscfake/pcscfake.go:371-504 | so does every run |
| WaitProtocol.RunAbandons | pcsc/ipc.go:251-256 | in every run a reply is abandoned exactly by a drain or card deadline or a refused length |
| WaitProtocol.EveryReadTakesItsOwnReply | pcsc/ipc.go:149-299 | after any run a read of states, dump, signal, stop or card answer gets the reply of its own call in the size it asked for, if and only if no drain or card command passed its deadline and no response was refused before |
| WaitProtocol.NeverDesynced | pcsc/ipc.go:208-299 | with all replies read no run desyncs the stream or makes the daemon hang up |
| WaitProtocol.QuietAfterEveryCall | pcsc/ipc.go:208-299 | between calls no reply, no computed answer and no registration remains; only after a timeout one unread stop may, which will be answered by nothing |
| WaitProtocol.StatesReflectEverySignal | pcsc/ipc.go:242-256 | a states result reflects every change made before it was requested, so every signal consumed before, the ones swallowed by a drain included |
| WaitProtocol.RegistrationMissesNothing | internal/pcscfake/pcscfake.go:475-485 | while a registration stands, every change since it has its wake still to come |
| WaitProtocol.ExactlyOneAnswer | internal/pcscfake/pcscfake.go:411-421 | once the daemon has served a stop exactly one answer is on the stream, the signal or the stop's own, and nothing else is left to serve; if it is there before, it stays the only one |
| WaitProtocol.NoReadBlocksForever | internal/pcscfake/pcscfake.go:371-421 | a read of a states, dump, drain or card answer is satisfied once the daemon has served what was sent, and by its own reply |
| WaitProtocol.AbandonedReplyDesyncs | pcsc/ipc.go:149-299 | whenever a drain or card command gives up, or a response is refused, the next states call reads the stale reply first |
| WaitProtocol.DrainsAreReached | pcsc/ipc.go:216-299 | concrete runs that end in a drain, in both dialects |
| WaitProtocol.LateAndLongAreReached | pcsc/ipc.go:350-396 | a concrete run whose card reply can come late or be refused |
| WaitOutcomes.EveryReadEndsItsPhase | pcsc/ipc.go:216-299 | over every run with all replies read, a read of a change signal ends its wait as changed, that of a stop answer as timed out, that of a dump goes on to the signal |
| WaitOutcomes.LastCallDecides | pcsc/ipc.go:216-299 | in every run, abandoned replies included, the last call returned with its own kind of result, and a wait is reported timed out if and only if its timeout was taken |
| WaitOutcomes.StatesFollowEverySignal | pcsc/ipc.go:242-256 | the states read after a signal, reported or swallowed by a drain, are at least as new as the change it told of |
| WaitOutcomes.ReportedChangeIsNewIff | internal/pcscfake/pcscfake.go:206-279 | in every run from a registration on, a reported change was made after it if and only if no wake of an earlier change was due then |
| UnitRegistry.Units.Adopt | readerid.go:348-383 | the two maps become exactly the declarative merge: fresh facts win, failures keep what is remembered, a port of another reader is refused |
| UnitRegistry.Units.Forget | readerid.go:387-398 | exactly the reader's facts and its port claim disappear |
| UnitRegistry.AdoptKeepsInverse | readerid.go:348-383 | adopting keeps the port claims the inverse of the facts |
| UnitRegistry.ForgetKeepsInverse | readerid.go:387-398 | so does forgetting |
| UnitRegistry.EveryRunKeepsInverse | readerid.go:320-398 | and every sequence of both |
| UnitRegistry.PortsAreExclusive | readerid.go:305-323 | no two readers hold one port |
| UnitRegistry.AdoptTakesPortIffUnowned | readerid.go:348-383 | a probed port is adopted if and only if no other reader owns it |
| UnitRegistry.FreshFactsWin | readerid.go:348-383 | in facts alone: a probed serial wins and a missing one keeps the remembered, a probed port wins unless another reader holds it, and no other reader's facts change |
| UnitRegistry.AdoptHoldsLatestCard | readerid.go:348-383 | a merge carries the UID and protocol of the latest probe, and the registry holds it from then on |
| PortScan.PortIdentityTellsSlotsApart | readerid.go:275-303 | two readers get one port identity exactly when device and extra slot are the same; which slot a name stands for is PortNames.PortOfHotplugName |
| PortNames.PortOfHotplugName | readerid.go:275-303 | a reader named by a base, an enumeration digit and a slot has the plain device path for slot 00 and the path with the slot in lower case for any other, whatever the digit |
| PortNames.SlotsOfOneDevice | readerid.go:275-303 | two such names on one device get one port identity if and only if their last groups are equal up to case |
| PortNames.PlainPortIff | readerid.go:275-303 | for any name at all: the port is the plain device path exactly when the name does not end in two words of two hexadecimal characters, the last not 00 |
| PortScan.UsbUrbWinner | readerid.go:671-699 | a winner is reported if and only if both snapshots exist and one candidate moved by at least 2 and at least 2 more than every other one of the first snapshot; it is that candidate |
| PortScan.WinnerIff | readerid.go:671-699 | among distinct devices, the winner moved by at least 2 and by at least 2 more than every other device of the first snapshot, a vanished device counting as moved back to zero |
| PortScan.DecisiveIsUnique | readerid.go:671-699 | at most one position is decisive |
| PortScan.WinnerIgnoresOrder | readerid.go:671-699 | the winner depends on the set of devices, not on their order |
| PortScan.UsbPortPathByReader | readerid.go:546-643 | the loops compute the scan: the single candidate, the traffic winner, else the one free port of fully resolved candidates, owned ports refused |
| PortScan.UnownedCandidates | readerid.go:624-633 | the elimination loop collects exactly the ports no other reader owns, and gives up on an unresolvable device |
| PortScan.ScannedPortIsUnowned | readerid.go:546-643 | on all three paths a returned port is nobody else's |
| PortScan.ScannedPortIsAdopted | readerid.go:348-383 | and the registry it was scanned against adopts it unchanged |
| PortScan.TrafficFindsOwnDevice | readerid.go:671-699 | if the reader's own device was there and moved the most, a winner is that device |
| PortScan.ScanFindsHomeOrRefuses | readerid.go:546-643 | all three paths find the home port or nothing |
| PortScan.ScanFindsHomeIff | readerid.go:546-643 | the home port is found exactly when there is one candidate, decisive traffic, or all candidates resolve and all ports but one are owned; nothing otherwise |
| PortScan.EliminationFindsIff | readerid.go:620-643 | on any machine: without a traffic winner a port is found if and only if every candidate resolves and exactly one of them is not owned by another reader, and it is that one's |
| PortScan.SingledDeviceDecides | readerid.go:590-619 | on any machine: a single candidate or a traffic winner decides alone, with its port or, when that is unknown or owned by another reader, with none |
| UnitIdentity.ProbeFindsHomeOrNothing | readerid.go:138-249 | a probe of a wired reader concludes its home port or none, channel id, traffic and elimination included |
| UnitIdentity.StepKeepsClaimsTrue | readerid.go:348-398 | one probe, pin or disappearance keeps all claims true and never meets a refusal |
| UnitIdentity.EveryClaimIsTrue | readerid.go:348-398 | over every run of a wired machine the registry holds true ports only, and adopt never has to refuse |
| UnitIdentity.StepKeepsUnit | readerid.go:138-249 | a known serial or port survives any step of any reader, failed connects included |
| UnitIdentity.UnitNeverFlips | readerid.go:337-383 | once a reader has a unit, every later presentation reports that unit until it disappears |
| UnitIdentity.PinKeepsOneTierIff | readers.go:112-114 | a card-less pin gives a reader both a serial and a port exactly when it finds a port for a reader known by serial |
| UnitIdentity.NoReaderHoldsBothTiers | readerid.go:254-263 | with pins only on unknown readers no reader ever holds both |
| UnitIdentity.PresentationCarriesItsCard | readerid.go:138-249 | the UID and protocol the insistence ended with are those the presentation reports and the registry then holds, none without a connection |
| UnitIdentity.UnitOfAnyPresentation | readerid.go:138-249 | on any machine, wired or not, the unit a presentation reports: a known one stays; else the serial, without one the port of the channel id unless another reader holds it, or else what the scan finds |
| UnitIdentity.LatestCardIsHeld | readerid.go:348-383 | whatever other readers do, the UID held for a reader is that of its latest presentation |
| Card.Service.Redial | pcscid.go:394-406 | a new connection starts with an empty stream, the handle table as it was |
| Card.Service.ConnectOnce | pcsc/ipc.go:306-324 | the daemon opens a handle or not, the client decodes the next 152 bytes of its stream, whosever they are |
| CardBytes.ConnectDecodes | pcsc/wire.go:158-168 | of any bytes on the stream a connect takes 152, and the handle, protocol and result code of the struct in them decide; fewer bytes fail and are gone |
| Card.Service.ConnectCard | uid.go:120-127 | one connect with the raw-protocol retry, as one attempt of the specification |
| Card.Service.Transmit | pcsc/ipc.go:350-396 | one exchange: header, result code, length guard and payload are read off the stream, what is refused or late stays there |
| CardBytes.TransmitDecodes | pcsc/ipc.go:376-396 | of any bytes a transmit takes a header of 32, then exactly the payload its length at 24 announces unless the code at 28 is set or the length is above 264 |
| Card.Service.OpenCard | uid.go:101-160 | the retry loop, for the first open and for the reopen after a reset |
| Card.Service.UidExchange | uid.go:211-246 | one exchange and its verdict: final, wedged by 63 00, or suspect; Insistence.ReplyDecides says in bytes which answers are which |
| Card.Service.TransmitUID | uid.go:176-195 | up to three exchanges, stopping at a final answer or a wedge |
| Card.Service.InsistUID | uid.go:282-319 | up to three rounds with reset and reopen between, the live connection handed on; which answers end them is Insistence.FirstAnswerEndsInsistence, StubbornConnectionIsReset and WedgedConnectionIsReset |
| Card.Service.Close | pcsc/ipc.go:414-423 | a disconnect closes the handle it names if it is open, resets the card when asked to, and takes the next 12 bytes of the stream |
| Card.Service.PinTraffic | readerid.go:218-228 | the extra exchanges of the traffic window |
| CardRuns.OwnConnectReadsBack | pcsc/wire.go:158-168 | on an empty stream the bytes of a connect answer in time decode to its result, protocol and handle, for handles of 32 bits |
| CardRuns.OwnExchangeReadsBack | pcsc/ipc.go:376-396 | and those of a transmit answer in time and within the buffer to its result or payload |
| CardRuns.TransmitLeavesNothingIff | pcsc/ipc.go:376-396 | reading a transmit answer leaves nothing on the stream if and only if it carries a result code or a payload of at most 264 bytes; then it is read as given |
| CardRuns.BytesAreFaithful | pcsc/ipc.go:149-162 | for all connect, transmit and disconnect answers: on an empty stream an answer is read as given and the stream is empty again, unless it is late or too long, and then bytes are left |
| CardRuns.ProbeInStepIff | pcsc/ipc.go:149-162 | against any card a probe's commands all read their own answers and leave the stream empty if and only if every answer came in time and fitted |
| CardRuns.OpeningAccount | uid.go:101-160 | against any card, all answers read, a failed open leaves handles and account as they were, a successful one adds one new handle, the one the client decodes |
| CardRuns.TransmittingAccount | uid.go:176-246 | all answers read, at most three exchanges, no other effect, and a UID is the non-empty non-random payload of a 90 00 answer |
| CardRuns.NextRoundAccount | uid.go:139-160 | all answers read, a round without answer closes its handle by exactly one reset before another is opened |
| CardRuns.InsistenceIsBounded | uid.go:282-319 | against any card, all answers read, at most nine exchanges and two resets, never an exchange after 63 00 on the same connection, and a returned UID is the payload of the last answer |
| CardRuns.InsistenceOwnsHandles | uid.go:282-319 | against any card, all answers read, every connection given up is closed and at most the one handed on stays open |
| CardRuns.ProbeConservesHandles | readerid.go:146-176 | against any card a probe all of whose answers are read leaves the handle table as it was, disconnects each successful connect once, never misuses a handle and holds one at a time |
| CardRuns.OnTimeConservesHandles | readerid.go:146-176 | so does every probe of a card that, in whatever state it can get into, answers in time and within the buffer |
| CardRuns.ProbeHandsOn | readerid.go:146-176 | and it leaves what the next probe asks for: ordered handles and an empty stream |
| CardRuns.CommandsAreCounted | internal/pcscfake/pcscfake.go:565-628 | the account the results are about: a command on a handle that is not open is one misuse and does not reach the card, an exchange after 63 00 on its handle is futile, a disconnect with a reset is one reset |
| CardRuns.ExchangingFake | internal/pcscfake/pcscfake.go:565-628 | one exchange with a fake reader whose UID fits: lost, wedged or the UID, by its counters |
| CardRuns.OpeningFake | internal/pcscfake/pcscfake.go:520-563 | an open succeeds exactly when the pending connect failures are fewer than its attempts |
| CardRuns.TransmittingFake | internal/pcscfake/pcscfake.go:565-628 | a connection yields the UID exactly when the lost exchanges are fewer than the attempts and the card is not stuck |
| CardRuns.InsistingFake | internal/pcscfake/pcscfake.go:441-458 | which counters let an insistence of any number of rounds end with the UID |
| CardRuns.UidBudget | uid.go:101-319 | for every fake reader whose response fits: the probe reads its UID if and only if a card is present, the UID is neither empty nor of four bytes beginning with 08, and the failure counters meet the budget, reactivation lag at the start included; otherwise it reads none |
| CardRuns.UidBudgetOfFreshPresentation | internal/pcscfake/pcscfake.go:441-458 | a fresh presentation is read if and only if it has a UID that is not random, at most 2 failed connects, at most 8 failed exchanges, and at most 7 failed reconnects or no reset needed |
| Insistence.ReplyDecides | uid.go:211-246 | for any card: a UID before 90 00 ends the attempts, as none when it is of four bytes beginning with 08; 63 00 gives the connection up at once; a lost or short answer, 90 00 alone and every other status are asked again while attempts are left |
| Insistence.EveryReplyIsDecided | uid.go:211-246 | there is no other kind of answer |
| Insistence.FirstAnswerEndsInsistence | uid.go:282-319 | for any card, a UID in the first answer ends the insistence after one exchange and without a reset, with that UID, or with none when it is random |
| Insistence.StubbornConnectionIsReset | uid.go:282-319 | for any card, a connection without an answer is given up after exactly three exchanges: one reset, up to eight connects and the rounds left, or handed on without a UID in the last round |
| Insistence.WedgedConnectionIsReset | uid.go:282-319 | a connection answering 63 00 is given up after one exchange |
| Insistence.RawIsAskedIffMismatch | uid.go:120-127 | a card refused with 8010000F is asked for once more with the raw protocol within the same attempt, any other refusal is not |
| Leftovers.FakeReadsAllIff | internal/pcscfake/pcscfake.go:565-628 | a probe of the fake reader leaves bytes behind if and only if the UID is longer than 262 bytes and the failure counters let the probe, its pins included, get as far as an answer with it |
| Leftovers.LongUidLeaksHandles | pcsc/ipc.go:385-390 | a fake reader with a UID of zeros longer than a whole probe reads: two handles stay open in the daemon |
| Leftovers.LongUidAtLastPinConserves | readerid.go:218-228 | reading everything is not necessary for the handles: a long UID first served by the last pin leaves bytes behind and the handle table intact |
| Leftovers.LateConnectOpensTwo | uid.go:101-115 | a connect that succeeds after its deadline is asked again: two handles are open, the client holds the first, and the second answer stays on the stream |
| Probe.ProbeReaderCard | readerid.go:138-249 | the card side is one probe of the card specification, the facts are those the identity rules draw from the evidence, and they carry the UID and protocol the insistence ended with |
| Probe.PinsInFull | readerid.go:218-228 | two extra exchanges exactly for a reader with nothing remembered, no serial and no channel id, when ports are asked for |
| Watch.Tracking.StartSession | pcscid.go:431-439 | a new connection clears counters and units and keeps presence |
| Watch.Tracking.Identify | pcscid.go:455-481 | an arrival is probed and adopted; it is reported with the probed UID and the adopted serial and port, and not at all without a UID |
| Watch.Tracking.ScanState | pcscid.go:446-496 | one reader of the answer: arrival, removal or nothing, and both maps updated |
| Watch.Tracking.ScanStates | pcscid.go:446-496 | the loop over mutating maps equals comparing each state with the last snapshot |
| Watch.Tracking.DropUnlisted | pcscid.go:497-510 | readers no longer listed leave maps and registry, with one removal for each that had a card |
| Watch.Tracking.Poll | pcscid.go:438-510 | one turn: maps, registry, card and events are those of the snapshot comparison |
| Watch.Tracking.PollLoop | pcscid.go:430-530 | a whole connection refines the comparison of consecutive snapshots, across a reconnect |
| Watch.StateMeetsLast | pcscid.go:446-496 | in the middle of a scan the maps still answer for the next reader from the last snapshot |
| Watch.MapsAfterScan | pcscid.go:446-510 | after scan and cleanup the maps describe the new snapshot |
| Watch.EveryClaimIsListed | pcscid.go:497-510 | after a poll every port claim belongs to a reader of its snapshot |
| Watch.RemovalIffCardLeft | pcscid.go:484-510 | a removal is reported, once and alone, if and only if the card was there in the last snapshot and is not now, listed or not |
| Watch.ProbesAreArrivals | pcscid.go:446-483 | the readers probed by a scan are exactly those whose card arrived, in order; card service and registry are untouched by all others |
| Watch.PresentationsAreArrivals | pcscid.go:446-483 | the presentations of a scan are those of the arrived readers |
| Watch.ProbedIffArrived | pcscid.go:446-458 | a reader is probed if and only if its card arrived: present, and not present in the last snapshot or, within a session, there with another counter |
| Watch.ProbedOnce | pcscid.go:446-483 | no reader is probed twice in a scan |
| Watch.InsertionOnlyOfArrival | pcscid.go:446-483 | a listed reader is reported inserted only if its card arrived, and then by one event with the probed UID and the adopted serial and port, or by none when no UID was read |
| Watch.EveryInsertionHasUid | pcscid.go:467-481 | no poll, in whatever state and with whatever cards, reports an insertion without a UID |
| Watch.ArrivalIsReportedIffRead | pcscid.go:455-481 | an arrival is reported by exactly one insertion, with the UID its own probe of the card service read and what the registry then holds, if and only if that probe read one |
| Watch.FakeArrivalIsReportedIff | pcscid.go:455-481 | against the fake, an arrival of a card is reported with the card's own UID if and only if it is there, has a UID that is not random, and its failure counters meet the budget; otherwise the poll is silent about it |
| Watch.PollAboutListed | pcscid.go:446-496 | the events of a listed reader are exactly those its own state causes |
| Watch.PollAboutUnlisted | pcscid.go:497-510 | those of an unlisted reader are its removal or none |
| Watch.ScanIsSession | pcscid.go:438-510 | what a poll does to the registry is a sequence of probes |
| Watch.WatchedClaimsAreTrue | pcscid.go:380-530 | over any polls and reconnects of a wired machine no reader carries a port that is not its own |
| Watch.WatchedKeepsOneTier | pcscid.go:380-530 | over any polls and reconnects, whatever the evidence, no reader holds both a serial and a port and no two share one |
| Watch.WatchedConservesHandles | pcscid.go:380-530 | over any polls and reconnects against cards that answer in time and within the buffer the handle table ends as it began and every connect met its disconnect |
| Watch.EventsNeverFlipUnit | pcscid.go:438-510 | once a reader has a unit, every insertion event of it in the session carries that unit as long as it stays listed |
| Inventory.EvaluateReader | readers.go:94-125 | one inventory line: a probe with a card, a pin without |
| Inventory.IdentifyReaders | readers.go:81-127 | the loop over the readers, the second user of the registry |
| Inventory.InfoMatchesRegistry | readers.go:94-125 | the lines name the readers in order, and each carries what the registry holds for its reader at the end |
| Inventory.LineCarriesItsCard | readers.go:94-125 | every line carries the UID its own probe of the card service read, and none without a card |
| Inventory.InventoryIsTrue | readers.go:94-125 | each line has at most one unit fact, and over a wired machine its port is the reader's own |
| Inventory.InventoryPortsAreExclusive | readers.go:94-125 | no two inventoried readers share a port |
| Inventory.LineOfInventory | readers.go:94-125 | on a wired machine, the unit of each line in closed form, from the state the earlier readers leave: serial, port or neither for a probed reader, port or nothing for one without a card |
| Inventory.InventoryMatchesInsertionIff | readers.go:69-71 | for every line, probed, pinned or neither, with the port option or without, the exact condition under which it carries the unit of the reader's first insertion in a later session |
| Inventory.InventoryTagKeptIff | readers.go:69-71 | the same for the tag messages, on any machine |
| Inventory.PinnedReaderWithSerialChangesUnit | readers.go:69-71 | a reader for which the documented promise fails |
| Atr.ReadGroup | atr.go:50-75 | one interface group: its bytes, the next presence mask and the protocols so far, or the missing byte |
| Atr.ReadGroups | atr.go:46-78 | the outer loop terminates with the whole chain of groups, the position after it and the protocols offered, or with the missing byte |
| Atr.ParseATR | atr.go:34-105 | the loops compute the parse, each error case included |
| Atr.ParseIffPrint | atr.go:34-105 | a byte string parses to a structure if and only if the structure is well formed and prints to it: a bijection |
| Atr.ParsedPrints | atr.go:34-105 | parsing then printing is the identity on accepted bytes |
| Atr.PrintedParses | atr.go:34-105 | printing then parsing is the identity on well-formed structures |
| Atr.ParsedProtocols | atr.go:46-92 | protocols start with 0, have no duplicates, and TCK is present exactly when some TD offers a protocol other than T=0 |
| AtrBytes.ParsedIffStructure | atr.go:34-105 | what is accepted, in the numbers of the bytes: TS, T0, groups as long as the high halves of T0 and each TD announce, as many historical bytes as the low half of T0, protocols from the low halves of the TD bytes, and a check byte exactly if one of these is not zero |
| AtrBytes.TrailingBytesAreCounted | atr.go:34-105 | bytes after a whole answer to reset are refused with their number |
| AtrBytes.CutAnswerIsRefused | atr.go:34-105 | every proper beginning of an accepted answer to reset is refused, and the error tells exactly where it was cut: interface bytes, how many historical bytes are left, or the check byte; so no accepted answer begins another |
| AtrBytes.OtherStartIsRefusedIff | atr.go:34-41 | an answer is refused for its first byte exactly if that is neither 3B nor 3F |
| Atr.ChecksumOK | atr.go:111-120 | the loop decides whether the XOR of all bytes after TS except TCK equals TCK |
| Atr.ChecksumIsZeroSum | atr.go:107-120 | on a parsed ATR with TCK the check holds exactly when the XOR of all bytes after TS is zero, as in section 8.2 of ISO/IEC 7816-3:2006 |
| Atr.SumOfUpdate | atr.go:111-120 | how the XOR changes when one byte does |
| Atr.SingleCorruptionIsDetected | atr.go:111-120 | no two byte strings that parse with a TCK and pass the check differ in a single byte after TS |
| Wire.PackedWord | pcsc/wire.go:68-74 | every packed field reads back from its offset |
| Wire.LowestByteFirst | pcsc/wire.go:68-74 | a word is written lowest byte first |
| Wire.EncodeReaderStateInto | internal/pcscfake/pcscfake.go:700-716 | the in-place writes produce the entry, an overlong name running on into what follows |
| Wire.EncodeStates | internal/pcscfake/pcscfake.go:509-518 | the loop fills the first sixteen entries of a zero array |
| Wire.DecodeStates | pcsc/ipc.go:178-190 | the loop keeps the named entries of the sixteen |
| Wire.WrittenField | pcsc/wire.go:146-156 | in any sequence of buffer writes, a field that no later write touches holds what was written |
| Wire.UntouchedRange | pcsc/wire.go:146-156 | and a range no write touches stays as it was |
| Wire.EntryHolds | internal/pcscfake/pcscfake.go:700-716 | an entry written over zeros holds every field at its place |
| Wire.StatesRoundTripIff | pcsc/wire.go:290-311 | for any reader table the client decodes the first sixteen readers, in order and with no phantom, as they are, if and only if each of their names is NUL-free and at most 128 bytes |
| Wire.StatesRoundTrip | pcsc/wire.go:290-304 | for NUL-free names of at most 128 bytes the client sees exactly the first sixteen readers in order, with counters, state bits, protocols and ATRs cut to 33 bytes, and no phantom |
| Wire.ClientLearnsReaders | pcsc/wire.go:290-311 | the client learns, of each of the first sixteen readers and of no other, its name, event counter, whether a card is present, the first 33 bytes of its ATR and its protocol |
| Wire.ReaderSeenIff | pcsc/wire.go:290-311 | a reader is seen unchanged if and only if its name is NUL-free, non-empty and at most 128 bytes |
| Wire.ConnectRoundTripIff | pcsc/wire.go:146-168 | a connect struct reads back as written, all seven fields, if and only if its name is NUL-free and fits its field |
| Wire.ConnectInFull | pcsc/wire.go:146-156 | every number of a connect struct at its offset |
| Wire.ConnectAnswerArrives | internal/pcscfake/pcscfake.go:553-562 | the client decodes its own request completed by the daemon's handle, protocol and result |
| Wire.ConnectNameArrivesIff | pcsc/ipc.go:306-316 | a connect name arrives unchanged if and only if it passes the length guard and is NUL-free |
| Wire.AttribRoundTrip | pcsc/wire.go:240-265 | an attribute answer reads back as written up to 264 bytes; a longer value reads as empty with all other fields intact |
| Wire.GetsetInFull | pcsc/wire.go:240-248 | every field of an attribute struct at its offset |
| Wire.PackedWords | pcsc/wire.go:68-74 | unpacking undoes packing for every list of words |
| Wire.PartsReadBack | pcsc/wire.go:57-64 | reads of the sizes written take exactly the parts written and leave what follows |
| Wire.StreamRoundTrip | internal/pcscfake/pcscfake.go:718-735 | the daemon reads off the stream exactly the messages the client framed |
| Wire.FrameInFull | pcsc/wire.go:44-55 | a frame is the body's size, the command and the body, in that order |
| Ssh.SshReader.Bytes | sign.go:226-236 | the sticky read of raw bytes |
| Ssh.SshReader.Uint32 | sign.go:238-243 | the sticky read of a big endian word |
| Ssh.SshReader.SshString | sign.go:245-255 | the sticky read of a string, its length compared as a uint32 |
| Ssh.HighestByteFirst | sign.go:257-262 | a word is written highest byte first, as in section 5 of RFC 4251 |
| Ssh.AppendedStringIsReadIff | sign.go:245-262 | an appended string reads back if and only if its length fits 32 bits and the remaining length does not wrap below it |
| Ssh.FieldsAreRead | sign.go:219-262 | reading undoes appending for every list of fields, with what follows left over |
| Ssh.CutListFails | sign.go:219-255 | every proper prefix of a list ends with the error set |
| Ssh.SignBlobIsFields | sign.go:90-112 | the nested appends build the field list of the signature blob |
| Ssh.SignBlobRoundTrip | sign.go:90-112 | a signature blob reads back field by field with nothing left, and any cut fails |
| Ssh.SignBlobInFull | sign.go:90-112 | the signature blob byte by byte: SSHSIG, version 1, the named key, pcscid, nothing, sha512 and the named signature, each behind its length |
| Ssh.SignedMessageInFull | sign.go:122-130 | the signed bytes: SSHSIG, the namespace, nothing, sha512 and the digest, each behind its length |
| Ssh.SignedMessageIsInjective | sign.go:122-130 | the signed bytes determine namespace and digest |
| Ssh.ParseOpenSSHEd25519 | sign.go:134-192 | the reads and checks compute the parse, each error case included |
| Ssh.ContainerParses | sign.go:134-192 | every unencrypted container with a matching public half yields its key, whatever its options, comment, padding and trailing bytes |
| Ssh.ContainerAnswers | sign.go:134-159 | what any container is answered with: encrypted unless cipher and key derivation are none, empty without a key, else what its private section says |
| Ssh.SectionAnswers | sign.go:161-192 | what any private section is answered with: the check words, the key type, the length of the private half, the public half and the self test, in this order |
| Ssh.MagicDecides | sign.go:139-142 | a blob is no key file at all exactly when it does not begin with the fifteen bytes of the magic |
| Ssh.ParseIffContainer | sign.go:134-192 | a blob below 4 GiB yields a key if and only if it is an unencrypted container of that key and the key passes the self test |
| Ssh.AcceptedIsContainer | sign.go:134-192 | whatever its size, nothing but such a container is ever accepted |
| Hub.BridgeHub.Add | bridge.go:319-335 | the event gets the next identifier, the ring stays the last events of the history, and every subscriber is offered it without blocking |
| Hub.BridgeHub.Since | bridge.go:339-349 | the loop answers the part of the history after the cursor that the ring still holds |
| Hub.PollerSeesAllIff | bridge.go:339-349 | a poller advancing its cursor sees every event exactly once and in order if and only if at most the capacity arrives between two polls |
| Hub.RunFollows | bridge.go:319-364 | in every run of the hub a subscriber's channel is that of the one-subscriber machine, and what is published to it is the hub's history since the subscription |
| Hub.SubscriberConserves | bridge.go:319-364 | that machine receives, queues or misses each event exactly once |
| Hub.SubscriberOfHub | bridge.go:319-364 | in every run of the hub a subscriber has received, queued or missed each event since its subscription exactly once, with strictly increasing identifiers, and missed none exactly if its sixteen slots were never full at an add |
| Hub.BridgeHub.Take | bridge.go:200-213 | a subscriber takes the oldest event of its channel |
| Dedup.BridgeDedup.Allow | bridge.go:389-416 | the table updated in place answers as the specification over all calls so far, suppressed calls refreshing the pair |
| Dedup.BridgeDedup.DropStale | bridge.go:405-409 | the pruning loop keeps exactly the entries younger than the window |
| Dedup.TableIsGroundedAndBounded | bridge.go:389-416 | in every run each entry is the time of an earlier presentation past the grace, and the table never exceeds 1024 entries |
| Dedup.PruningIsInvisible | bridge.go:371-416 | with non-decreasing time and at most 1024 active pairs a window the answers are those of unbounded debouncing |
| Dedup.SuppressionIsNeverInvented | bridge.go:371-416 | without any bound, whatever unbounded debouncing lets through is let through |
| Dedup.ForgottenIff | bridge.go:401-413 | another pair's memory survives a call exactly when the table need not be cleared |
| Dedup.AnswersExactlyIffModerate | bridge.go:366-416 | at every point of an ordered run every further call is answered as unbounded debouncing answers it, if and only if the run never has more than 1024 active pairs |
| Dedup.OverflowClears | bridge.go:401-413 | at the first overflow the table is left with its last pair alone |
| Dedup.OverflowForgets | bridge.go:401-413 | and every other active pair comes through once more within its window |
| Dedup.BurstIsForgotten | bridge.go:401-413 | 1025 pairs within one window, at whatever times: each of the first 1024 comes through again at once |
| Feeding.Bridge.Feed | bridge.go:137-161 | removals and card-less events change nothing; the hub's history stays exactly the record of what the guard lets through, each event with the signature of its own line |
| Feeding.RecordInFull | bridge.go:137-161 | one more watch event appends an event under its own tag, or the derived one when it has none, signed over "#" tag ":" card; one the guard holds back, a removal or one without a card appends nothing |
| Feeding.OneRecord | bridge.go:137-161 | and what was presented determines the record: there is no other |
| Feeding.ServedAreApart | bridge.go:130-149 | two served presentations of one pair are at least a window apart, at most 1024 pairs being active |
| Tags.IsHotplugIndex | pcscid.go:288-298 | decides one or two decimal digits |
| Tags.NormalizeReaderName | pcscid.go:272-284 | only index groups are cut and none is left |
| Tags.StableIff | pcscid.go:269-298 | the stable part is the one text without a trailing index group that the name extends by index groups alone |
| Tags.IndexIsCutIff | pcscid.go:269-298 | a last word is cut off a name if and only if it is one or two decimal digits |
| Tags.MessageInFull | pcscid.go:199-267 | the hashed text of each tier as literal text, with a machine and without |
| Tags.SameModelKeepsUnitsApart | pcscid.go:204-239 | readers of one stable name share a message exactly when their unit facts agree, on any machine and whatever the texts |
| Tags.SameUnitKeepsMachinesApart | pcscid.go:241-247 | the same reader and fact share a message on two machines exactly when the machines agree |
| Tags.SerialNeverCollidesWithPort | pcscid.go:247-250 | on one machine, or none, a serial never shares a message with a port of the same text, for all names |
| Tags.SameTextCollidesAcrossMachinesIff | pcscid.go:247-250 | on two machines they can, exactly when one of the joined texts of name and fact goes on after the other with a separator |
| Tags.SerialMeetsPort | pcscid.go:247-250 | such a serial and port |
| Tags.ApartNamesKeepUnitsApart | pcscid.go:226-267 | names neither of which shadows the other share a message only when names and facts agree |
| Tags.ModelsMeetIff | pcscid.go:226-267 | two models can share a message, by some facts, if and only if one name goes on after the other with a separator and, on a machine, a unit label |
| Tags.SerialsOfModelsMeetIff | pcscid.go:226-239 | the same for serials alone and for ports alone, without a machine |
| Tags.UnitsMeetAcrossMachinesIff | pcscid.go:251-267 | two units can share a message on some two machines if and only if their joined texts are equal or one goes on after the other with a separator |
| Tags.MachinesTellTagsApart | pcscid.go:241-267 | when neither names nor facts shadow each other, messages are equal only for equal names, facts and machines |
| Tags.UnshadowedSerialNeverMeetsPort | pcscid.go:247-250 | of names that do not shadow each other a serial never meets a port, on any machines and whatever their texts |
| Tags.ModelTagsIgnoreIndexGroups | pcscid.go:199-202 | model-level messages are shared exactly by readers that extend one base name by index groups, for all names and machines |
| Tags.PortTagsAreExclusive | pcscid.go:226-267 | in every reachable registry two readers whose stable names are equal or do not shadow share a message only at the same serial or at model level, never by port |
| Common.JoinsMeetIff | bridge.go:394-394 | joins of two texts meet for some second texts exactly when the texts are equal or one goes on after the other with a separator |
| Common.JoinedOnceIff | bridge.go:394-394 | a joined pair stands for one pair among all texts exactly when neither part carries the separator |
| Common.JoinsTellPairsApart | bridge.go:394-394 | for first parts without a separator, joined texts are equal exactly when both parts are |

## Left out

- Sockets, dialing, sleeps: a timeout is a step that may happen at any point. The deadline of a states or wait command closes the connection; that of a card command does not, its reply is still owed.
- WaitProtocol.EveryReadTakesItsOwnReply: replies are whole messages there, also those past a deadline; the bytes of card answers, cut at any point, are in Card, where states and wait replies between probes are not on the modelled stream.
- Attribute exchanges (channel id, serial number): what they answer is a parameter of each probe, their bytes are not on the modelled card stream; Wire.AttribRoundTrip is about one of them, and WaitProtocol counts them as card commands.
- Non-zero result codes in wait structs and the error paths of failed writes: the fake daemon never sends the former, the latter end the connection.
- Other clients of the daemon, and pcscd behaviour the fake does not show: one connection's streams, registration and requests are modelled.
- Handle and identifier wrap-around: uint32 card handles and int64 event identifiers are unbounded here, so CardRuns.OwnConnectReadsBack is about handles below 2^32; event counters, versions and wire words are 32-bit.
- Sysfs access, candidate selection by name tokens, placeholder serial filtering, machine identity lookup: what they answer is a parameter of each probe.
- Card removal in the middle of a probe: covered by the results over any card behaviour, not by the exact budget, which is about a present card.
- UnitIdentity.NoReaderHoldsBothTiers: is stated for pins of unknown readers, the only pins the inventory makes; PinKeepsOneTierIff says what any other pin would do.
- Snapshots read after a probe that left bytes behind: the snapshots of a run are arbitrary, so the results of Watch hold, but what the client would decode then is not derived.
- Watch.Tracking.PollLoop: context cancellation and a full event channel end the loop in the code and are not modelled; a connection is any finite sequence of daemon answers.
- Watch.Tracking.Poll: the order in which Go visits the presence map while dropping readers is left open, as in Go; the removals are a set without duplicates.
- Hub.BridgeHub.Since: mutexes are not modelled, each method is one atomic step; a closed HTTP request is a Cancel at any point.
- Feeding.Bridge.Feed: the reader tag derivation and the signature are given functions; their laws are in Tags and Ssh.
- Sorting of reader names in the state array: the sorted names are given.
- SHA-256, SHA-512, ed25519, base64 and the armor: uninterpreted or left out; tags are compared by their hashed messages, not by the shortened digest.
- HTTP, SSE and JSON formatting, the loopback guard, server shutdown, card type tables, logging, the command line: no property beyond plumbing and lookups.
