# meshbus verification

A Dafny model of the protocol and scheduling logic of meshbus, with proofs of
what that logic promises. Pure code is modelled by datatypes and functions.
Code that works by changing state is modelled by classes and loops, each proved
equal to a specification function, and the properties are then proved of that
function. `dafny verify dfyconfig.toml` checks the whole project.

The parts modelled, with the files that hold them:

- **Anti-replay and the secure envelope** (`Replay`, `WordBits`, `ReplayCache`,
  `MeshSec`, `MeshWire`). A circular bitmap against the ideal "set of accepted
  counters plus a sliding window"; sealing and opening on top of it with the
  cipher as a parameter; the packet byte for byte, what the cipher is given, and
  the key schedule.
- **Load balancing** (`Swrr`, `Wrr`, `Rendezvous`, `Lease`, `LeaseRuns`). Exact
  shares, the weighted list behind both cyclic and hashed picking, minimal
  disruption, and the timed source-lease state machine.
- **DNS** (`DnsName`, `DnsWire`, `DnsRoundTrip`, `DnsCanonical`, `DnsCodec`,
  `DnsLayout`, `DnsFraming`): the wire format of section 4.1 of RFC 1035 with name compression, the OPT
  record of section 6.1 of RFC 6891, and length-prefixed framing of section 8 of
  RFC 7766.
- **QUIC** (`QuicVarint`, `QuicFrame`, `QuicRoundTrip`, `QuicReencode`,
  `QuicCodec`, `QuicLayout`, `QuicFlow`, `QuicStream`): frames of section 19 of
  RFC 9000, credit-based flow control over a lossy channel, and stream
  reassembly.
- **Geosite** (`Geosite`, `GeositeFile`): a label trie against a scan of the file.
- **Mesh repair and path control** (`Parity`, `Reorder`, `PathControl`): XOR
  parity, family reordering with gap reports, round-trip estimation of section
  5.3 of RFC 9002, and in-flight accounting driven by those reports.
- **Byte streams** (`Socks5`, `Socks5Handshake`, `Socks5Layout`, `PeerStream`,
  `PeerOverflow`, `PeerCauses`): a handshake that does not depend on read
  boundaries (RFC 1928 and RFC 1929), and the mesh-peer stream receive half under
  every interleaving with its driver.

The round trips say that what is written is read back. The modules named
`...Layout` and `MeshWire` say beside them which octets those are, against
literal bytes, and what bytes written by others are read as.

`MachineTypes`, `Arithmetic`, `Endian`, `Sums`, `Candidates`, `Slices`,
`Splitting`, `Chunks`, `Ordered`, `Ascii` and `Utf8` are shared support.

## Findings

Places where the code does less than one might expect. Each is stated as a
concrete case together with the exact condition under which the code does meet
the property.

- A replay window that is neither at most 64 nor a multiple of 64 is wider than
  the words allocated for it, because the word count is rounded down. It then
  refuses fresh counters (`Replay.WindowExactness`, `WideWindowRefusesFresh`).
  When it is wider by two or more it also accepts a counter twice
  (`Replay.AcceptsOnceIff`, `WideWindowAcceptsTwice`, `MeshSec.OpensTwice`).
- A DNS name survives encoding if and only if it is the root or has no empty
  label (`DnsName.NameRoundTrip`, `EmptyLabelIsLost`), and a message if and only
  if it is canonical (`DnsCanonical.MessageReturnsIff`).
- QUIC payloads come back exactly if and only if no padding is empty or adjacent
  to other padding (`QuicRoundTrip.ExactRoundTrip`, `AdjacentPaddingMerges`).
- A stream chunk that starts where a stored chunk starts is dropped even when it
  is longer (`QuicStream.AbsorbedIff`, `LongerRepeatIsDropped`).
- The receiver charges a retransmitted data chunk to the connection window a
  second time, so a sender that kept to its limit can be refused
  (`QuicFlow.SafeIff`, `RepeatCrowdsOutFresh`).
- Limit updates are not retransmitted, so after a lost one a sender and receiver
  can wait for each other until some data chunk is delivered again
  (`QuicFlow.RevivesIff`, `LostUpdateDeadlocks`, `RepeatRevives`).
- The sender acknowledges every package in flight that the report does not call
  missing, including those beyond anything the receiver has seen
  (`PathControl.AckedMeansArrived`, `UnseenIsAcked`). The window floor applied on
  a timeout can never act (`WindowNeverShrinks`).
- A stream can end while payloads are still queued when the event queue is seen
  closed first or the send half is dropped (`PeerStream.QuietEndExact`,
  `EventEndCanDrop`, `DroppedSenderCanDrop`).
- A payload refused for a full data queue is lost without an error at the first
  end of the stream, which is where callers look, unless the first event ever
  filed reports one: an orderly shutdown filed earlier hides it, whether or not
  the event queue has room (`PeerOverflow.FirstEndReports`,
  `FirstFiledIsFirstAsked`, `SilentLoss`).
- Weighted round robin never returns when all weights are zero
  (`Wrr.PickEndsIff`).

## Model

| member | source | states |
|---|---|---|
| `Replay.ClearedSlot` | lib/mb-proto-mesh/src/replay.rs:87-91 | after the clearing pass a slot is marked iff it was marked and no skipped counter maps onto it |
| `Replay.StepTracks` | lib/mb-proto-mesh/src/replay.rs:61-105 | one call on the circular bitmap decides as the ideal rule over the set of accepted counters, and goes on representing that set |
| `Replay.RunTracks` | lib/mb-proto-mesh/src/replay.rs:61-105 | the decisions of a whole run equal those of the ideal rule |
| `Replay.WideWindowRefusesFresh` | lib/mb-proto-mesh/src/replay.rs:52-105 | a window wider than its words reports a fresh in-window counter as a replay |
| `Replay.WideWindowAcceptsTwice` | lib/mb-proto-mesh/src/replay.rs:52-105 | a window at least two wider than its words accepts counter 0 twice |
| `Replay.WindowExactness` | lib/mb-proto-mesh/src/replay.rs:52-105 | every run agrees with the ideal rule if and only if the window is at most 64 or a multiple of 64 |
| `Replay.IdealRunDecides` | lib/mb-proto-mesh/src/replay.rs:61-105 | decision k of a run is the ideal decision over everything accepted before call k |
| `Replay.RunMeansIdeal` | lib/mb-proto-mesh/src/replay.rs:61-105 | call k accepts iff the counter is in the window and was never accepted, and reports a replay iff in the window and accepted |
| `Replay.NeverAcceptedTwice` | lib/mb-proto-mesh/src/replay.rs:61-105 | no counter is accepted twice in any run, for every window at most one wider than its words |
| `Replay.StepCovers` | lib/mb-proto-mesh/src/replay.rs:61-105 | with such a window one call accepts nothing accepted before and keeps every accepted counter in the window marked |
| `Replay.AcceptsOnceIff` | lib/mb-proto-mesh/src/replay.rs:52-105 | no run accepts a counter twice if and only if the window is at most 64 or leaves at most 1 when divided by 64 |
| `WordBits.WordOperations` | lib/mb-proto-mesh/src/replay.rs:27-42 | on 64-bit words, or and and-not with a shifted one set and clear exactly the bit asked for |
| `ReplayCache.Window.constructor` | lib/mb-proto-mesh/src/replay.rs:19-25 | a new window is the ring with nothing marked |
| `ReplayCache.Window.Test` | lib/mb-proto-mesh/src/replay.rs:27-30 | tells whether the counter's slot is marked |
| `ReplayCache.Window.Set` | lib/mb-proto-mesh/src/replay.rs:32-35 | marks exactly the counter's slot |
| `ReplayCache.Window.Clear` | lib/mb-proto-mesh/src/replay.rs:37-40 | clears exactly the counter's slot |
| `ReplayCache.Window.ClearSkipped` | lib/mb-proto-mesh/src/replay.rs:87-91 | the loop clears the slots of all skipped counters and no others |
| `ReplayCache.Window.CheckAndInsert` | lib/mb-proto-mesh/src/replay.rs:75-105 | verdict and new array are those of the ring specification |
| `ReplayCache.Cache.CheckAndInsert` | lib/mb-proto-mesh/src/replay.rs:61-105 | only the window of this (peer, epoch, salt) changes, as the ring specification says; a missing one starts fresh |
| `MeshSec.HeaderRoundTrip` | lib/mb-proto-mesh/src/meshsec.rs:77-107 | an encoded header in front of any body of tag length decodes to itself |
| `MeshSec.HeaderInverse` | lib/mb-proto-mesh/src/meshsec.rs:77-107 | re-encoding a decoded header gives the packet's own 22 bytes |
| `MeshSec.BucketLen` | lib/mb-proto-mesh/src/meshsec.rs:110-119 | the smallest bucket that holds the bytes and their length, or too large beyond 1022 |
| `MeshSec.UnpackFramed` | lib/mb-proto-mesh/src/meshsec.rs:133-142 | unpacking ignores the padding's contents and returns the clear bytes |
| `MeshSec.PackRoundTrip` | lib/mb-proto-mesh/src/meshsec.rs:122-142 | packing succeeds iff the bytes fit, pads to a bucket, and unpacking undoes it |
| `MeshSec.OpenBytes` | lib/mb-proto-mesh/src/meshsec.rs:289-315 | the nested epoch and key loops return the outcome and leave the replay state of the opening specification |
| `MeshSec.FindOpenerFinds` | lib/mb-proto-mesh/src/meshsec.rs:258-315 | the scan returns a configured key and accepted epoch that authenticate the packet, or none does |
| `MeshSec.SealedOpens` | lib/mb-proto-mesh/src/meshsec.rs:212-283 | the matching key and epoch decrypt a sealed packet to its packed bytes |
| `MeshSec.OpenSealed` | lib/mb-proto-mesh/src/meshsec.rs:212-315 | a sealed packet gets the verdict of the window it is charged to, opens to (peer, sealed bytes) when that accepts, and changes that window alone |
| `MeshSec.SealedOpensIffFresh` | lib/mb-proto-mesh/src/meshsec.rs:212-315 | against the history of a cache whose window fits, a sealed packet opens to the sealed bytes iff its counter is in the window and was never accepted under its peer, epoch and salt, and is called a replay iff in the window and accepted |
| `MeshSec.RunOfOpensTracks` | lib/mb-proto-mesh/src/meshsec.rs:289-315 | after any run of openings from a fresh cache whose window fits, the cache represents exactly the charges accepted in that run |
| `MeshSec.SealedOpensAfterRun` | lib/mb-proto-mesh/src/meshsec.rs:212-315 | after any such run a sealed packet opens to the sealed bytes iff its counter is in the window and was never accepted in the run under its peer, epoch and salt, and is called a replay iff in the window and accepted |
| `MeshSec.UnauthenticatedLeavesState` | lib/mb-proto-mesh/src/meshsec.rs:289-315 | a packet no key authenticates is refused and leaves the replay state unchanged |
| `MeshSec.CacheStepTracks` | lib/mb-proto-mesh/src/replay.rs:61-105 | across all keys of the cache, an accepted (key, counter) pair was never accepted before |
| `MeshSec.CacheStepCovers` | lib/mb-proto-mesh/src/replay.rs:61-105 | the same across all keys for windows at most one wider than their words |
| `MeshSec.NeverReopens` | lib/mb-proto-mesh/src/meshsec.rs:289-315 | once the counter a packet is charged to was accepted, the packet never opens again in any continuation |
| `MeshSec.OpensAtMostOnce` | lib/mb-proto-mesh/src/meshsec.rs:289-315 | over every run from a fresh cache whose window is at most one wider than its words, no packet opens twice |
| `MeshSec.OpensTwice` | lib/mb-proto-mesh/src/meshsec.rs:289-315 | for every wider window and every correct cipher suite, the very same sealed packet opens two times in a run of three openings |
| `MeshWire.HeaderLayout` | lib/mb-proto-mesh/src/meshsec.rs:77-83 | bytes 0 to 21 of a header: 1, hint, epoch byte, salt, counter with its least significant byte first |
| `MeshWire.HeaderErrors` | lib/mb-proto-mesh/src/meshsec.rs:85-107 | a header is refused iff the packet is shorter than 38 bytes or its first byte is not 1 |
| `MeshWire.PackLayout` | lib/mb-proto-mesh/src/meshsec.rs:110-131 | length high byte first, clear bytes, zeros up to 128, 384 or 1024 |
| `MeshWire.UnpackMeans` | lib/mb-proto-mesh/src/meshsec.rs:133-142 | which bytes unpacking returns, and when it fails |
| `MeshWire.NonceLayout` | lib/mb-proto-mesh/src/meshsec.rs:167-171 | 24 bytes: the counter, least significant byte first, and sixteen zeros |
| `MeshWire.NoncesDiffer` | lib/mb-proto-mesh/src/meshsec.rs:167-171 | different counters have different nonces |
| `MeshWire.LexLeAt` | lib/mb-proto-mesh/src/meshsec.rs:160-162 | ids compare by their first different character, a proper prefix first |
| `MeshWire.DirectionsDiffer` | lib/mb-proto-mesh/src/meshsec.rs:160-162 | the two directions between two nodes carry the two different tags |
| `MeshWire.SealGives` | lib/mb-proto-mesh/src/meshsec.rs:212-244 | for every cipher suite, the header fields of a sealed packet and exactly what its body encrypts: packed bytes under the key of static key, epoch, sender, direction and salt, the nonce of the counter, and the header as associated data |
| `MeshWire.SealFailsIff` | lib/mb-proto-mesh/src/meshsec.rs:212-244 | sealing fails iff there are more than 1022 clear bytes |
| `MeshWire.TryDecryptGives` | lib/mb-proto-mesh/src/meshsec.rs:258-283 | for every cipher suite, what one key hands to decryption, read off the packet |
| `MeshWire.InputBindsHeader` | lib/mb-proto-mesh/src/meshsec.rs:258-283 | two packets hand decryption the same input iff key, epoch, sender, direction and all 22 header bytes agree |
| `MeshWire.OpenedIsAuthentic` | lib/mb-proto-mesh/src/meshsec.rs:289-315 | clear bytes come out only of a packet that a configured key authenticated at an accepted epoch, cut to the length it carries, under that key's peer |
| `MeshWire.TxKeyBinds` | lib/mb-proto-mesh/src/meshsec.rs:188-207 | two transmit keys agree only if static key, epoch, sender, direction and salt agree, or the derivation collides |
| `MeshWire.KeyAndNonceNeverReused` | lib/mb-proto-mesh/src/meshsec.rs:167-244 | no two seals share key and nonce unless all of these and the counter agree, or the derivation collides |
| `Swrr.Swrr.Pick` | lib/mb-loadbalance/src/lib.rs:55-69 | the in-place loops raise every counter, choose the leftmost largest and charge it the total |
| `Swrr.Swrr.SumWeights` | lib/mb-loadbalance/src/lib.rs:55-69 | the total of all weights |
| `Swrr.BestIsBest` | lib/mb-loadbalance/src/lib.rs:55-69 | the scan finds the leftmost largest counter |
| `Swrr.CounterIsDebt` | lib/mb-loadbalance/src/lib.rs:42-70 | after n picks counter i is n times its weight minus the total times its picks |
| `Swrr.CountersSumToZero` | lib/mb-loadbalance/src/lib.rs:42-70 | counters sum to zero after every pick |
| `Swrr.PicksSum` | lib/mb-loadbalance/src/lib.rs:42-70 | every pick is counted for exactly one candidate |
| `Swrr.CounterFloor` | lib/mb-loadbalance/src/lib.rs:42-70 | no counter ever falls to minus the total |
| `Swrr.NeverAhead` | lib/mb-loadbalance/src/lib.rs:42-70 | at every moment a candidate is less than one pick ahead of its share |
| `Swrr.ExactShare` | lib/mb-loadbalance/src/lib.rs:42-70 | after k rounds each candidate was picked exactly k times its weight and all counters are zero |
| `Swrr.CounterCeiling` | lib/mb-loadbalance/src/lib.rs:42-70 | a counter is at most (candidates - 1) times (total - 1) |
| `Swrr.CountersFitI64` | lib/mb-loadbalance/src/lib.rs:42-70 | below 2^15 candidates no value leaves the range of `i64` |
| `Wrr.SlotAt` | lib/mb-loadbalance/src/lib.rs:26-39 | position of each repetition in the list that repeats every candidate weight times |
| `Wrr.Wrr.Pick` | lib/mb-loadbalance/src/lib.rs:26-39 | the n-th pick is entry n modulo W of the weighted list, and the loop ends |
| `Wrr.PickEndsIff` | lib/mb-loadbalance/src/lib.rs:26-39 | from any state the loop returns after some number of turns if and only if some weight is positive |
| `Wrr.PickByHash` | lib/mb-loadbalance/src/lib.rs:80-100 | the scan returns entry h modulo W of the same list, and nothing only when W is zero |
| `Wrr.TakenWithin` | lib/mb-loadbalance/src/lib.rs:26-39 | how often each candidate was taken at any point inside the first round |
| `Wrr.NthRepeats` | lib/mb-loadbalance/src/lib.rs:26-39 | picks repeat with period W |
| `Wrr.RoundShare` | lib/mb-loadbalance/src/lib.rs:26-39 | any W consecutive picks take each candidate exactly its weight |
| `Rendezvous.Pick` | lib/mb-loadbalance/src/lib.rs:334-359 | the loop returns the id of the winner, or none |
| `Rendezvous.WinnerWins` | lib/mb-loadbalance/src/lib.rs:334-359 | the winner is eligible, beats everything before it and is not beaten later; none only when nothing is eligible |
| `Rendezvous.WinsUnique` | lib/mb-loadbalance/src/lib.rs:334-359 | only one position can win |
| `Rendezvous.MinimalDisruption` | lib/mb-loadbalance/src/lib.rs:334-359 | adding or removing a candidate anywhere changes the choice only if that candidate is itself chosen |
| `Lease.SourceLeaseRotate.Pick` | lib/mb-loadbalance/src/lib.rs:246-314 | decision and table are those of the lease specification |
| `Lease.DecisionIsOffered` | lib/mb-loadbalance/src/lib.rs:246-314 | a decision always names a current candidate, and the table records it |
| `Lease.AnsweredIff` | lib/mb-loadbalance/src/lib.rs:246-314 | no answer iff nothing is offered, or a forced switch has no other id to go to |
| `Lease.GenerationStep` | lib/mb-loadbalance/src/lib.rs:246-314 | a hit keeps the generation, a re-pick raises it by one, and other sources are untouched |
| `Lease.HardSwitches` | lib/mb-loadbalance/src/lib.rs:246-314 | a hard rotation moves to another id whenever one is offered |
| `Lease.RepickIsBest` | lib/mb-loadbalance/src/lib.rs:246-359 | a re-pick takes the first best score for the source and the new generation, weight 0 counting as 1; a hard rotation bars the id it leaves |
| `Lease.LimitsAtLeastOne` | lib/mb-loadbalance/src/lib.rs:215-225 | the idle timeout and the maximum age are at least one |
| `Lease.StepEntry` | lib/mb-loadbalance/src/lib.rs:246-314 | what a call leaves in the table for any source |
| `Lease.RotationSpacing` | lib/mb-loadbalance/src/lib.rs:246-332 | in every run a rotation comes at least the maximum age and the cooldown after the pick it replaces |
| `Lease.BusyLeaseNeverMoves` | lib/mb-loadbalance/src/lib.rs:246-332 | with rotation off, a source with live flows keeps its candidate for as long as it is offered |
| `Lease.GenerationBound` | lib/mb-loadbalance/src/lib.rs:246-314 | generations stay below the number of calls |
| `Lease.AnswersAreDecisions` | lib/mb-loadbalance/src/lib.rs:246-314 | the decisions of a run are the answers call by call |
| `LeaseRuns.TableFromHistory` | lib/mb-loadbalance/src/lib.rs:246-314 | after every run the table holds, per source, the last pick with its time and cooldown and the time of the last answer, and nothing else |
| `LeaseRuns.ReasonFromHistory` | lib/mb-loadbalance/src/lib.rs:246-332 | in every run the reason, generation and kept candidate of an answer follow from the last pick and last answer of its source: lost candidate, quiet for the timeout (live flows never, a reported idle time in place of the last answer), age and cooldown reached, in this order, each if and only if |
| `LeaseRuns.FrequentSourceStays` | lib/mb-loadbalance/src/lib.rs:246-332 | with rotation off a source that calls within the timeout each time keeps candidate and generation at every call, and the first later call is answered by an idle re-pick |
| `DnsName.FromAsciiKeeps` | lib/mb-proto-dns/src/types.rs:59-74 | canonical text is taken as it is |
| `DnsName.LengthOctetBits` | lib/mb-proto-dns/src/decode.rs:82-138 | the bit tests on a length octet are the comparisons the model uses |
| `DnsName.WalkProgress` | lib/mb-proto-dns/src/decode.rs:82-138 | on any bytes the walk ends, and on success moves forward and not past the end, through any compression |
| `DnsName.NameProgress` | lib/mb-proto-dns/src/decode.rs:82-138 | a decoded name moves the position forward, inside the buffer |
| `DnsName.EncodeLabelsOk` | lib/mb-proto-dns/src/encode.rs:35-45 | a name encodes iff every label has at most 63 bytes |
| `DnsName.RejoinedKeeps` | lib/mb-proto-dns/src/types.rs:80-82 | rejoining the non-empty labels gives the text back iff no label was empty |
| `DnsName.NameReadsBack` | lib/mb-proto-dns/src/encode.rs:35-45 | a name written anywhere in a buffer reads back as its non-empty labels |
| `DnsName.NameRoundTrip` | lib/mb-proto-dns/src/decode.rs:82-138 | the very same name comes back if and only if it is the root or has no empty label |
| `DnsName.EmptyLabelIsLost` | lib/mb-proto-dns/src/types.rs:59-82 | the name "a..b" encodes and comes back as "a.b." |
| `DnsRoundTrip.PartsRoundTrip` | lib/mb-proto-dns/src/encode.rs:86-94 | character strings of a TXT record read back |
| `DnsRoundTrip.DataRoundTrip` | lib/mb-proto-dns/src/decode.rs:151-208 | record data of every type but OPT reads back |
| `DnsRoundTrip.OptRoundTrip` | lib/mb-proto-dns/src/encode.rs:49-73 | an OPT record, with its fields spread over class and time to live, reads back |
| `DnsRoundTrip.RecordRoundTrip` | lib/mb-proto-dns/src/decode.rs:140-218 | every canonical record reads back and ends where its bytes end |
| `DnsRoundTrip.QuestionRoundTrip` | lib/mb-proto-dns/src/encode.rs:19-23 | every question reads back |
| `DnsRoundTrip.MessageRoundTrip` | lib/mb-proto-dns/src/decode.rs:45-80 | every canonical message encodes, and decodes to itself whatever bytes follow |
| `DnsCanonical.RecordReturns` | lib/mb-proto-dns/src/decode.rs:140-218 | any encodable record that decodes ends where its bytes end, and is itself only if it is canonical |
| `DnsCanonical.MessageReturnsIff` | lib/mb-proto-dns/src/decode.rs:45-80 | an encodable message comes back from its own bytes if and only if it is canonical |
| `DnsRoundTrip.RecordProgress` | lib/mb-proto-dns/src/decode.rs:140-218 | a decoded record ends later than it starts, inside the buffer |
| `DnsRoundTrip.RecordsProgress` | lib/mb-proto-dns/src/decode.rs:45-80 | a decoded section has exactly the count asked for and stays inside the buffer |
| `DnsLayout.NumberLayout` | lib/mb-proto-dns/src/encode.rs:4-33 | two- and four-octet numbers stand high octet first |
| `DnsLayout.CodeOf` | lib/mb-proto-dns/src/types.rs:22-30 | the type codes as octets: 1, 5, 12, 16, 28, 41, 255 |
| `DnsLayout.TypeOf` | lib/mb-proto-dns/src/types.rs:33-44 | a code stands for a type iff it is that type's code |
| `DnsLayout.NameReads` | lib/mb-proto-dns/src/decode.rs:82-138 | length-prefixed labels and a zero octet read as the labels in lower case |
| `DnsLayout.CompressedReads` | lib/mb-proto-dns/src/decode.rs:82-138 | labels followed by a pointer to an earlier name read as the labels of both, and two octets are taken for the pointer |
| `DnsLayout.ChainReads` | lib/mb-proto-dns/src/decode.rs:82-138 | a name behind one to sixteen backward pointers reads as its labels |
| `DnsLayout.LongChainIsRefused` | lib/mb-proto-dns/src/decode.rs:104-110 | seventeen pointers are refused as a loop |
| `DnsLayout.ForwardPointerIsRefused` | lib/mb-proto-dns/src/decode.rs:111-114 | a pointer that does not lead backwards is refused as a loop |
| `DnsLayout.NameLayout` | lib/mb-proto-dns/src/encode.rs:35-45 | a written name is its labels, each behind its length, and a zero octet |
| `DnsLayout.QuestionLayout` | lib/mb-proto-dns/src/encode.rs:19-23 | a written question ends in its type code and class 1 |
| `DnsLayout.RecordLayout` | lib/mb-proto-dns/src/encode.rs:75-106 | a written record: name, type code, class 1, time to live, length, data |
| `DnsLayout.DataLayout` | lib/mb-proto-dns/src/encode.rs:75-106 | record data as octets: address, name, length-prefixed texts, raw |
| `DnsLayout.OptLayout` | lib/mb-proto-dns/src/encode.rs:49-73 | the octets of an OPT record |
| `DnsLayout.HeaderLayout` | lib/mb-proto-dns/src/encode.rs:4-33 | octets 0 to 11: id, flags and the four counts, then questions and records in order |
| `DnsLayout.RecordEncodesIff` | lib/mb-proto-dns/src/encode.rs:47-106 | a record is written iff labels, texts, options and data keep to their limits |
| `DnsLayout.MessageEncodesIff` | lib/mb-proto-dns/src/encode.rs:4-33 | a message is written iff no section has more than 65535 entries and every entry is written |
| `DnsLayout.QuestionReads` | lib/mb-proto-dns/src/decode.rs:45-80 | a question read from its raw octets, whatever its class |
| `DnsLayout.RecordReads` | lib/mb-proto-dns/src/decode.rs:140-218 | a record read from its raw octets, or cut short |
| `DnsLayout.DataReads` | lib/mb-proto-dns/src/decode.rs:151-208 | codes 1, 28, 41 and unknown ones: what their octets mean, and when they are refused |
| `DnsLayout.NameDataReads` | lib/mb-proto-dns/src/decode.rs:151-208 | codes 5 and 12 hold a name |
| `DnsLayout.TextDataReads` | lib/mb-proto-dns/src/decode.rs:182-196 | code 16 holds texts, each behind its length |
| `DnsLayout.HeaderReads` | lib/mb-proto-dns/src/decode.rs:45-80 | a decoded message has the header of the first twelve octets and as many entries as it counts |
| `Utf8.WellFormedIffText` | lib/mb-proto-dns/src/decode.rs:182-196 | the text check accepts exactly the UTF-8 forms of texts |
| `DnsCodec.ReadLabel` | lib/mb-proto-dns/src/decode.rs:82-138 | the label's characters lower-cased, or nothing iff one byte is not ASCII |
| `DnsCodec.ReadParts` | lib/mb-proto-dns/src/decode.rs:182-196 | the loop gathers the character strings of the specification, with its errors |
| `DnsCodec.Cursor.Name` | lib/mb-proto-dns/src/decode.rs:82-138 | the loop over labels and hops returns the name and moves the cursor as the recursive walk does, and ends |
| `DnsCodec.Cursor.RData` | lib/mb-proto-dns/src/decode.rs:151-208 | data by type, with the length and text errors of the specification |
| `DnsCodec.Cursor.Record` | lib/mb-proto-dns/src/decode.rs:140-218 | record and cursor of the specification |
| `DnsCodec.Cursor.Records` | lib/mb-proto-dns/src/decode.rs:45-80 | the section loop returns the specification's records |
| `DnsCodec.Cursor.Questions` | lib/mb-proto-dns/src/decode.rs:45-80 | the question loop returns the specification's questions |
| `DnsCodec.Decode` | lib/mb-proto-dns/src/decode.rs:45-80 | the whole message, or the first error |
| `DnsCodec.Writer.Name` | lib/mb-proto-dns/src/encode.rs:35-45 | appends the encoded name, or fails on a long label |
| `DnsCodec.Writer.Parts` | lib/mb-proto-dns/src/encode.rs:86-94 | appends the character strings, or fails on a long one |
| `DnsCodec.Writer.PlainRecord` | lib/mb-proto-dns/src/encode.rs:75-106 | writing a zero length and patching it in place gives the record with its true length |
| `DnsCodec.Writer.Record` | lib/mb-proto-dns/src/encode.rs:47-106 | appends the encoded record, or gives the specification's error |
| `DnsCodec.Writer.Records` | lib/mb-proto-dns/src/encode.rs:4-33 | appends the records of a section in order |
| `DnsCodec.Encode` | lib/mb-proto-dns/src/encode.rs:4-33 | the message's bytes, or its first error |
| `DnsFraming.FrameRoundTrip` | lib/mb-proto-dns/src/framing.rs:3-19 | a framed message is read back exactly, whatever follows |
| `DnsFraming.FrameLayout` | lib/mb-proto-dns/src/framing.rs:3-7 | a frame is the length, high octet first, and the message |
| `DnsFraming.TryReadStable` | lib/mb-proto-dns/src/framing.rs:9-19 | more bytes never change a frame that is already whole |
| `DnsFraming.Connection.ReadOneFrame` | crates/mesh-bus-resolver/src/m1.rs:130-145 | which frame comes out, and what stays unread, depends on the bytes alone and not on the chunks |
| `DnsFraming.ConversationRoundTrip` | lib/mb-proto-dns/src/framing.rs:3-19 | the frames of a framed conversation are its messages in order |
| `DnsFraming.ReadAll` | crates/mesh-bus-resolver/src/m1.rs:130-145 | repeated reads return exactly the frames of the stream for every chunking, and leave the incomplete rest |
| `QuicVarint.VarintRoundTrip` | lib/mb-quic/src/packet.rs:10-49 | every value below 2^62 reads back from anywhere in a buffer, with its length |
| `QuicVarint.FirstByteBits` | lib/mb-quic/src/packet.rs:37-49 | the shift and mask on the first byte are the division and remainder the model uses |
| `QuicLayout.VarintLayout` | lib/mb-quic/src/packet.rs:10-21 | an integer is written in the fewest bytes, high byte first, with its length in the top two bits |
| `QuicLayout.VarintReadsIff` | lib/mb-quic/src/packet.rs:37-49 | an integer is read iff all the bytes its first one announces are there |
| `QuicLayout.VarintReads` | lib/mb-quic/src/packet.rs:37-49 | any form of an integer, the shortest or not, is read byte by byte with the announced length masked out |
| `QuicVarint.ReadVarint` | lib/mb-quic/src/packet.rs:37-49 | the byte loop returns the big-endian value of the specification |
| `QuicFrame.StreamTypeBits` | lib/mb-quic/src/frame.rs:345-383 | the flag bits of a STREAM type byte are the ones the model reads |
| `QuicRoundTrip.RangesRoundTrip` | lib/mb-quic/src/frame.rs:262-296 | acknowledgement ranges read back |
| `QuicRoundTrip.FrameRoundTrip` | lib/mb-quic/src/frame.rs:133-470 | every encodable frame but padding reads back, whatever follows |
| `QuicRoundTrip.PayloadRoundTrip` | lib/mb-quic/src/frame.rs:251-485 | decoding an encoded list of frames gives the list with padding coalesced and nothing else changed |
| `QuicRoundTrip.CoalesceKeeps` | lib/mb-quic/src/frame.rs:474-485 | coalescing changes nothing iff the padding is tidy |
| `QuicRoundTrip.ExactRoundTrip` | lib/mb-quic/src/frame.rs:133-485 | the very same list comes back if and only if no padding is empty or adjacent to other padding |
| `QuicRoundTrip.AdjacentPaddingMerges` | lib/mb-quic/src/frame.rs:254-260 | two one-byte paddings come back as one of two |
| `QuicRoundTrip.DecodedFramesTile` | lib/mb-quic/src/frame.rs:474-485 | on any bytes that decode, the consumed lengths tile the buffer exactly |
| `QuicReencode.DecodedEncodable` | lib/mb-quic/src/frame.rs:251-470 | a decoded frame can be encoded again unless it is a datagram to the end of the payload that is larger than a frame may carry |
| `QuicReencode.DecodedReencodes` | lib/mb-quic/src/frame.rs:474-485 | on any bytes that decode, the frames are tidy, can be encoded again iff no datagram is too large, and then decode to the very same frames |
| `QuicLayout.BareReads` | lib/mb-quic/src/frame.rs:251-470 | types 0x01, 0x1E and 0x30 (a datagram to the end), and every type byte that is refused |
| `QuicLayout.PaddingReads` | lib/mb-quic/src/frame.rs:254-260 | a run of zero bytes is one padding |
| `QuicLayout.IntegersRead` | lib/mb-quic/src/frame.rs:298-417 | every type byte followed by integers alone, and which integer is which field |
| `QuicLayout.AckReads` | lib/mb-quic/src/frame.rs:262-296 | types 0x02 and 0x03, the latter with three skipped counts |
| `QuicLayout.CryptoReads` | lib/mb-quic/src/frame.rs:330-344 | type 0x06, with the limit and short-buffer errors |
| `QuicLayout.StreamReads` | lib/mb-quic/src/frame.rs:345-383 | types 0x0A, 0x0B, 0x0E and 0x0F: a length, and an offset exactly with bit 4 |
| `QuicLayout.StreamToEndReads` | lib/mb-quic/src/frame.rs:345-383 | types 0x08, 0x09, 0x0C and 0x0D take the rest of the buffer |
| `QuicLayout.HandWrittenStream` | lib/mb-quic/src/frame.rs:345-383 | type byte, stream id and data, without a length, read as that stream frame, all bytes taken |
| `QuicLayout.CloseReads` | lib/mb-quic/src/frame.rs:418-446 | types 0x1C and 0x1D keep code and reason, whatever frame type a transport close names |
| `QuicLayout.DatagramReads` | lib/mb-quic/src/frame.rs:452-465 | type 0x31 with a length |
| `QuicLayout.FrameLayout` | lib/mb-quic/src/frame.rs:133-248 | every frame but padding is written as its type byte, its integers in order and shortest form, and its bytes |
| `QuicLayout.PaddingLayout` | lib/mb-quic/src/frame.rs:133-140 | padding is written as that many zero bytes |
| `QuicCodec.CountPadding` | lib/mb-quic/src/frame.rs:254-260 | the padding loop counts the whole run of zero bytes |
| `QuicCodec.ReadRanges` | lib/mb-quic/src/frame.rs:272-279 | the range loop returns the specification's ranges or error |
| `QuicCodec.ReadAck` | lib/mb-quic/src/frame.rs:262-296 | four integers, the counted ranges and the skipped ECN counts give the ACK of the specification |
| `QuicCodec.ReadStream` | lib/mb-quic/src/frame.rs:345-383 | the optional offset and length, and a payload that may run to the end, give the STREAM of the specification |
| `QuicCodec.ReadClose` | lib/mb-quic/src/frame.rs:418-446 | the frame type skipped on transport closes, then the reason, give the close of the specification |
| `QuicCodec.ReadFrame` | lib/mb-quic/src/frame.rs:251-470 | each branch, reading its integers one after the other, returns the frame and consumed length of the specification |
| `QuicCodec.ReadPayload` | lib/mb-quic/src/frame.rs:474-485 | the loop over the shrinking buffer returns the frames of the specification |
| `QuicCodec.Output.WriteFrame` | lib/mb-quic/src/frame.rs:133-248 | each branch, pushing its type byte, integers and payload one after the other, appends the encoding that the round trips are about |
| `QuicFlow.FlowController.ConsumeBytes` | lib/mb-quic/src/flow_control.rs:41-47 | counts the bytes iff they fit the limit |
| `QuicFlow.FlowController.RaiseLimit` | lib/mb-quic/src/flow_control.rs:52-56 | the limit becomes the larger one |
| `QuicFlow.FlowController.Extend` | lib/mb-quic/src/flow_control.rs:60-67 | offers and adopts a new limit exactly when at most half the window is left, and overflows exactly when the doubled credit or a new limit exceeds `u64` |
| `QuicFlow.ConsumeMeans` | lib/mb-quic/src/flow_control.rs:41-47 | bytes are counted iff they fit, and what is left shrinks by exactly them |
| `QuicFlow.ExtendMeans` | lib/mb-quic/src/flow_control.rs:60-67 | a new limit is offered iff at most half the window is left, and leaves a whole window |
| `QuicFlow.StepKeeps` | lib/mb-quic/src/flow_control.rs:25-67 | every step of the two-party protocol keeps its invariant and lowers no limit |
| `QuicFlow.RunKeeps` | lib/mb-quic/src/flow_control.rs:25-67 | the same over every run |
| `QuicFlow.NeverRefused` | lib/mb-quic/src/flow_control.rs:25-67 | in every run that delivers each chunk at most once, whatever limit updates are lost, repeated or reordered, the sender's limit never passes the receiver's and no permitted byte is refused |
| `QuicFlow.SafeIff` | lib/mb-quic/src/conn.rs:609-657 | after any run with any repeated deliveries, no fresh traffic is ever refused from there on if and only if nothing was refused so far and no more bytes were repeated than given up |
| `QuicFlow.RepeatCrowdsOutFresh` | lib/mb-quic/src/conn.rs:609-622 | one repeated byte makes the receiver refuse the last byte the sender was allowed to send |
| `QuicFlow.RevivesIff` | lib/mb-quic/src/flow_control.rs:60-67 | a blocked sender with nothing in flight that hears no earlier update is ever announced new credit by fresh traffic, whatever both ends do, if and only if at most half the window is still unused at the receiver |
| `QuicFlow.RepeatRevives` | lib/mb-quic/src/conn.rs:609-622 | the way out: a repeated delivery that fits and brings the unused rest down to half the window makes the receiver announce new credit |
| `QuicFlow.LostUpdateDeadlocks` | lib/mb-quic/src/conn.rs:648-657 | when the one update after a full window is lost, no fresh traffic ever brings new credit, and only a repeated delivery does |
| `QuicStream.RecvStream.IngestChunk` | lib/mb-quic/src/stream.rs:69-80 | the new state of the ingest specification |
| `QuicStream.RecvStream.ReadPrefix` | lib/mb-quic/src/stream.rs:83-97 | the loop over the lowest chunk returns the bytes and state of the specification |
| `QuicStream.DrainAgrees` | lib/mb-quic/src/stream.rs:83-97 | what a drain hands out is the sent bytes between the two offsets |
| `QuicStream.DrainStops` | lib/mb-quic/src/stream.rs:83-97 | a drain forgets nothing held and stops at the first byte not held |
| `QuicStream.OrderedDelivery` | lib/mb-quic/src/stream.rs:59-102 | over every run of reordered, repeated and overlapping chunks the application gets a prefix of what was sent, and is told it is finished only when that is everything |
| `QuicStream.FinishedIff` | lib/mb-quic/src/stream.rs:59-102 | over every run from the start the stream is finished iff its end has arrived and all of it was given out |
| `QuicStream.ReadStopsAtGap` | lib/mb-quic/src/stream.rs:83-97 | a read goes exactly up to the first byte not held |
| `QuicStream.IngestAdds` | lib/mb-quic/src/stream.rs:69-80 | an arrival adds exactly its unread bytes when its start is free and nothing otherwise, and loses nothing held |
| `QuicStream.AbsorbedIff` | lib/mb-quic/src/stream.rs:69-80 | an arrival is absorbed whole if and only if its start is free or it brings nothing new |
| `QuicStream.LongerRepeatIsDropped` | lib/mb-quic/src/stream.rs:69-80 | a longer chunk at an occupied start loses its extra bytes |
| `Geosite.ForEachMatch` | lib/mb-geosite/src/lib.rs:126-137 | the walk visits exactly the tags on the host's path, shortest suffix first |
| `Geosite.InsertAddsOneTag` | lib/mb-geosite/src/lib.rs:118-124 | inserting appends the tag at its own node and changes no other |
| `Geosite.BuildFilesTags` | lib/mb-geosite/src/lib.rs:48-91 | each node holds the tags filed under its path, in file order |
| `Geosite.TrieIsScan` | lib/mb-geosite/src/lib.rs:93-137 | a trie lookup lists exactly what a linear scan lists, by suffix length and then file order |
| `GeositeFile.Parse` | lib/mb-geosite/src/lib.rs:48-91 | the trie of all valid lines of the file body, or the first error |
| `GeositeFile.NormalizeMeans` | lib/mb-geosite/src/lib.rs:140-146 | space, then dots, around a host are dropped and its letters become lower case |
| `GeositeFile.ValidLineIsFiled` | lib/mb-geosite/src/lib.rs:48-91 | a line of a valid tag, a colon and a valid suffix, in any case and with space around it, files that tag under that suffix in lower case |
| `GeositeFile.FiledTagIsFound` | lib/mb-geosite/src/lib.rs:48-101 | end to end, a line `tag:suffix` of a valid file makes the lower-case tag be found for every host under the suffix |
| `GeositeFile.LinesRoundTrip` | lib/mb-geosite/src/lib.rs:48-54 | lines written out with newlines are read back as those lines |
| `GeositeFile.LookupPacked` | lib/mb-geosite/src/lib.rs:103-116 | the tags of the lookup, separated by NUL |
| `GeositeFile.PathPrefixIsDomain` | lib/mb-geosite/src/lib.rs:118-137 | reversed-label paths are prefixes exactly when the host lies under the suffix |
| `GeositeFile.LookupMeaning` | lib/mb-geosite/src/lib.rs:93-101 | a tag is found iff some line carries it for a suffix the host lies under |
| `GeositeFile.PackRoundTrip` | crates/mesh-bus-pipeline-hooks/src/rule.rs:62-69 | the hook's split undoes the NUL packing |
| `GeositeFile.HookSeesLookup` | crates/mesh-bus-pipeline-hooks/src/rule.rs:62-69 | for every valid file and host the hook sees exactly the lookup's list |
| `Parity.XorParity` | lib/mb-proto-mesh/src/lib.rs:323-332 | the in-place loops compute the column-wise XOR, as wide as the longest chunk |
| `Parity.OneMissing` | lib/mb-proto-mesh/src/lib.rs:338-347 | the early-exit scan tells whether exactly one slot is missing |
| `Parity.ReconstructMissing` | lib/mb-proto-mesh/src/lib.rs:337-358 | returns a chunk iff exactly one slot is missing, folding the survivors into the parity |
| `Parity.ColumnWithout` | lib/mb-proto-mesh/src/lib.rs:323-358 | leaving a chunk out of a column leaves exactly its byte out |
| `Parity.LostChunkReturns` | lib/mb-proto-mesh/src/lib.rs:323-358 | any one lost chunk of any generation comes back, zero-padded to the longest length |
| `Reorder.CollectGaps` | lib/mb-reorder/src/lib.rs:145-174 | the loop collects the specification's missing ranges |
| `Reorder.MissingIsExact` | lib/mb-reorder/src/lib.rs:145-174 | a number is reported missing iff it lies from the frontier to the highest seen and is not buffered |
| `Reorder.MissingRangesApart` | lib/mb-reorder/src/lib.rs:145-174 | ranges are non-empty, ascending and never touch |
| `Reorder.FamilyReorderState.TakeReady` | lib/mb-reorder/src/lib.rs:112-143 | the loop releases the consecutive packages at the frontier |
| `Reorder.FamilyReorderState.PushPackage` | lib/mb-reorder/src/lib.rs:112-143 | outcome and state of the push specification |
| `Reorder.ReleaseIsRun` | lib/mb-reorder/src/lib.rs:112-143 | a release hands out consecutive numbers and stops at the first absent one |
| `Reorder.StepKeeps` | lib/mb-reorder/src/lib.rs:112-143 | every push keeps delivered, buffered and arrived packages in agreement |
| `Reorder.RunKeeps` | lib/mb-reorder/src/lib.rs:112-143 | the same over every run |
| `Reorder.InOrderOnce` | lib/mb-reorder/src/lib.rs:67-143 | over every run packages are delivered once each, in order, as first arrived; the frontier is the first number not arrived; the bitmap is exactly the buffer |
| `Reorder.OutcomeFromArrivals` | lib/mb-reorder/src/lib.rs:97-143 | over every run a push is a repeat, a delivery, an overflow of the window of at most 128, a gap or buffered, each exactly by its number, the frontier and what has arrived |
| `Reorder.ClosedIff` | lib/mb-reorder/src/lib.rs:112-143 | the family is closed iff some push overflowed the window |
| `Reorder.ClosedStays` | lib/mb-reorder/src/lib.rs:112-116 | once closed, nothing changes |
| `PathControl.MeshRttEstimator.Record` | lib/mb-mesh-control/src/lib.rs:61-80 | the estimator's fields after a sample |
| `PathControl.EstimatesInRange` | lib/mb-mesh-control/src/lib.rs:61-80 | after any samples the minimum is the least one, and smoothed value and variation stay within the samples' range |
| `PathControl.SteadyPath` | lib/mb-mesh-control/src/lib.rs:61-80 | on a path with a constant round trip the estimate is exact from the first sample and the variation shrinks by a quarter each time, whatever delays are reported |
| `PathControl.SampleWeighs` | lib/mb-mesh-control/src/lib.rs:61-80 | a later sample counts an eighth of the smoothed value and a quarter of the variation, rounded down, less the reported delay up to 25 ms where that leaves the minimum |
| `PathControl.FirstSample` | lib/mb-mesh-control/src/lib.rs:40-80 | the first sample is taken as it is |
| `PathControl.Converges` | lib/mb-mesh-control/src/lib.rs:61-80 | when a path settles, the smoothed value comes closer by an eighth of the rest with every sample, down to the rounding |
| `PathControl.FreshAndExpired` | lib/mb-mesh-control/src/lib.rs:96-179 | the first window, and what a timeout changes |
| `PathControl.NoOverflow` | lib/mb-mesh-control/src/lib.rs:61-80 | with samples below 2^61 no intermediate value, with the delay-adjusted sample, leaves `u64` |
| `PathControl.MeshPathController.Sent` | lib/mb-mesh-control/src/lib.rs:131-137 | the state of the sending specification |
| `PathControl.MeshPathController.Acknowledge` | lib/mb-mesh-control/src/lib.rs:139-169 | the loop over the keys gives the update and state of the specification, lowest number first |
| `PathControl.MeshPathController.PtoExpired` | lib/mb-mesh-control/src/lib.rs:176-179 | the state of the timeout specification |
| `PathControl.AckSplits` | lib/mb-mesh-control/src/lib.rs:139-169 | an acknowledgement leaves nothing in flight and splits it, in ascending order, into lost (reported missing) and acknowledged (not) |
| `PathControl.AckGrows` | lib/mb-mesh-control/src/lib.rs:139-169 | the window grows by exactly the ack-eliciting bytes not reported missing, saturating, and the estimator takes their samples in order |
| `PathControl.SettleClears` | lib/mb-mesh-control/src/lib.rs:139-169 | the byte counter ends at zero, even when packages that were never counted are reported missing |
| `PathControl.SentStaysExact` | lib/mb-mesh-control/src/lib.rs:131-137 | sending keeps the byte counter exact if and only if the package it replaces weighs just what saturation drops |
| `PathControl.BytesInFlightExact` | lib/mb-mesh-control/src/lib.rs:131-179 | over every run without a counted replacement or overflow the counter is the ack-eliciting bytes in flight |
| `PathControl.BudgetKeepsWindow` | lib/mb-mesh-control/src/lib.rs:127-179 | over every run whose sends keep to the budget, the bytes counted in flight never exceed the window |
| `PathControl.BudgetIsLargest` | lib/mb-mesh-control/src/lib.rs:127-137 | short of saturation a send stays within the window iff it keeps to the budget |
| `PathControl.WindowNeverShrinks` | lib/mb-mesh-control/src/lib.rs:131-179 | over every run the window stays at least its initial size, so the timeout floor never acts |
| `PathControl.AckedMeansArrived` | lib/mb-mesh-control/src/lib.rs:139-169 | with the receiver's own report, a package declared lost never arrived, and every one declared acknowledged arrived if and only if nothing in flight lies beyond what the receiver has seen |
| `PathControl.UnseenIsAcked` | lib/mb-mesh-control/src/lib.rs:139-169 | a package that never arrived is declared acknowledged |
| `Socks5.GreetingStable` | lib/mb-proto-socks5/src/lib.rs:136-158 | a decided greeting is unchanged by further bytes |
| `Socks5.UserPassStable` | lib/mb-proto-socks5/src/lib.rs:378-404 | a decided user/password message is unchanged by further bytes |
| `Socks5.HostStable` | lib/mb-proto-socks5/src/lib.rs:221-265 | a decided host is unchanged by further bytes |
| `Socks5.RequestStable` | lib/mb-proto-socks5/src/lib.rs:197-219 | a decided request is unchanged by further bytes, and consumes only bytes it has |
| `Socks5.GreetingRoundTrip` | lib/mb-proto-socks5/src/lib.rs:126-158 | an encoded greeting decodes to its methods, whatever follows |
| `Socks5.UserPassRoundTrip` | lib/mb-proto-socks5/src/lib.rs:362-404 | encoded credentials decode to themselves, whatever follows |
| `Socks5.HostRoundTrip` | lib/mb-proto-socks5/src/lib.rs:174-265 | a host in wire form decodes to itself at any offset |
| `Socks5.RequestRoundTrip` | lib/mb-proto-socks5/src/lib.rs:168-265 | a request with its host in wire form decodes to itself, whatever follows |
| `Socks5.NamedRequestRoundTrip` | lib/mb-proto-socks5/src/lib.rs:168-265 | a request for a host name comes back naming the same host, and with the same text if and only if the text spells no address or is what some address is printed as |
| `Socks5Layout.GreetingReads` | lib/mb-proto-socks5/src/lib.rs:136-158 | a greeting read from its octets, methods 0, 1 and 2 by name |
| `Socks5Layout.GreetingErrors` | lib/mb-proto-socks5/src/lib.rs:136-158 | which greetings are refused and which are not yet whole |
| `Socks5Layout.UserPassReads` | lib/mb-proto-socks5/src/lib.rs:378-404 | credentials read from their octets |
| `Socks5Layout.RequestReads` | lib/mb-proto-socks5/src/lib.rs:197-265 | a request read from its octets: command, host of each kind, port high octet first; port 0 is refused |
| `Socks5Layout.RequestErrors` | lib/mb-proto-socks5/src/lib.rs:197-265 | what refuses a request, in order |
| `Socks5Handshake.ReadGreeting` | crates/mesh-bus-ingress-socks5/src/auth.rs:53-92 | the read loop decodes the greeting of the whole stream, for every way of cutting it |
| `Socks5Handshake.ReadUserPass` | crates/mesh-bus-ingress-socks5/src/auth.rs:118-175 | the same for the user/password message |
| `Socks5Handshake.ReadRequest` | crates/mesh-bus-ingress-socks5/src/auth.rs:99-115 | the same for the request |
| `Socks5Handshake.Authenticate` | crates/mesh-bus-ingress-socks5/src/auth.rs:118-175 | the exchange's replies and outcome are those of the whole stream; a failed success reply gives up |
| `Socks5Handshake.ReadHandshake` | crates/mesh-bus-ingress-socks5/src/auth.rs:49-116 | outcome and everything written back depend on the bytes and on which writes succeed, not on how the bytes were cut into reads |
| `Socks5Handshake.CompletedMeansVerified` | crates/mesh-bus-ingress-socks5/src/auth.rs:49-175 | a completed handshake names a user iff users are configured, and then the stream carried that name with the configured password |
| `Socks5Handshake.ClientCompletes` | crates/mesh-bus-ingress-socks5/src/auth.rs:49-175 | a client that follows the protocol with valid credentials completes, and gets exactly the right replies, as long as they can be written |
| `Socks5Layout.Replies` | crates/mesh-bus-ingress-socks5/src/auth.rs:49-175 | the octets sent back in every case: 5 255; 5 0; 5 2; 5 2 1 255; 5 2 1 0 |
| `Socks5Layout.RepliesCutShort` | crates/mesh-bus-ingress-socks5/src/auth.rs:49-175 | with fewer writes the peer sees the first of these |
| `PeerStream.RecvHalf.Act` | crates/mesh-bus-egress-mesh-peer-udp/src/demux.rs:156-175 | queues a payload, or a queue-full event when there is no room, or an event |
| `PeerStream.RecvHalf.ApplyStreamEvent` | crates/mesh-bus-egress-mesh-peer-udp/src/lib.rs:518-530 | an event ends the stream, with an error unless it is a normal end |
| `PeerStream.RecvHalf.DrainData` | crates/mesh-bus-egress-mesh-peer-udp/src/lib.rs:495-499 | the drain loop moves the data queue into the pending buffer in step with the moves |
| `PeerStream.RecvHalf.Recv` | crates/mesh-bus-egress-mesh-peer-udp/src/lib.rs:479-510 | under every interleaving a call is a stretch of steps of the state machine, and what it returns is what it records |
| `PeerStream.EnvironmentKeeps` | crates/mesh-bus-egress-mesh-peer-udp/src/demux.rs:156-175 | every driver action keeps the invariant |
| `PeerStream.ReceiveKeeps` | crates/mesh-bus-egress-mesh-peer-udp/src/lib.rs:479-510 | every receiver action keeps the invariant |
| `PeerStream.RunKeeps` | crates/mesh-bus-egress-mesh-peer-udp/src/lib.rs:479-510 | the invariant holds after every list of moves |
| `PeerStream.DeliveredInOrder` | crates/mesh-bus-egress-mesh-peer-udp/src/lib.rs:479-510 | in every interleaving what was returned is a prefix of what was accepted |
| `PeerStream.TerminalIsLast` | crates/mesh-bus-egress-mesh-peer-udp/src/lib.rs:479-530 | an event ends the stream only after every payload accepted before it was filed has been returned |
| `PeerStream.DataEndIsComplete` | crates/mesh-bus-egress-mesh-peer-udp/src/lib.rs:492-494 | a stream ended by the data queue closing has returned everything |
| `PeerStream.QuietEndExact` | crates/mesh-bus-egress-mesh-peer-udp/src/lib.rs:489-508 | an end for a closed flag, a dropped send half or a closed event queue leaves nothing behind if and only if no payload was accepted since this call found the data queue empty |
| `PeerStream.EventEndCanDrop` | crates/mesh-bus-egress-mesh-peer-udp/src/lib.rs:495-508 | a run that ends with a payload still queued |
| `PeerStream.DroppedSenderCanDrop` | crates/mesh-bus-egress-mesh-peer-udp/src/lib.rs:489-493 | a run that ends with a payload still queued because the send half was dropped |
| `PeerCauses.FlagsMean` | crates/mesh-bus-egress-mesh-peer-udp/src/demux.rs:156-175 | in every run a flag or queue is closed iff the move that closes it has happened |
| `PeerCauses.OutcomeIff` | crates/mesh-bus-egress-mesh-peer-udp/src/lib.rs:479-510 | in every run a move ends the call iff it is a turn with an end before it (an event in hand and nothing pending, a flag set or the send half gone, a queue closed and empty), and returns a payload iff it is a turn with one in reach, which is then the next accepted |
| `PeerCauses.ReturnsInTwoTurns` | crates/mesh-bus-egress-mesh-peer-udp/src/lib.rs:479-487 | a call that begins while something accepted is unreturned returns the next payload by its second turn, whatever the driver does in between |
| `PeerCauses.EveryEndIsCaused` | crates/mesh-bus-egress-mesh-peer-udp/src/lib.rs:479-530 | in every run an end by an event goes back to a move that asked for it, at its place among the payloads; an end for a flag or queue to the move that set or closed it |
| `PeerCauses.QueuesBounded` | crates/mesh-bus-egress-mesh-peer-udp/src/demux.rs:156-175 | never more than 256 payloads and 16 events wait |
| `PeerCauses.ArrivalOutcome` | crates/mesh-bus-egress-mesh-peer-udp/src/demux.rs:156-175 | in every run an arriving payload is queued, refused with or without a queue-full event, or dropped after a close, each exactly when |
| `PeerOverflow.FiledUntilApplied` | crates/mesh-bus-egress-mesh-peer-udp/src/demux.rs:156-175 | over every run events are applied in the order they were filed: those filed are those applied, the one in hand and those queued, and the error reported is what the applied ones leave |
| `PeerOverflow.ErrorReportedIff` | crates/mesh-bus-egress-mesh-peer-udp/src/lib.rs:518-530 | in every run an error is reported if and only if some event that ended the stream was not an orderly end |
| `PeerCauses.ErrorIsLastLoud` | crates/mesh-bus-egress-mesh-peer-udp/src/lib.rs:518-530 | in every run the error is that of the last applied event that was not an orderly end: its own close reason, or the overflow |
| `PeerOverflow.FirstEndReports` | crates/mesh-bus-egress-mesh-peer-udp/src/lib.rs:479-530 | at the first end of any run an error is reported if and only if it is an end by an event and the first event ever filed was not an orderly end, and the overflow if and only if that event was filed for a refused payload |
| `PeerOverflow.FirstFiledIsFirstAsked` | crates/mesh-bus-egress-mesh-peer-udp/src/demux.rs:156-175 | the first event filed is the one the first shutdown, close or refusal asked for, whatever is dropped later |
| `PeerOverflow.SilentLoss` | crates/mesh-bus-egress-mesh-peer-udp/src/demux.rs:156-164 | for every number of waiting shutdowns from one to sixteen, with and without room for a queue-full event, a run in which a payload is refused and the stream ends normally without an error |

## Left out

- MeshSec.OpenSealed: assumes that only one configured key and accepted epoch authenticate the packet, which a real cipher gives only up to negligible probability; MeshSec.SealedOpensIffFresh, MeshSec.SealedOpensAfterRun and MeshSec.OpensTwice inherit this. `MeshSec.HypothesesCanBeMet` and `MeshSec.BlankIsOpenable` show that the assumptions are consistent.
- MeshSec.OpensAtMostOnce: assumes the packet authenticates under one epoch only, because the replay cache is kept per epoch; `MeshWire.TxKeyBinds` shows that the keys of two epochs differ unless the derivation collides.
- Wrr.Wrr.Pick: demands a positive total, which Wrr.PickEndsIff shows to be exactly when the loop returns.
- Geosite.InsertAddsOneTag: insertion is modelled on values, so updating the tree in place is not captured.
- QuicFlow.NeverRefused: covers runs without repeated deliveries; QuicFlow.SafeIff says exactly what repeats do.
- QuicStream.OrderedDelivery: all chunks are pieces of one sent stream; chunks that contradict each other are not modelled.
- PathControl.NoOverflow: beyond 2^61 microseconds the `u64` arithmetic is modelled without a bound.
- Socks5.HostRoundTrip: hosts are in wire form; Socks5.NamedRequestRoundTrip adds host names, with the reading and printing of addresses as parameters.
- Socks5Handshake.ReadHandshake: a failed write leaves nothing behind, a read error counts as the end of the stream, and bytes read after the request are dropped with the local buffer as meshbus does.
- PeerStream.RecvHalf.Recv: the scheduler is a given list of moves; fairness is not modelled.
- DnsCodec.Writer.RData: OPT data under a type other than OPT, where meshbus panics, gives an error.
- HKDF, HMAC and the AEAD are parameters with stated laws; FxHash and the `f64` rendezvous score are parameters too.
- Random padding contents, clocks and boot salts are parameters.
- Bincode frames, event builders and rule evaluation are not modelled.
- `StickyTable`, the loss timer, SOCKS5 replies and UDP headers, and QUIC packets, connections and send streams would only add easy members.
- Sockets, tasks, timeouts, configuration, command line, metrics and operator endpoints are not modelled.
