# Verified model of CensorLess

A Dafny 4.11 model of the parts of CensorLess whose correctness is not visible from one function:

- **The controller's matching** (`Markets`, `StableMatchings`, `DeferredAcceptance`): many-to-one deferred acceptance
  with capacities. The loops over the waiting list are proved to end in the client-optimal stable assignment, and what
  that means for every other stable assignment is proved beside it.
- **The controller's simulation** (`Preferences`, `ClientAddresses`, `Records`, `Simulation`): building the two sides'
  preference lists while clients are being flagged, writing the matches back, and whole runs of steps over the rows of
  proxies, clients and assignments. `Simulation` changes the rows in place, `Records` says what that comes to.
- **The wire formats** (`Bytes`, `Addresses`, `Unicode`, `Payloads`, `ClientMessages`, `ServerResponses`, `Framing`,
  `Layouts`, `Truncation`): serializers and deserializers of both message formats, the signed connection id and the
  envelope the lambda forwards, where each byte stands, and what becomes of bytes that were cut off.
- **The server** (`Words`, `Nonces`, `Sessions`, `Worlds`, `Accounts`, `Replies`, `Server`): the replay guard, the
  request handler as atomic steps of any number of clients that share one id counter, how each message is answered,
  what each target has been sent and what was read from it, and when each connection was last active.
- **The client's sender** (`LambdaSender`, `Promptness`, `Delivery`): batching, flushing and nonces, when a message
  goes out, and what reaches the server through serialization, encryption, envelope and lambda.
- **From queue to target** (`EndToEnd`): sender, wire, replay guard and handler composed.
- **The name propagation of the PAC rewriter** (`Degenerator`, `Fixtures`): the first pass of `degenerator`, and what
  it comes to on whole families of programs and on two of its test programs.

## How it is built

What the original does with loops and updates is done here with loops and updates: the matching's `while` and `for`,
the serializers' growing buffer and the deserializers' cursor, the validator's mask, the per-client state behind a
lock, the sender's pending map, the simulation's rows and the rewriter's growing names. Each such method is proved
against a function or predicate on values (`DeferredAcceptance.Outcome`, `ClientMessages.Serialize`, `Nonces.Present`,
`Sessions.Apply`, `LambdaSender.Outcome`, `Degenerator.Least`, and so on), and the promises are lemmas about those.
What such a function decides is stated once more in terms of the inputs alone, with the original's numbers: which
signatures are accepted, which message gets which response, when a queued message is sent, who is flagged and ranked
first, which nonces are accepted and which calls match. Where a loop body is long it is a method of its own
(`TakeTurn`, `HandleMessage`, `EncodeOneInto`, `Drain`, ...); the closures of the matching and of the rewriter are the
methods and functions they are used as.

What the world answers is an input. A connect, a read, a write, a lookup and the wording of an error are the fields of
`Worlds.World`; the arrivals and quiet moments the sender meets are a list of `Event`s; the simulation's censor,
random addresses and utilities are a `StepInput`. Every theorem holds for all of them. Compression, signatures and
encryption are records of functions (`Zstd`, `Signer`, `Sealer`) of which only `Lawful` is asked: what is compressed
can be restored; a signature has 64 bytes and verifies; what is sealed is no shorter, opens again, and does not open
when cut.

## Where the code and a natural reading of it differ

- The replay guard is documented to reject duplicates. An advance by exactly 64 forgets the nonce it starts from,
  which may then be accepted once more; `Nonces.ReplayExactly` and, from the nonces alone, `Nonces.AcceptedExactly`
  say when, `Nonces.ReplayHappens` gives the input, and the server's own test pins it
  (censorless-private/server/src/main.rs:820-830).
- The sender loses a StartConnection that ends its last drain: `LambdaSender.LossExactly` says when, and
  `LambdaSender.StartCanBeLost` gives the input.
- Lengths are cast to 32 bits, so a longer payload does not survive: the round trips and the envelope hold if and only
  if it is shorter. `ClientMessages.LongDataIsLost`, `ServerResponses.LongDataIsLost` and `Framing.LongPayloadIsCut`
  give inputs.
- Re-encoding decoded bytes need not give the same bytes: `ClientMessages.ReencodesExactly` and
  `ServerResponses.ReencodesExactly` say for which bytes it does, `ClientMessages.EncodingIsNotUnique` and
  `ServerResponses.UnknownCodeIsRewritten` give inputs for which it does not.
- A batch is lost as a whole when it cannot be serialized or sealed, when its sealed form has 2^32 bytes or more, or
  when compression hides a payload of that size; `Delivery.UploadExactly` says that a connection is brought exactly
  what was queued for it if and only if this happens to no batch with bytes for it. A Data or Close for a server whose
  host name has 180 to 255 bytes can never be serialized, so such a server is brought nothing
  (`Delivery.DataFitsExactly`, `Delivery.LongHostGetsNothing`).
- A simulation breaks off at an address two rows share, or at a new client for whom no proxy is left, and nowhere
  else: `Records.RunBreaksExactly` says when, from the books and loads before the request, and
  `Records.SharedAddressBreaks` and `Records.SlotsRunOut` give inputs.
- The rewriter misses a callback that makes an asynchronous call when the callback is handed to another call inside a
  function: `Fixtures.CallbackIsMissed` gives the input, `Fixtures.QualifyingExactly` says which functions are marked.
- Connection ids are unique and non-zero for fewer than 2^64 connections and no longer (`Sessions.IdsExactly`).

To check everything: `dafny verify dfyconfig.toml`.

## Model

| member | source | states |
|---|---|---|
| DeferredAcceptance.GetMatchedClients | censorless-vanilla/controller/controller/scripts/deferred_acceptance.py:1-36 | for every well-formed market and every dictionary order, the loops terminate with the client-optimal stable assignment: each proxy's list holds exactly its clients, best first, within capacity, and each client's preference list is popped down to just below the proxy it got; as many proposals are made as entries are popped, and turns never exceed total list length plus clients |
| DeferredAcceptance.TakeTurn | censorless-vanilla/controller/controller/scripts/deferred_acceptance.py:15-34 | one turn of a waiting client keeps the invariant (every client waiting, held once or exhausted; refusals justified; nothing lost that some stable assignment gives) and strictly lowers remaining preferences plus waiting clients; the other waiting clients stay waiting |
| DeferredAcceptance.Contest | censorless-vanilla/controller/controller/scripts/deferred_acceptance.py:25-34 | at a full proxy the proposer takes the place of the worst client held, who waits again, or stays waiting itself; the invariant holds after either |
| DeferredAcceptance.ProposalCases | censorless-vanilla/controller/controller/scripts/deferred_acceptance.py:19-30 | a proposal meets room, displaces the worst held client or is refused, and the lookups `index` and `[-1]` it makes never fail |
| DeferredAcceptance.Accept | censorless-vanilla/controller/controller/scripts/deferred_acceptance.py:20-24 | a proxy with room takes the proposer: the invariant is kept |
| DeferredAcceptance.Bump | censorless-vanilla/controller/controller/scripts/deferred_acceptance.py:25-34 | the client popped from the re-sorted list is the displaced one, and the invariant is kept |
| DeferredAcceptance.Reject | censorless-vanilla/controller/controller/scripts/deferred_acceptance.py:26-28 | a refused proposal only shortens the client's list, and the invariant is kept |
| DeferredAcceptance.GiveUp | censorless-vanilla/controller/controller/scripts/deferred_acceptance.py:16-18 | a client without proposals left leaves the waiting list, and the invariant is kept |
| DeferredAcceptance.TotalDrops | censorless-vanilla/controller/controller/scripts/deferred_acceptance.py:19 | each `pop(0)` lowers the total of remaining preferences by exactly one |
| DeferredAcceptance.RefusalIsSafe | censorless-vanilla/controller/controller/scripts/deferred_acceptance.py:26-34 | a proxy filled with clients it ranks higher, none of whom lost a stable partner before it, is no stable partner of the client it refuses |
| DeferredAcceptance.NobodyBlocks | censorless-vanilla/controller/controller/scripts/deferred_acceptance.py:15-36 | with nobody waiting the held clients form a stable assignment |
| DeferredAcceptance.NobodyDoesBetter | censorless-vanilla/controller/controller/scripts/deferred_acceptance.py:15-36 | with nobody waiting every client is at least as well off as in any stable assignment |
| DeferredAcceptance.OrderIndependent | censorless-vanilla/controller/controller/scripts/deferred_acceptance.py:5-36 | results and popped preference lists are the same whatever the order of the dictionary and of the rounds |
| DeferredAcceptance.ListsAreRanked | censorless-vanilla/controller/controller/scripts/deferred_acceptance.py:11-13 | a proxy's list holds exactly the clients assigned to it, once each, strictly sorted by its preference and within capacity |
| DeferredAcceptance.BetterProxiesAreFull | censorless-vanilla/controller/controller/scripts/deferred_acceptance.py:20-34 | a proxy that a client would rather have is filled to capacity with clients it ranks above that client |
| StableMatchings.OptimalIsUnique | censorless-vanilla/controller/controller/scripts/deferred_acceptance.py:15-36 | there is at most one client-optimal assignment |
| StableMatchings.EqualCounts | censorless-vanilla/controller/controller/scripts/deferred_acceptance.py:15-36 | every stable assignment serves the same clients as the returned one and gives each proxy the same number |
| StableMatchings.NoProxyLoses | censorless-vanilla/controller/controller/scripts/deferred_acceptance.py:15-36 | no stable assignment gives a proxy fewer clients than the client-optimal one |
| StableMatchings.RoomFixesClients | censorless-vanilla/controller/controller/scripts/deferred_acceptance.py:20-24 | a proxy left with room has the same clients in every stable assignment |
| StableMatchings.ProxiesFareWorst | censorless-vanilla/controller/controller/scripts/deferred_acceptance.py:15-36 | whoever another stable assignment adds to a proxy is ranked above whoever it takes away |
| Preferences.BestFirstRanks | censorless-vanilla/controller/controller/scripts/simulation_utils.py:133-140 | `reversed(sorted(...))` ranks every key exactly once, in descending order of utility |
| Preferences.GeneralUtilities | censorless-vanilla/controller/controller/scripts/simulation_utils.py:88-114 | the loop computes the map in which a later unflagged load of a client overwrites an earlier one |
| Preferences.GeneralIsLast | censorless-vanilla/controller/controller/scripts/simulation_utils.py:88-114 | a client's utility is that of its last unflagged load |
| Preferences.GeneralIsOf | censorless-vanilla/controller/controller/scripts/simulation_utils.py:88-114 | only clients with an unflagged load have a utility |
| Preferences.RankClients | censorless-vanilla/controller/controller/scripts/simulation_utils.py:120-140 | one proxy ranks all clients unflagged when its turn began, best first by utility less ten times the distance; exactly those for whom that is below -500 become flagged, and the list of newly flagged records is exactly those |
| Preferences.RankForProxies | censorless-vanilla/controller/controller/scripts/simulation_utils.py:118-141 | all proxies in turn: capacities and rankings are those of the last row with an address, clients still unflagged at the end are ranked by every proxy, and a client ends flagged if and only if it was, or some proxy is too far |
| Preferences.FlaggedExactly | censorless-vanilla/controller/controller/scripts/simulation_utils.py:126-134 | with u the utility of a client's last unflagged load, its loads end newly flagged if and only if u - 10 * distance is below -500 for some active proxy |
| Preferences.UnflaggedExactly | censorless-vanilla/controller/controller/scripts/simulation_utils.py:122-133 | a client is left unflagged if and only if it has an unflagged load and no active proxy is too far in that sense |
| Preferences.RankedByNumbers | censorless-vanilla/controller/controller/scripts/simulation_utils.py:126-142 | whoever stands before another in a proxy's list has at least its utility, each less ten times the distance to that proxy |
| Preferences.NearerFirst | censorless-vanilla/controller/controller/scripts/simulation_utils.py:126-142 | of two clients of equal utility the one strictly nearer to the proxy stands first in its list |
| Preferences.TiesReversed | censorless-vanilla/controller/controller/scripts/simulation_utils.py:136-142 | of equal utilities the key entered later comes first |
| Preferences.RankProxies | censorless-vanilla/controller/controller/scripts/simulation_utils.py:160-169 | a client's utilities cover exactly the active addresses, each worth its general utility less the distance, which the numbers in `Preferences.WorthByNumbers` spell out |
| Preferences.RankForClients | censorless-vanilla/controller/controller/scripts/simulation_utils.py:158-178 | exactly the unflagged clients get a list, which ranks every active address once, those worth most first |
| Preferences.WorthByNumbers | censorless-vanilla/controller/controller/scripts/simulation_utils.py:165-182 | whichever proxy stands before another in a client's list is worth at least as much, each its utility less the distance to that client |
| Preferences.NearerProxyFirst | censorless-vanilla/controller/controller/scripts/simulation_utils.py:165-182 | of two proxies of equal utility the one strictly nearer to the client stands first in its list |
| Preferences.BuildMarket | censorless-vanilla/controller/controller/scripts/simulation_utils.py:70-183 | despite flagging part-way the market handed to the matching is always well formed: every client passed on ranks every active proxy once and is ranked once by each, in the order of the utilities the inputs give; exactly the clients that some proxy finds too far are flagged in addition |
| Simulation.Simulation.FindUnique | censorless-vanilla/controller/controller/scripts/simulation_utils.py:192 | a proxy is found by address if and only if exactly one row has that address |
| Simulation.Simulation.ApplyMatch | censorless-vanilla/controller/controller/scripts/simulation_utils.py:193-201 | the row's capacity drops by the number of accepted clients, each of which gets one assignment row; the books still balance |
| Simulation.Simulation.WriteMatches | censorless-vanilla/controller/controller/scripts/simulation_utils.py:191-201 | in any order of the matches, all are written if and only if each address has exactly one row; those that are written, and only those, take their capacity and give each matched client exactly one row; the books balance in both cases |
| Simulation.Simulation.MatchAndWrite | censorless-vanilla/controller/controller/scripts/simulation_utils.py:187-201 | the matching's capacity bound leaves room for every match that is written, and the write goes through if and only if no usable proxy shares its address |
| Simulation.Simulation.RequestNewProxy | censorless-vanilla/controller/controller/scripts/simulation_utils.py:70-209 | the whole request: market of the unflagged clients and usable proxies by the inputs' utilities, client-optimal matching, rows written exactly, flags saved for exactly the newly flagged, which are the records returned (who they are, in numbers: `Records.FlagsSavedExactly`, `Records.TakesPartExactly`); it fails if and only if a usable proxy shares its address |
| Simulation.Simulation.RequestNewProxyNewClient | censorless-vanilla/controller/controller/scripts/simulation_utils.py:49-64 | a new client gets the first usable proxy, whose capacity drops by one; without one the row has no proxy, nothing else changes and the run breaks off |
| Simulation.Simulation.Block | censorless-vanilla/controller/controller/scripts/run_simulation.py:45-64 | exactly the proxies the censor wants are blocked in addition, all else of every row staying; exactly the clients with a row for one of them are loaded, and nothing else changes |
| Simulation.Simulation.Rejuvenate | censorless-vanilla/controller/controller/scripts/run_simulation.py:155-167 | every proxy has its new address and is unblocked; one that was blocked has capacity 40 again and its assignment rows, and only those, are gone, and every other keeps its capacity |
| Simulation.Simulation.CreateNewProxy | censorless-vanilla/controller/controller/scripts/run_simulation.py:189-202 | one row more, with full capacity; nothing else changes |
| Simulation.Simulation.NumberClient | censorless-vanilla/controller/controller/scripts/run_simulation.py:213-228 | the client's address is new, and the books and the numbering still hold |
| Simulation.Simulation.CreateNewClient | censorless-vanilla/controller/controller/scripts/run_simulation.py:205-232 | one new client and one new row, for the first usable proxy if there is one |
| Simulation.Simulation.Reassign | censorless-vanilla/controller/controller/scripts/run_simulation.py:121-129 | with or without the renewal before it, the request is made on the renewed books and for exactly the clients loaded |
| Simulation.Simulation.AddClients | censorless-vanilla/controller/controller/scripts/run_simulation.py:137-147 | the new clients are enrolled one by one, up to and including the first who finds no proxy |
| Simulation.Simulation.RunStep | censorless-vanilla/controller/controller/scripts/run_simulation.py:40-143 | a step blocks, renews, lets exactly the affected ask, and then adds proxies and clients, in this order and with these effects; it breaks off where the original raises |
| Simulation.Simulation.Run | censorless-vanilla/controller/controller/scripts/run_simulation.py:36-147 | a run is its steps in order up to the first that breaks off, and over whole runs, also those that break off, each proxy's capacity is not negative and adds up with its assignment rows to the maximum, every row's client is on file and clients are numbered without gaps |
| Records.RunBreaksExactly | censorless-vanilla/controller/controller/scripts/run_simulation.py:36-147 | whether a step of a run goes through is decided by the books and loads before its request: it does if and only if no usable proxy shares its address, and the free slots less the unflagged askers (but no less than none), with 40 for each new proxy, suffice for the new clients; a run breaks off at the first step for which that fails |
| Records.StepBreaksExactly | censorless-vanilla/controller/controller/scripts/run_simulation.py:121-147 | the same of one step |
| Records.RequestTakes | censorless-vanilla/controller/controller/scripts/simulation_utils.py:187-201 | a request places all unflagged askers or as many as there are free slots, whichever is less, and takes one slot for each |
| Records.SharedAddressBreaks | censorless-vanilla/controller/controller/scripts/run_simulation.py:155-167 | two proxies that are given one new address: the step breaks off |
| Records.SlotsRunOut | censorless-vanilla/controller/controller/scripts/run_simulation.py:137-147 | one new proxy takes 40 new clients and not 41 |
| Records.RunKeeps | censorless-vanilla/controller/controller/scripts/run_simulation.py:36-147 | no run forgets a client or a flag, and a completed run has added all the proxies and clients it was given |
| Records.EnrolledExactly | censorless-vanilla/controller/controller/scripts/run_simulation.py:137-147 | all new clients find a proxy if and only if the capacities of the unblocked proxies add up to at least their number |
| Records.ServedOrFull | censorless-vanilla/controller/controller/scripts/simulation_utils.py:187-201 | a client that asked and was not flagged gets exactly one row for some proxy, or every proxy that could be used is filled to capacity |
| Records.FlagsSavedExactly | censorless-vanilla/controller/controller/scripts/simulation_utils.py:129-134 | after a request a client is flagged if and only if it was, or it asked and u - 10 * distance is below -500 for some usable proxy |
| Records.TakesPartExactly | censorless-vanilla/controller/controller/scripts/simulation_utils.py:118-141 | the clients matched are exactly those with an unflagged load for whom no usable proxy is too far |
| Records.AffectedExactly | censorless-vanilla/controller/controller/scripts/run_simulation.py:45-64 | the clients that ask are exactly those with a row for a proxy that the censor wants and did not have blocked before |
| Records.RenewedExactly | censorless-vanilla/controller/controller/scripts/run_simulation.py:155-167 | after a renewal every proxy is unblocked under its new address; those that were blocked have room for 40 and no row, the others are as full as before |
| Records.FoundExactly | censorless-vanilla/controller/controller/scripts/simulation_utils.py:192 | every match finds its row if and only if no usable proxy shares its address with another row |
| Records.RecordedMore | censorless-vanilla/controller/controller/scripts/simulation_utils.py:191-201 | writing one more address gives each of its clients exactly one row and changes no other address |
| Records.CountWithout | censorless-vanilla/controller/controller/scripts/run_simulation.py:166 | deleting some proxies' rows takes exactly their rows and leaves every other count as it was |
| Records.NewRowConserves | censorless-vanilla/controller/controller/scripts/simulation_utils.py:56-63 | a row for a usable proxy and one less capacity keep the balance; so does a row without a proxy |
| ClientAddresses.AddressesDiffer | censorless-vanilla/controller/controller/scripts/run_simulation.py:213-218 | two clients never share an address, however many there are |
| ClientAddresses.AddressFormat | censorless-vanilla/controller/controller/scripts/run_simulation.py:213-218 | client (a * 256 + b) * 256 + c has the address 255.a.b.c |
| Words.BitTest | censorless-private/server/src/main.rs:147 | testing the mask with one bit tells whether that bit is set |
| Nonces.NonceValidator.Check | censorless-private/server/src/main.rs:117-157 | the 64-bit mask refines a model that remembers a set: same verdict, same new state, for every nonce and state |
| Nonces.AdvanceMarks | censorless-private/server/src/main.rs:128-131 | shifting the mask and marking the old last nonce keeps exactly the remembered nonces within 64 of the new one |
| Nonces.MarkOne | censorless-private/server/src/main.rs:152 | setting a bit adds exactly one remembered nonce |
| Nonces.RejectionHasACause | censorless-private/server/src/main.rs:117-157 | over any history a rejected nonce is zero, was accepted before, or is more than 64 behind |
| Nonces.ReplayExactly | censorless-private/server/src/main.rs:125-127 | a nonce accepted before is accepted again if and only if the last nonce is 64 ahead, was reached by one advance from it, and the nonce is not marked since |
| Nonces.ReplayHappens | censorless-private/server/src/main.rs:820-830 | 1, 65 and again 1 are all accepted |
| Nonces.AcceptedAtMostTwice | censorless-private/server/src/main.rs:828-829 | nothing is accepted three times |
| Nonces.NoReplayWithoutSkip | censorless-private/server/src/main.rs:117-157 | in a history without an advance of exactly 64 every nonce is accepted at most once |
| Nonces.AcceptedExactly | censorless-private/server/src/main.rs:117-157 | which nonces are accepted, from the nonces alone: those that are not zero and at most 64 behind the largest presented before, if each earlier occurrence was followed by an advance from it by exactly 64 |
| Nonces.ReorderingTolerated | censorless-private/server/src/main.rs:95-99 | distinct non-zero nonces, none more than 64 behind one delivered before it, are all accepted |
| Addresses.EncodeInto | censorless-private/protocol/src/address.rs:15-37 | appends the encoding, or fails for a name over 255 bytes |
| Addresses.DecodeFrom | censorless-private/protocol/src/address.rs:40-72 | reads what the decoding function says and leaves the cursor after it, or fails with its error |
| Addresses.EncodeSucceeds | censorless-private/protocol/src/address.rs:75-81 | an address encodes if and only if its name fits, and then to as many bytes as `encoded_size` says |
| Addresses.AddressRoundTrip | censorless-private/protocol/src/address.rs:15-72 | an encoded address decodes to itself, whatever follows it |
| Truncation.AddressKinds | censorless-private/protocol/src/address.rs:40-72 | an address is refused for its kind, which the error names, if and only if its type byte is not 0x01, 0x03 or 0x04 |
| Addresses.AddressCanonical | censorless-private/protocol/src/address.rs:15-72 | decoded bytes are the one encoding of the address they decode to |
| Unicode.ValidExactly | censorless-private/protocol/src/address.rs:60-61 | exactly the UTF-8 forms of strings of Unicode characters are accepted as names and texts |
| Unicode.TextsDiffer | censorless-private/protocol/src/address.rs:60-61 | different strings have different forms |
| Layouts.AddressLayout | censorless-private/protocol/src/address.rs:15-37 | type byte 0x01, 0x03 or 0x04, for a name its length, then the bytes |
| Payloads.PackInto | censorless-private/protocol/src/message.rs:67-90 | the flag, both lengths and the bytes are appended; compression is used only when asked for, over 128 bytes and if it saves something |
| Payloads.PackRoundTrip | censorless-private/protocol/src/message.rs:67-90 | a payload under 2^32 bytes comes back with the flag saying whether it was compressed |
| Payloads.UnpackFrom | censorless-private/protocol/src/message.rs:154-208 | reads a payload section, failing on a bad compression or a wrong length |
| Payloads.PackCanonical | censorless-private/protocol/src/message.rs:67-90 | packing what was unpacked gives the same bytes if and only if the flag was 0x00, or 0x01 on just the bytes the encoder would write |
| Layouts.PayloadLayout | censorless-private/protocol/src/message.rs:67-90 | flag, both lengths in four bytes each, and the bytes, which are the compressed ones just if compression was asked for, the data is longer than 128 bytes and its compressed form is shorter |
| ClientMessages.SerializeMessage | censorless-private/protocol/src/message.rs:34-113 | the growing buffer ends as the serialization function says, with its errors |
| ClientMessages.DeserializeMessage | censorless-private/protocol/src/message.rs:116-242 | the cursor loop terminates on every input with the result of the deserialization function |
| ClientMessages.EncodesExactly | censorless-private/protocol/src/message.rs:59-63 | serialization fails for exactly the batches that hold an over-long name or signed id |
| ClientMessages.OneRoundTrip | censorless-private/protocol/src/message.rs:45-108 | one message decodes to itself up to the flag, whatever follows it |
| ClientMessages.BatchRoundTrip | censorless-private/protocol/src/message.rs:34-242 | a batch that serializes with payloads under 2^32 deserializes to itself up to the flags, for any number and mix of messages |
| ClientMessages.BatchRoundTripExactly | censorless-private/protocol/src/message.rs:84-87 | and only then: a batch that serializes comes back if and only if every payload is shorter than 2^32 |
| ClientMessages.LongDataIsLost | censorless-private/protocol/src/message.rs:84-87 | a batch with 2^32 bytes of data does not come back |
| ClientMessages.LongBatchIsRefused | censorless-private/protocol/src/message.rs:84-87 | when compression hides such data in a shorter batch, the whole batch is refused |
| ClientMessages.BatchNormalForm | censorless-private/protocol/src/message.rs:116-242 | what decodes, encodes again and decodes to the same batch up to the flags |
| ClientMessages.DecodingConsumesAll | censorless-private/protocol/src/message.rs:130 | a successful decoder has consumed its whole input: bytes that follow are decoded on their own and appended |
| Truncation.BatchCut | censorless-private/protocol/src/message.rs:116-242 | a batch that lost its end is refused with an I/O error, or is the same batch with fewer messages at its end, and never brings another message |
| Truncation.MessageKinds | censorless-private/protocol/src/message.rs:133-242 | a message is refused for its kind, which the error names, if and only if its type byte is above 0x03 |
| ClientMessages.EncodingIsNotUnique | censorless-private/protocol/src/message.rs:157 | a flag byte other than 0x01 reads as raw, so two byte strings decode to the same message |
| ClientMessages.ReencodesExactly | censorless-private/protocol/src/message.rs:34-242 | for all bytes that decode, encoding again gives the same bytes if and only if every Data payload met on the way was canonical |
| Layouts.NumberLayout | censorless-private/protocol/src/message.rs:40-50 | numbers go out lowest byte first |
| Layouts.MessageLayout | censorless-private/protocol/src/message.rs:45-108 | type bytes 0x00 to 0x03, and what follows each, in order |
| Layouts.BatchLayout | censorless-private/protocol/src/message.rs:34-45 | the key's 32 bytes, the nonce's 8, and the messages |
| ServerResponses.SerializeResponse | censorless-private/protocol/src/message.rs:300-368 | the growing buffer ends as the serialization function says |
| ServerResponses.DeserializeResponse | censorless-private/protocol/src/message.rs:371-486 | the cursor loop terminates on every input with the result of the deserialization function |
| ServerResponses.ErrorCodes | censorless-private/protocol/src/message.rs:246-268 | codes survive; a byte survives if and only if it is 1 to 5 or 0xFF |
| ServerResponses.ResponseRoundTrip | censorless-private/protocol/src/message.rs:300-486 | any list of responses with payloads and texts under 2^32 comes back up to the flags |
| ServerResponses.ResponseRoundTripExactly | censorless-private/protocol/src/message.rs:334-337 | and only then |
| ServerResponses.ResponseNormalForm | censorless-private/protocol/src/message.rs:371-486 | what decodes, encodes again and decodes to the same responses up to the flags |
| ServerResponses.DecodingConsumesAll | censorless-private/protocol/src/message.rs:375 | a successful decoder has consumed its whole input |
| Truncation.ResponsesCut | censorless-private/protocol/src/message.rs:371-486 | responses that lost their end are refused with an I/O error, or are the first ones of them |
| Truncation.ResponseKinds | censorless-private/protocol/src/message.rs:378-486 | a response is refused for its kind, which the error names, if and only if its type byte is above 0x03 |
| ServerResponses.ReencodesExactly | censorless-private/protocol/src/message.rs:300-486 | for all bytes that decode, encoding again gives the same bytes if and only if every payload was canonical and every error byte 1 to 5 or 0xFF |
| ServerResponses.UnknownCodeIsRewritten | censorless-private/protocol/src/message.rs:258-268 | the error byte 0x06 is read as Unknown and written back as 0xFF |
| ServerResponses.LongDataIsLost | censorless-private/protocol/src/message.rs:334-337 | a response with 2^32 bytes of data does not come back |
| Layouts.ResponseLayout | censorless-private/protocol/src/message.rs:300-368 | type bytes 0x00 to 0x03, the id's 8 bytes, and the payload, the text, or the error byte and the text |
| Framing.SignConnectionId | censorless-private/protocol/src/crypto.rs:73-86 | the signature is over address, port and id, in that order |
| Framing.VerifyConnectionId | censorless-private/protocol/src/crypto.rs:89-112 | a signature of other than 64 bytes fails; otherwise the same bytes are checked |
| Framing.CheckSigned | censorless-private/server/src/main.rs:401-451 | the handler's checks accept exactly the byte strings of at least 74 bytes whose last 64 verify over all before them, and yield the id in the 8 bytes before the signature |
| Framing.VerifiedExactly | censorless-private/server/src/main.rs:397-451 | a signed id speaks for connection id if and only if it has at least 74 bytes, its last 64 verify over all before them, and id is in the 8 bytes before the signature |
| Framing.ForgedIsRefused | censorless-private/server/src/main.rs:439-451 | so nothing is yielded for exactly the strings that are shorter or do not verify |
| Layouts.SignedLayout | censorless-private/protocol/src/crypto.rs:73-86 | address, port in 2 bytes, id in 8, signature in 64; all but the signature is what is signed |
| Framing.SplitInvertsJoin | censorless-private/server/src/main.rs:412-437 | splitting from the back recovers the address, port, id and signature the client joined |
| Framing.JoinInvertsSplit | censorless-private/server/src/main.rs:412-437 | exactly the strings of at least 74 bytes split; joining the parts gives them back, and the bytes checked are the ones before the signature |
| Framing.OwnIdVerifies | censorless-private/protocol/src/crypto.rs:73-112 | what the client signs for a connection the server takes for that connection |
| Framing.SignedFitsExactly | censorless-private/client/src/main.rs:446-462 | a queued Data or Close can be serialized if and only if the host name has at most 179 bytes |
| Framing.BuildRequest | censorless-private/client/src/main.rs:700-707 | the envelope is built as the wrapping function says |
| Framing.ParseRequest | censorless-private/lambda/src/main.rs:103-133 | the lambda reads what the unwrapping function says, with its errors |
| Framing.UnwrapOfWrap | censorless-private/lambda/src/main.rs:103-133 | the lambda recovers host and port, and the payload cut to the announced 32-bit length, whatever follows |
| Layouts.EnvelopeLayout | censorless-private/client/src/main.rs:700-707 | 0x03, the name with its length, the port in 2 bytes, the payload's length in 4, and the payload |
| Framing.EnvelopeExactly | censorless-private/client/src/main.rs:700-707 | the lambda forwards exactly the wrapped payload if and only if it is shorter than 2^32 |
| Framing.LongPayloadIsCut | censorless-private/client/src/main.rs:706-707 | of a payload of 2^32 bytes the lambda forwards none |
| Sessions.StepKeepsInv | censorless-private/server/src/main.rs:297-653 | every atomic step of any client keeps, for every id, the shape of its record and its agreement with the tables |
| Sessions.SessionTrace | censorless-private/server/src/main.rs:297-653 | in every interleaving the record of one id is Challenge, then Data, then at most one Close or expiry with nothing after it, all for one client; id 0 has none |
| Sessions.Ledger | censorless-private/server/src/main.rs:302-366 | at every reachable state a client's table is its challenged ids less its closed and expired ones, within the limit, disjoint from every other client's, and without id 0 |
| Sessions.IdsExactly | censorless-private/server/src/main.rs:56-62 | the ids handed out are distinct and non-zero if and only if there are fewer than 2^64 of them |
| Sessions.BytesConserved | censorless-private/server/src/main.rs:464-521 | for every id the Data payloads sent concatenate to exactly the chunks its steps read, in order, over Data and Poll handling; that these are the bytes the attempts to read brought is part of `Server.ClientState.HandleMessage` |
| Sessions.PayloadsBounded | censorless-private/server/src/main.rs:473-506 | every Data payload has at least one byte and fewer than MAX_RESPONSE_DATA + 65536 |
| Sessions.RequestContinuesRun | censorless-private/server/src/main.rs:261-263 | the steps one request takes continue any run of the whole server, put the same entries on record there, and leave the other clients' tables alone |
| Sessions.RequestWeaves | censorless-private/server/src/main.rs:261-297 | however the steps of other clients fall between a request's messages, together they make a run of the whole server that leaves the client where the request does, with its entries in the same order |
| Worlds.AllKept | censorless-private/server/src/main.rs:471-498 | all attempts but the last brought bytes, and the chunks are theirs, in order, with the last one's if it brought some: no buffer that was read is thrown away |
| Worlds.AttemptsStop | censorless-private/server/src/main.rs:598-622 | the attempts a loop makes are those up to the first after which it stops: the end, an error, nothing in time, for a reply a short read, or 4 MiB in hand |
| Worlds.StopsOnce | censorless-private/server/src/main.rs:471-498 | and no other number of attempts stops so |
| Worlds.StopsExactly | censorless-private/server/src/main.rs:471-498 | where a loop stops, in numbers: every attempt but the last brought bytes, for a reply 65536 of them, and left less than 4 MiB in hand; unless there is nothing more to try, the last did not, or brought fewer for a reply, or left 4 MiB or more |
| Worlds.MadeBounded | censorless-private/server/src/main.rs:598-622 | neither loop ever holds 4 MiB plus a buffer |
| Accounts.LoopRelays | censorless-private/server/src/main.rs:500-521 | reading from a target puts on record for its id just the bytes the attempts brought, and nothing for any other id |
| Accounts.SinceChallenge | censorless-private/server/src/main.rs:453-456 | while a connection is open and writes succeed its target has been sent exactly the payloads for it of all messages since its Challenge, in order |
| Accounts.MessageAccounts | censorless-private/server/src/main.rs:297-653 | handling a message keeps the account: of every connection, closed ones included, the history alone tells whether it is open, what its target was sent, all attempts to read from it, when it was last active, and that the client was sent just the bytes those attempts brought |
| Accounts.CleanupAccounts | censorless-private/server/src/main.rs:694-706 | so does closing idle connections |
| Replies.ActivatesExactly | censorless-private/server/src/main.rs:453-454 | a connection counts as active when a Data message speaks for it, whether or not it can be written, and when the first attempt of a poll brings bytes |
| Server.Counter.FetchAdd | censorless-private/server/src/main.rs:57-62 | returns the next id of the wrapping counter |
| Server.ClientState.StartConnection | censorless-private/server/src/main.rs:299-394 | answered by a Challenge with the next id if and only if fewer than the limit are open, the address is allowed and the connect succeeds, and then just that connection is added; otherwise by one Error whose code is TooManyConnections, HostUnreachable, ConnectionRefused or Timeout, each if and only if its cause holds, and connections, outbox and counter stay as they were |
| Server.ClientState.CollectReply | censorless-private/server/src/main.rs:464-498 | the loop goes on only after full buffers and with less than 4 MiB in hand, stops early only otherwise, and returns every byte its attempts brought |
| Server.ClientState.CollectPending | censorless-private/server/src/main.rs:594-622 | the loop goes on only after attempts that brought bytes and with less than 4 MiB in hand, stops early only otherwise, and returns every byte its attempts brought |
| Server.ClientState.RelayData | censorless-private/server/src/main.rs:396-526 | a Data message whose last 64 bytes verify and whose id is open is one enabled step; any other gets no response and leaves state and record alone; responses, table, bytes written, attempts to read and time of activity are the step's, of this connection and no other |
| Server.ClientState.WriteAndRead | censorless-private/server/src/main.rs:453-521 | the data is appended to what the target was sent, the attempts made to read a reply are on record, and just this connection counts as active now; the response is a Close on a failed write, else the bytes read, if any, and a Close if the stream ended or reading failed, which is when the connection closes |
| Server.ClientState.HandleMessage | censorless-private/server/src/main.rs:297-653 | one message gets exactly the responses that `Replies.Reply` names from the world alone; a Data or Close that does not speak for an open connection and a StartConnection that is not welcome change neither state nor counter; its steps are recorded in the client's history with what they open and close, and keep the account of every connection: bytes sent, bytes read and relayed, and activity |
| Server.StepsReply | censorless-private/server/src/main.rs:297-653 | the steps a message takes put just the responses on record that `Replies.Reply` names |
| Server.StartAnswered | censorless-private/server/src/main.rs:299-394 | a StartConnection puts one response on record: a Challenge with the next id if and only if fewer than the limit are open, the address is allowed and the connect succeeds; otherwise an Error with each code if and only if its cause holds |
| Server.ClientState.HandleMessages | censorless-private/server/src/main.rs:297-653 | the messages are answered in order while other clients are handed any number of ids in between; for every connection, also those opened and closed on the way, the account of bytes sent, read and relayed holds over the whole history |
| Server.ClientState.CloseConnection | censorless-private/server/src/main.rs:528-584 | a Close whose last 64 bytes verify closes an open connection and is answered by a Close; any other gets no response and changes nothing |
| Server.ClientState.Poll | censorless-private/server/src/main.rs:586-651 | every open connection is polled exactly once, just those that brought bytes count as active, the attempts made are on record, and collecting removals to the end comes to the same as removing at once |
| Server.ClientState.HandleRequest | censorless-private/server/src/main.rs:261-657 | the nonce is checked once; a rejected one gives a single error and leaves connections, targets and counter alone, as does an unusable key; otherwise the messages are answered in order, and all responses are what their steps put on record |
| Server.ClientState.Cleanup | censorless-private/server/src/main.rs:694-706 | exactly the connections whose history shows no activity for too long are dropped, each by a silent expiry: after it a connection is open if and only if its history left it open and active recently enough |
| LambdaSender.Sender.QueueMessage | censorless-private/client/src/main.rs:435-510 | the message goes to the end of its server's queue, its id signed for that server; nothing else changes |
| LambdaSender.Sender.FlushPending | censorless-private/client/src/main.rs:513-535 | in any order of the map every non-empty queue becomes one batch with its server's next nonce, and nothing stays pending |
| LambdaSender.Sender.Send | censorless-private/client/src/main.rs:522-533 | the batch carries the counter's value, and the counter advances by one |
| LambdaSender.Sender.Drain | censorless-private/client/src/main.rs:590-634 | the draining loop follows the reference machine: a StartConnection flushes first and then goes out alone |
| LambdaSender.Sender.WaitOnce | censorless-private/client/src/main.rs:637-664 | the wait for company follows the reference machine |
| LambdaSender.Sender.DrainAndFlush | censorless-private/client/src/main.rs:666-676 | the last drain and flush follow the reference machine, including the StartConnection it drops; that they end at a quiet moment with everything out is `Promptness.ThreeQuiets` |
| LambdaSender.Sender.Run | censorless-private/client/src/main.rs:542-679 | the nested loops refine the four-mode reference machine for every script of events, with nothing pending at every loop head; when the machine sends is told by `Promptness` |
| LambdaSender.Fifo | censorless-private/client/src/main.rs:542-679 | each server's batches, laid end to end, are the messages received for it, in order, less the dropped ones |
| LambdaSender.LossExactly | censorless-private/client/src/main.rs:667-674 | a server's batches, laid end to end, are all that was received for it if and only if no StartConnection for it met the last drain |
| LambdaSender.StartCanBeLost | censorless-private/client/src/main.rs:667-674 | data, two quiet moments and a StartConnection: it is dropped |
| LambdaSender.BatchesProper | censorless-private/client/src/main.rs:517-529 | no batch is empty, nonces are consecutive from the initial one, and a StartConnection has its batch to itself |
| LambdaSender.WireSays | censorless-private/client/src/main.rs:435-510 | what is queued says what was received: same kind, host, port and bytes, with a signed form of the id that the server accepts for it |
| Promptness.ReceivedExactly | censorless-private/client/src/main.rs:542-670 | a server's messages are those that arrived for it, one each, in order of arrival |
| Promptness.TurnModes | censorless-private/client/src/main.rs:587-676 | one turn of the task: it drains while messages come, waits at a quiet moment, and whatever ends the wait, drains a last time, up to a quiet moment or a StartConnection |
| Promptness.IdleStays | censorless-private/client/src/main.rs:542-587 | only a message other than a StartConnection begins a turn |
| Promptness.ThreeQuiets | censorless-private/client/src/main.rs:636-676 | after any events and three quiet moments the sender is idle, nothing is pending, and all that was received and not dropped is out |
| Promptness.Prompt | censorless-private/client/src/main.rs:636-676 | a received message is out at the latest after a quiet moment, one more event, any messages that follow it at once, and then a quiet moment or a StartConnection |
| Promptness.StartIsPrompt | censorless-private/client/src/main.rs:590-634 | a StartConnection makes everything before it go out, and goes out itself, last and alone, unless it meets the last drain |
| Promptness.OneBatch | censorless-private/client/src/main.rs:587-676 | messages that come at once, one that ends the wait, and those that follow it at once go out as one batch more for each server they are for, in order, and not before |
| Delivery.ReorderedBatchesAccepted | censorless-private/client/src/main.rs:114-117 | batches delivered at most once, never more than 64 behind one delivered before, all pass the server's replay guard |
| Delivery.BatchesArrive | censorless-private/client/src/main.rs:690-697 | every batch for a server with a host name of at most 179 bytes serializes, and the server reads exactly the messages batched, up to the flags |
| Delivery.ArrivesExactly | censorless-private/client/src/main.rs:690-707 | a batch arrives at the server, through serialization, encryption, envelope and lambda, if and only if it can be serialized and sealed, its sealed form has fewer than 2^32 bytes and so has each payload; then all of it arrives |
| Delivery.UploadExactly | censorless-private/client/src/main.rs:542-707 | a connection is brought exactly the bytes the client queued for it, in order, if and only if no batch with bytes for it is lost, for every run of the sender and every payload |
| Delivery.LostIsMissing | censorless-private/client/src/main.rs:690-707 | the bytes missing are in number just those of the lost batches |
| Delivery.UploadComplete | censorless-private/client/src/main.rs:542-707 | nothing is missing for a host name of at most 179 bytes while every batch that can be serialized arrives |
| Delivery.DataFitsExactly | censorless-private/client/src/main.rs:690-691 | a batch with a Data or Close can be serialized if and only if the host name has at most 179 bytes |
| Delivery.LongHostGetsNothing | censorless-private/client/src/main.rs:690-691 | a server with a longer host name is brought nothing for any connection |
| Delivery.BatchBrings | censorless-private/client/src/main.rs:690-707 | a batch brings all of its bytes for a connection or none of them |
| EndToEnd.Carry | censorless-private/lambda/src/main.rs:103-133 | serializer, sealing, envelope, the lambda's reads, opening and deserializer, one after the other, bring what `Delivery.Arriving` says |
| EndToEnd.DeliverInOrder | censorless-private/server/src/main.rs:261-297 | batches with consecutive nonces, delivered in order: every one that arrives passes the replay guard, and the handler is told exactly the messages of those that arrive, in order |
| EndToEnd.DeliverRun | censorless-private/client/src/main.rs:542-707 | so it is with all batches of a sender's run and a server that has not heard of the client, whose account then holds over just these messages |
| EndToEnd.ChronicleTells | censorless-private/server/src/main.rs:297-653 | handling a batch adds exactly its messages to the history |
| EndToEnd.TargetGetsQueue | censorless-private/server/src/main.rs:453-456 | then the target of a connection that has stayed open since its Challenge, with no failed write and no data sent for its id before, has been sent exactly what the client queued for it, if no batch with bytes for it was lost |
| Delivery.QueuedIdVerifies | censorless-private/client/src/main.rs:451-462 | the id a message was queued for is the id the server takes it for |
| Delivery.LongHostStopsBatch | censorless-private/client/src/main.rs:690-691 | for a longer host name no batch with a Data or Close can be serialized |
| Degenerator.CheckName | censorless-vanilla/local-proxy/packages/degenerator/src/degenerator.ts:163-176 | finds a name if and only if some literal equals it or some pattern matches it |
| Degenerator.CheckNames | censorless-vanilla/local-proxy/packages/degenerator/src/degenerator.ts:135-161 | an identifier is looked up by its name and a member by object and property with a dot between, in the sense of `Degenerator.CheckName`; a nameless callee never matches, and any other kind is an error |
| Degenerator.FindCalls | censorless-vanilla/local-proxy/packages/degenerator/src/degenerator.ts:67-75 | a function qualifies if and only if one of its topmost calls matches; an unnameable topmost call is an error |
| Degenerator.Rewriter.FirstPass | censorless-vanilla/local-proxy/packages/degenerator/src/degenerator.ts:33-94 | terminates; succeeds if and only if some closed set of names meets no unnameable call; then the names matched are the least set that holds the given ones and is closed under the declaration, assignment and named-function rules as visited (`Fixtures.ClosedExactly`), every name added is new and from the program, and exactly the visited qualifying functions are marked async (`Fixtures.QualifyingExactly`) |
| Degenerator.PassStays | censorless-vanilla/local-proxy/packages/degenerator/src/degenerator.ts:36-93 | a pass never leaves a closed set: it adds no name and marks no function outside it, and stops with an error only where that set has one |
| Degenerator.PassSettles | censorless-vanilla/local-proxy/packages/degenerator/src/degenerator.ts:94 | a pass that adds no name has found the names closed, met no error and marked exactly the qualifying functions |
| Degenerator.GrowthUses | censorless-vanilla/local-proxy/packages/degenerator/src/degenerator.ts:35-94 | every pass but the last uses up a name of the program, so the loop ends |
| Degenerator.OnlyMatchedNamesMatter | censorless-vanilla/local-proxy/packages/degenerator/src/degenerator.ts:24-94 | the result depends on which names the given list matches, not on how or in what order it lists them |
| Fixtures.HitsExactly | censorless-vanilla/local-proxy/packages/degenerator/src/degenerator.ts:67-75 | a function qualifies if and only if some topmost call in it is of an identifier in the set, or of a member whose object and property with a dot between are in the set |
| Fixtures.ClosedExactly | censorless-vanilla/local-proxy/packages/degenerator/src/degenerator.ts:36-93 | a set is closed if and only if, where the pass comes with it, no copy of a name in it has a name outside it and no named function that calls one is outside it |
| Fixtures.QualifyingExactly | censorless-vanilla/local-proxy/packages/degenerator/src/degenerator.ts:65-93 | the functions marked are exactly the named ones that the pass comes to and that hold a matching topmost call; the pass looks below no declaration or assignment, and below a named function only if it is marked |
| Fixtures.SafeExactly | censorless-vanilla/local-proxy/packages/degenerator/src/degenerator.ts:67-79 | the pass meets no error if and only if no named function it comes to holds a topmost call of another kind |
| Fixtures.MembersUnmarked | censorless-vanilla/local-proxy/packages/degenerator/src/degenerator.ts:141-150 | names without a dot never reach a member call: if all named functions hold only member calls, none is marked, whatever the program copies |
| Fixtures.CopiesExactly | censorless-vanilla/local-proxy/packages/degenerator/src/degenerator.ts:38-63 | a program that only copies matches exactly the names that a chain of copies leads to from a given one, in whatever order it makes them |
| Fixtures.MultipleMarksAll | censorless-vanilla/local-proxy/packages/degenerator/test/multiple.js:1-12 | of three functions that call one another in a ring, one of them given, all are marked |
| Fixtures.AssignedMarksCallers | censorless-vanilla/local-proxy/packages/degenerator/test/assignment.js:1-14 | with the given name copied by an assignment and by a declaration, the functions that call the copies are marked and the given one is not |
| Fixtures.CallbackIsMissed | censorless-vanilla/local-proxy/packages/degenerator/src/degenerator.ts:67-79 | a callback with a matching call that is handed to another call is not marked inside a function, and is at the top level |

## Left out

- Cryptography and compression: ChaCha20Poly1305, Ed25519 and zstd are foreign code; `Signer` and `Zstd` ask only for what the proofs use, and `Sealer` for encryption too. Sealing is a function of the payload, so its randomness is not modelled; both ends use the server's key, which is not told apart.
- Network, clocks and name lookup: their outcomes are inputs (`World`, `Event`), so deadlines, intervals and the HTTP exchange itself are not modelled. `is_private_ip` is the input `isPrivate`.
- Wording of error messages and log lines: the texts in responses are inputs.
- Locking: a client's requests do not overlap because its lock is held throughout; runs interleave single steps of any clients, and a request sees other clients only as ids drawn between its messages. The client map with its read and write locks is not modelled.
- A failed write: how many bytes reached the target before the failure is not modelled; the connection is closed anyway.
- Server.ClientState.HandleRequest: the clock is read once per request instead of once per activity, and a request whose handling waits long counts all its activity at that time.
- Routing of responses in the client and retries: data for an unregistered id and lost HTTP responses are dropped by the original, so end-to-end delivery is not a property of it.
- Sessions.SessionTrace: holds while fewer than 2^64 connections have been opened; `Sessions.IdsExactly` shows that ids repeat and reach 0 at 2^64.
- Delivery.UploadExactly: takes every request the client sends as reaching the lambda and the server; a failed HTTP exchange loses its batch (the original logs it).
- EndToEnd.DeliverInOrder: batches are delivered once each and in order; for reordered ones `Delivery.ReorderedBatchesAccepted` shows that all are accepted, not in which order targets get their bytes.
- Delivery.ReorderedBatchesAccepted: assumes the nonce counter does not wrap past 2^64, which from a millisecond clock it does not.
- Nonces.NonceValidator.Check: the mask is a list of 64 bits with `Or`, `And` and `ShiftLeft` spelled out bit by bit instead of a machine word.
- LambdaSender.Sender.Run: host names of more than 255 bytes make the original panic; they are excluded by `HostsFit`. What `send_to_lambda` does with a batch it cannot deliver (it logs) is not modelled: a batch counts as sent once it is handed over.
- DeferredAcceptance.GetMatchedClients: requires a well-formed market, which `Preferences.BuildMarket` proves of every call. On other inputs the original raises a lookup error. `get_sorted_results_with_student` appends to the old list before it is replaced; here the new list is computed in one expression.
- Simulation.Simulation.Run: columns that feed only statistics or utilities (request counts, known blocked proxies, creation and assignment times) are part of the inputs, as are the censor's choices and generated addresses; `is_active` is never cleared in the original and is left out. The loaded clients' order is left open, and rows are visited in table order. An address shared by two rows, and a new client without a usable proxy, break the run off as the original's exceptions do.
- Preferences.BuildMarket: utilities and distances are real numbers given as inputs; floating-point rounding is not modelled.
- Rust's integer casts other than `as u32`, and memory limits, are not modelled; lengths are unbounded numbers.
- The lambda's whitelist, its base64 handling and its forwarding over TCP.
- Degenerator.Rewriter.FirstPass: the syntax tree has the five kinds of node the pass tells apart, its children in visiting order; parsing and generating code, the second pass (inserting `await`), the check that the names are an array, and the state a global regular expression keeps between tests are not modelled.
- The Django views, models and migrations, the AWS refresher, the serverless bridge, the rest of the local proxy, and the evaluation scripts.
