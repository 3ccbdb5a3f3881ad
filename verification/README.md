# A verified model of go-tor-client's protocol core

go-tor-client is a Tor client in Go. This project models the parts of it whose correctness spans
many steps and several goroutines, and proves their laws with Dafny 4.11:
`dafny verify dfyconfig.toml` checks everything.

Four groups of modules follow the program's structure.

- **Onion relay layer.** `Options`, `Bytes` and `RelayCells` hold optional values and the
  byte-level codecs. `Onion` is the theory of one direction of a circuit: per hop a keystream (an
  arbitrary function of the position) and a rolling digest (an arbitrary function of everything fed to it), layering by the sender, peeling
  by the receiver. `Turnstile` is the ordered-write protocol as atomic steps of goroutines,
  `Uplink` joins it with the forward crypto and the relays, `Downlink` is the inbound direction
  with SENDME accounting. `Circuit` holds the code that updates digests, keystreams and payload
  buffers in place, proved against those functions.
- **Flow control and streams.** `SendWindow`, `StreamRead` and `Upload` are client/peer systems
  whose runs are arbitrary sequences of steps; `Stream` and `StreamIDs` hold the mutating code.
- **Pools.** `CircuitPool` (operations), `PoolRuns` (whole runs with leases) and `PoolClient` (the
  fields updated in place, including the loops that walk a snapshot while they change the pools);
  `ProxyAuth` and `IdentityPool` (single-flight building of isolated clients).
- **Algorithmic cores.** `HashRing`, `TimePeriods`, `PathSelect`, `LinkCells`.

A run is a finite sequence of actions applied to a start state; an action that is not enabled
changes nothing, so a statement about all sequences is a statement about all interleavings. For each
system a `...Traced` or `...Counted` lemma ties every part of the state to the actions that took
effect, so that the invariants speak of what happened and not only of what was recorded.

Hypotheses that the laws need are explicit: recognition up to the first chance match of the
truncated digest (`NoChanceMatch`, and `PeelOfLayer` shows that it is exactly the condition),
decoding up to the first failed write, peers that follow the specification where conservation
against them is claimed, and bootstraps that return fresh clients where isolation is claimed.

Properties that turned out false of the code are stated with the inputs that break them and the
exact condition under which they hold. `IsoKey` is documented as unambiguous because
NUL cannot occur in credentials; RFC 1929 strings are length-prefixed and may hold any byte, and
`CollidesIff` shows that the mapping is ambiguous exactly at pairs that contain one. `TimePeriod`
subtracts in unsigned arithmetic, so `ByPeriodIff` holds exactly from the first noon of the Unix
epoch on. A stream that the exit has ended gives its ID back and gives it back again when it is
closed: `HitsIff` and `NoHitBeforeWrap` say when that is harmless, and `LateCloseHits` is a run in
which another stream loses its entry. `SendData` takes back the permit of a failed write that may
have reached the peer: `StrayBreaksExactness` shows the extra permit, and `CircuitConserved` that it
exists only on a closed circuit and never lifts the unacknowledged cells above 1000.

## Model

| member | source | states |
|---|---|---|
| `Bytes.XorStreamCancels` | internal/byteutil/byteutil.go:140-148 | XORing the same stretch of keystream twice restores the bytes |
| `Bytes.XorBit` | internal/byteutil/byteutil.go:140-148 | exclusive-or adds the binary digits of two bytes without carry |
| `Bytes.XorChanges` | internal/byteutil/byteutil.go:140-148 | it changes a byte exactly when the other byte is not zero |
| `Bytes.PutGetU16` | internal/byteutil/byteutil.go:31-34 | two-byte big-endian fields are canonical: re-encoding what was decoded restores the bytes |
| `Bytes.PutGetU32` | internal/byteutil/byteutil.go:37-40 | the same for four-byte fields |
| `RelayCells.EncodeLayout` | pkg/cell/relay.go:115-125 | every field of an encoded relay cell sits at its offset, data cut at 498 bytes, the rest zero |
| `RelayCells.DecodeEncode` | pkg/cell/relay.go:115-145 | decoding an encoded cell gives it back, with data cut at 498 bytes |
| `RelayCells.DecodeIff` | pkg/cell/relay.go:127-145 | any 509 bytes decode exactly when the big-endian length field is at most 498, each field is read from its offset, and the padding does not matter |
| `RelayCells.EncodeDecode` | pkg/cell/relay.go:115-145 | re-encoding what was decoded restores all bytes but the padding |
| `RelayCells.EncodeWithDigest` | pkg/cell/relay.go:115-125 | writing the digest field into an encoded cell is encoding the cell with that digest: no other field is touched |
| `Onion.StampedIsRecognised` | pkg/circuit/circuit.go:402-409 | a stamped cell is recognised by the half that stamped it, blanking its digest restores what was hashed, and it decodes to the cell sent |
| `Onion.CryptChanges` | pkg/circuit/circuit.go:411-413 | a layer changes exactly the bytes that meet a nonzero keystream byte, digit by digit as exclusive-or does |
| `Onion.PeelOfLayer` | pkg/circuit/circuit.go:402-415 | peeling undoes layering and leaves sender and receiver halves equal if and only if no hop before the destination matches the truncated digest by chance |
| `Onion.PeelMovesStreams` | pkg/circuit/circuit.go:582-604 | for any payload whatever, recognised or not, peeling moves the keystreams of exactly the hops tried by one cell, and changes no digest but that of the hop that recognised it |
| `Onion.PeelOfLayerExtend` | pkg/circuit/circuit.go:289-312 | a receiver with hops added after the cell was layered still peels it, and the added hops stay as negotiated |
| `Turnstile.RunKeeps` | pkg/circuit/circuit.go:336-396 | in every interleaving, failed and panicking writes included: the link is handed the cells in ticket order, the pending tickets are exactly sendTurn..sendNext-1, only the holder of the turn writes, RELAY_EARLY cells never exceed 8 |
| `Turnstile.RunTraced` | pkg/circuit/circuit.go:336-396 | in every run the cells are those claimed, in order; the circuit is closed exactly when a writer has failed it or it was destroyed; which cells reached the relay and how many before the first bad write follows from the results of the writes alone |
| `Turnstile.ClaimGrantedIff` | pkg/circuit/circuit.go:336-362 | a claim is granted exactly on a circuit that nothing has closed, and a RELAY_EARLY cell only while fewer than 8 have been claimed |
| `Turnstile.ClosedForGood` | pkg/circuit/circuit.go:336-341 | a closed circuit stays closed and claims no further cell in any later run |
| `Turnstile.FailedWriteCloses` | pkg/circuit/circuit.go:381-395 | once the writers are through, a circuit on which some write failed is closed |
| `Turnstile.DestroyCloses` | pkg/circuit/circuit.go:630-640 | destroying closes the circuit at any time and changes nothing else of the turnstile |
| `Turnstile.HolderMoves` | pkg/circuit/circuit.go:374-396 | while anything is pending some goroutine can move, and while tickets are pending it is the holder of the turn, which never sleeps |
| `Turnstile.InternalShrinks` | pkg/circuit/circuit.go:374-396 | every step of any goroutine inside writeAtTurn brings the turnstile strictly nearer to drained |
| `Turnstile.Drains` | pkg/circuit/circuit.go:366-396 | for every assignment of SendCell results (success, failure, panic) to tickets there is a schedule with exactly those results in which the goroutines inside finish: every claimed cell is handed over, in order, and none is stranded |
| `Turnstile.SchedulesEnd` | pkg/circuit/circuit.go:374-396 | every schedule of the goroutines inside, under any results, is bounded in length and keeps the invariant and the claimed cells |
| `Turnstile.StuckIsDrained` | pkg/circuit/circuit.go:374-396 | a state in which none of them can move is drained: with SchedulesEnd, every maximal schedule drains the turnstile |
| `Uplink.RunKeepsSync` | pkg/circuit/circuit.go:336-415 | in every run with hops added at any time the relays stand where the client stood after the cells they processed, up to the first failed write or chance match |
| `Uplink.ForwardSync` | pkg/circuit/circuit.go:402-415 | every such cell is recovered by exactly the hop it was sent to: same command, stream and data, recognized 0 |
| `Uplink.RelaysInStep` | pkg/circuit/circuit.go:322-365 | once all tickets are written and processed, every relay has the client's keystream position and digest and no cell is missing |
| `Uplink.RunTraced` | pkg/circuit/circuit.go:336-365 | in every run the log holds exactly the accepted sends, with destination, contents and kind, in order; the hops are those added; one cell is processed for each delivery |
| `Uplink.GateRuns` | pkg/circuit/circuit.go:336-396 | the gate of an uplink is always the result of a run of the turnstile, so all its laws hold of it |
| `Uplink.SendAcceptedIff` | pkg/circuit/circuit.go:336-352 | a send is accepted exactly on an open circuit that has the hop, and as RELAY_EARLY only while fewer than 8 have been |
| `Uplink.OthersAccepted` | pkg/circuit/circuit.go:302-310 | hops can be added at any time, at the end of the circuit and on their relay |
| `Uplink.CatchUp` | pkg/circuit/circuit.go:402-415 | the relays can always process all that is on the wire |
| `Downlink.RunKeepsAccount` | pkg/circuit/circuit.go:498-525 | after any run with n data cells the deliver window is 1000 - n mod 100, n div 100 SENDMEs were claimed while open, and each names the hop and carries the 20-byte digest of the cell that completed its hundred |
| `Downlink.RunTraced` | pkg/circuit/circuit.go:446-490 | in every run every recognised DATA cell, and no other, is accounted, once and for the hop that recognised it; the circuit is closed exactly after a close or a TRUNCATED cell; the log holds exactly the cells originated |
| `Downlink.AccountFromCells` | pkg/circuit/circuit.go:446-525 | with n DATA cells among those received the window is 1000 - n mod 100, and unless the circuit was closed n div 100 SENDMEs were claimed, the j-th for the hop of the 100j-th DATA cell |
| `Downlink.ClosedClaimsNone` | pkg/circuit/circuit.go:509-512 | a closed circuit claims no further SENDME in any later run |
| `Downlink.SendmeBody` | pkg/circuit/circuit.go:563-577 | a SENDME body is version 1, length 20 and the first 20 bytes of the digest, for SHA-1 and SHA3-256 alike |
| `Downlink.RunKeepsSync` | pkg/circuit/circuit.go:582-604 | in every run, with cells injected at any point, the client's backward halves are those of the relays after the cells received so far, up to the first injected cell or chance match |
| `Downlink.BackwardSync` | pkg/circuit/circuit.go:579-604 | every such cell is recognised at exactly the hop that originated it, with its command, stream and data |
| `Downlink.ClientInStep` | pkg/circuit/circuit.go:582-604 | after receiving everything originated the client has every relay's backward position and digest |
| `Downlink.SendmeMatchesSource` | pkg/circuit/circuit.go:446-525 | SENDME number j goes to the hop that originated the 100j-th data cell and carries that hop's own digest right after originating it |
| `Circuit.RunningDigest.VerifyAndCommit` | pkg/torcrypto/digest.go:54-70 | succeeds exactly when the wanted bytes are a prefix of the digest of history and payload; the history grows only then |
| `Circuit.XorKeyStream` | pkg/circuit/circuit.go:411-413 | in place, the buffer becomes its XOR with the keystream from the given position |
| `Circuit.EncodeRelay` | pkg/cell/relay.go:115-125 | filling a zeroed 509-byte buffer at fixed offsets yields the specified encoding |
| `Circuit.LayerBySteps` | pkg/circuit/circuit.go:402-415 | digesting first and XORing layers after gives the payload and halves of the abstract layering |
| `Circuit.Circuit.AddHop` | pkg/circuit/circuit.go:302-310 | the new hop is appended in both directions and the others are unchanged |
| `Circuit.Circuit.EncryptForward` | pkg/circuit/circuit.go:402-415 | the in-place digest, stamp and layer loop computes the abstract layering: payload and every hop's new state |
| `Circuit.Circuit.TryRecognise` | pkg/circuit/circuit.go:586-600 | the digest check commits exactly when the hop recognises the payload, and otherwise changes nothing |
| `Circuit.Circuit.DecryptInbound` | pkg/circuit/circuit.go:582-604 | the peeling loop computes the abstract peeling: hop, cell and every hop's new state |
| `Circuit.Circuit.ClaimRelay` | pkg/circuit/circuit.go:336-362 | refused exactly when closed, out of range or over the RELAY_EARLY budget, with the matching error and no state changed; otherwise layering, budget and ticket advance together |
| `Circuit.Circuit.AccountInboundData` | pkg/circuit/circuit.go:498-516 | the window and the claimed SENDME are those of the abstract accounting, layered and ticketed with all other sends |
| `Circuit.Circuit.CreditPackageWindow` | pkg/circuit/circuit.go:529-537 | permits grow by n, capped at 1000 |
| `Circuit.Circuit.Fail` | pkg/circuit/circuit.go:617-627 | the circuit is closed, the first error is kept, and the channel that blocked callers wait on is closed, never twice |
| `SendWindow.CircuitConserved` | pkg/circuit/circuit.go:529-561 | in every run against a rule-following peer, over every error path and with failed writes that reached the peer all the same: available + held + in flight + counted + 100 x SENDMEs + being credited + dropped = 1000 + such writes; at most 1000 cells are unacknowledged or being written; a permit is dropped at the cap only after such a write and never on an open circuit; against any peer at most 1000 permits |
| `SendWindow.StreamConserved` | pkg/stream/stream.go:256-298 | the same for a stream's window of 500 and increments of 50 |
| `SendWindow.QuietWindow` | pkg/circuit/circuit.go:539-561 | with nothing in progress, what is missing from the window is what the peer has counted, less than 100, or the circuit is closed after a failed write that reached the peer |
| `SendWindow.RunCounted` | pkg/circuit/circuit.go:529-561 | in every run each part of the system holds what its actions have put there: calls by phase, cells on the wire, one SENDME for each full increment the peer counted, permits taken, given back and credited; closed exactly when failed or destroyed |
| `SendWindow.Settles` | pkg/circuit/circuit.go:539-561 | from every state the calls can finish, the peer count what is on the wire and every SENDME be credited |
| `SendWindow.StrayBreaksExactness` | pkg/circuit/circuit.go:381-395 | from every open circuit with a permit to take and no failed write pending, one failed write that reached the peer leaves one permit too many, on a closed circuit |
| `StreamRead.DrainConserves` | pkg/stream/stream.go:236-254 | a read returns as many bytes as fit, in order, leaves the rest, and counts exactly the chunks used up |
| `StreamRead.RunKeeps` | pkg/stream/stream.go:123-254 | over every interleaving of arrivals, reads, END, Close, timeouts and SENDMEs: bytes, window, end and wake-up invariants together |
| `StreamRead.ReceiveConserved` | pkg/stream/stream.go:236-254 | peer window + in flight + buffered + consumed + 50 x SENDMEs owed or in flight = 500 until the stream ends or a SENDME fails; never more than 500 cells buffered |
| `StreamRead.EndIsFinal` | pkg/stream/stream.go:148-231 | bytes read are a prefix of bytes accepted; an end error is the first one recorded and comes only after the last byte; nothing is accepted after the end |
| `StreamRead.RunTraced` | pkg/stream/stream.go:123-188 | in every run the bytes accepted are those the exit sent, in order, up to the first end; the end recorded is the first END (Eof for reason 6, an error with the reason otherwise) or Close; every counter and the signal slot follow from what happened |
| `StreamRead.ReadReturns` | pkg/stream/stream.go:192-210 | a Read returns as many buffered bytes as fit; on an empty buffer the end, if there is one; otherwise it blocks |
| `StreamRead.BlockedReads` | pkg/stream/stream.go:212-230 | how a blocked reader goes on: timeout, signal, or the end of the stream, which it returns unless there is data |
| `StreamRead.BlockedReaderWakes` | pkg/stream/stream.go:183-231 | a blocked reader with data or an end to see has a wake-up posted or about to be, and taking it brings the reader back to the lock |
| `Stream.CutKeepsBytes` | pkg/stream/stream.go:258-265 | cutting an argument into cells keeps the bytes in order, in chunks of 1..498 bytes that encoding never truncates |
| `Stream.Stream.OnData` | pkg/stream/stream.go:123-138 | empty cells and cells after the end are dropped, others are appended and signalled |
| `Stream.Stream.OnEnd` | pkg/stream/stream.go:148-171 | the first end is kept, the reader is signalled, a pending Begin gets the error, the context is cancelled and the ID goes back to the manager |
| `Stream.Stream.Close` | pkg/stream/stream.go:322-339 | works once; buffered data stays; an earlier end is kept; the ID goes back to the manager |
| `Stream.Stream.TakeFront` | pkg/stream/stream.go:237-251 | one round moves a non-empty front part to the buffer without changing what the whole read will yield |
| `Stream.Stream.DrainLocked` | pkg/stream/stream.go:236-254 | the loop fills the buffer as specified, leaves the rest of the buffer alone, and owes one SENDME for each 50 chunks used up |
| `Stream.Stream.ReadOnce` | pkg/stream/stream.go:192-210 | bytes returned followed by bytes buffered are the bytes buffered before; an error is returned only on an empty buffer |
| `Stream.Stream.CreditPackage` | pkg/stream/stream.go:173-181 | permits grow by n, capped at 500 |
| `Stream.Stream.Write` | pkg/stream/stream.go:258-298 | with SENDMEs coming in while it waits: the bytes reported are exactly those in the cells sent, in order; each costs one permit, a failed chunk gives its permit back, and it stops early only at a round that finds no permit or fails to send |
| `Upload.RunKeeps` | pkg/stream/stream.go:258-298 | in every run, for every stream: the data in its claimed cells is what its Write calls reported plus the chunk in hand, unless a write of its own failed; all chunks have 1..498 bytes |
| `Upload.EndToEnd` | pkg/stream/stream.go:256-298 | without a failed write or chance match, what relays decoded for a stream is a prefix of what Write reported plus the chunk in hand, and all of it once processed |
| `Upload.WritesReported` | pkg/stream/stream.go:258-298 | in every run what a stream has reported is a prefix of each argument of its Write calls, in order |
| `Upload.ChunkReportedIff` | pkg/stream/stream.go:277-296 | a chunk whose write is over is reported exactly if the write succeeded |
| `Upload.WriterMoves` | pkg/stream/stream.go:258-298 | no Write call is stuck, and a chunk is claimed exactly when the circuit accepts it |
| `Upload.NetRuns` | pkg/circuit/circuit.go:541-561 | the network part of an upload is always the result of a run of the uplink |
| `StreamIDs.SearchFindsFirst` | pkg/stream/manager.go:102-122 | the search returns the first free ID in cyclic order from the cursor and moves the cursor past it |
| `StreamIDs.AllocComplete` | pkg/stream/manager.go:102-122 | allocation fails exactly when all 65535 IDs are in use, and otherwise yields a nonzero free ID |
| `StreamIDs.RunGood` | pkg/stream/manager.go:102-128 | over all runs of opens, ENDs and closes the cursor is nonzero, every ID in use belongs to the latest stream with that ID, which neither side has finished with, and completeness holds at every point |
| `StreamIDs.HitsIff` | pkg/stream/manager.go:124-128 | closing a stream takes another stream's entry if and only if its ID is in use and not its own, the test that `remove` does not make |
| `StreamIDs.VictimIsLive` | pkg/stream/stream.go:322-339 | the stream hit is live and got the ID later: a close whose ID was not issued again hits nobody |
| `StreamIDs.NoHitBeforeWrap` | pkg/stream/manager.go:102-128 | in every run that has opened at most 65535 streams no close takes another stream's entry |
| `StreamIDs.LateCloseHits` | pkg/stream/stream.go:322-339 | a run with one stream more in which it does: the first stream, ended by the exit, is closed after its ID was issued again |
| `StreamIDs.Manager.NewStream` | pkg/stream/manager.go:102-122 | the wrapping loop computes the specified search and table |
| `StreamIDs.Manager.RemoveStream` | pkg/stream/manager.go:124-128 | only the given ID is freed |
| `CircuitPool.FirstReusable` | pool.go:124-153 | acquire returns the first circuit in the list that is open, not retired, within the dirtiness window and permits the port; nothing is returned only if none qualifies |
| `CircuitPool.InsertKeeps` | pool.go:82-96 | inserting a built circuit keeps the pool invariant: caps of 32 and 8, each circuit once in its own list, no empty host entry |
| `CircuitPool.ReleaseKeeps` | pool.go:190-199 | so does releasing a stream, with the teardown it may cause |
| `CircuitPool.NewIdentityKeeps` | client.go:371-379 | so does NewIdentity |
| `CircuitPool.DestroyKeeps` | pool.go:208-225 | so does tearing down any set of circuits |
| `CircuitPool.DestroyLeaves` | pool.go:208-225 | tearing circuits down takes exactly them out of the pool |
| `CircuitPool.DestroyCloses` | pool.go:206-211 | tearing circuits down closes exactly them, so none leaves the pool open |
| `CircuitPool.ReleaseLeaves` | pool.go:190-199 | releasing a stream takes its circuit out of the pool exactly when it was the last and the circuit is retired or expired |
| `CircuitPool.Caps` | pool.go:25-37 | at most 32 reusable clearnet circuits and 8 for each onion host |
| `CircuitPool.InsertedReusableIff` | pool.go:82-96 | a new circuit is kept for reuse exactly below the caps of 32, 8 for each host and 64 hosts, with its data and one stream |
| `CircuitPool.InsertedServes` | client.go:261-284 | a circuit inserted below the cap serves the next dial to its host, or to a port its exit permits, within the dirtiness window |
| `CircuitPool.ReapLeaves` | pool.go:265-276 | what the janitor leaves pooled is exactly the live circuits that are in use, or neither retired nor expired |
| `CircuitPool.NewIdentityLeaves` | client.go:371-379 | NewIdentity leaves pooled exactly the circuits in use, and every circuit that was pooled is retired |
| `CircuitPool.CloseAllEmpties` | client.go:355-359 | destroying every pooled circuit leaves both pools empty |
| `PoolRuns.RunKeeps` | pool.go:55-153 | in every reachable state the pool invariant holds and every circuit's stream count is the number of its outstanding leases |
| `PoolRuns.DestroyedOnlyIdle` | pool.go:190-276 | outside Close and RotateGuard a circuit that was open is torn down only when no lease on it remains |
| `PoolRuns.NoCircuitLeaks` | pool.go:206-225 | in every reachable state a circuit that is not pooled is closed |
| `PoolRuns.ClosedExactly` | pool.go:206-225 | in every run a step closes exactly the circuits that it takes out of the pool, and the one that dies |
| `PoolRuns.PoolMembership` | pool.go:187-276 | in every run, which circuits are pooled after a step, for every kind of step |
| `PoolRuns.AcquiredIff` | pool.go:122-153 | acquire hands out a pooled circuit of the host that is open, not retired, within the window and permits the port, and nothing exactly when there is none |
| `PoolRuns.LeasesTraced` | pool.go:278-300 | a lease is outstanding exactly from its dial until it is given back |
| `PoolRuns.GiveBackOnce` | pool.go:291-300 | every lease can be given back, and closing it again does nothing, ever |
| `PoolRuns.AcceptedIff` | client.go:261-292 | when each step of a dial is possible, from what happened before |
| `PoolRuns.TeardownEmpties` | client.go:414-418 | Close and RotateGuard leave both pools empty from every reachable state |
| `PoolRuns.NeverHandedOutAgain` | client.go:367-379 | no circuit pooled when NewIdentity runs is handed out in any later run |
| `PoolClient.SweepAtOnce` | pool.go:237-246 | walking a snapshot while the pools change under it has the effect of the whole pass at one stroke, for teardown, janitor and NewIdentity |
| `PoolClient.OwnHost` | pool.go:213-225 | a circuit is in no list but its own host's, so rewriting that list removes it from the pool |
| `PoolClient.Client.CountReusableIn` | pool.go:61-80 | the loop counts the circuits that are not retired |
| `PoolClient.Client.InsertCircuit` | client.go:275-283 | insertion in place, with retirement at the caps, is the specified insertion and keeps the invariant |
| `PoolClient.Client.Acquire` | pool.go:124-153 | returns the first reusable circuit and adds one stream to it, or changes nothing |
| `PoolClient.Client.RemovePooled` | pool.go:227-235 | the fresh list is the old one without the circuit, in order |
| `PoolClient.Client.DestroyLocked` | pool.go:208-225 | exactly this circuit is closed and gone from the pool, a host left empty loses its entry, the invariant is kept |
| `PoolClient.Client.ReleaseStream` | pool.go:190-199 | one stream fewer, never below zero, and teardown exactly when idle and retired or expired |
| `PoolClient.Client.AllPooled` | pool.go:239-246 | the snapshot holds exactly the pooled circuits |
| `PoolClient.Client.DestroyEverything` | client.go:355-359 | the loop of Close and RotateGuard closes exactly the pooled circuits and leaves both pools empty |
| `PoolClient.Client.Reap` | pool.go:265-276 | the janitor destroys exactly the dead circuits and the idle ones that are retired or expired |
| `PoolClient.Client.NewIdentity` | client.go:371-379 | every pooled circuit is retired, exactly the idle ones are destroyed |
| `ProxyAuth.KeyInjective` | pkg/proxyauth/proxyauth.go:28-37 | a pair without NUL shares its key with no other pair at all |
| `ProxyAuth.KeyLayout` | pkg/proxyauth/proxyauth.go:32-37 | the key is empty for no credentials, otherwise user name, one NUL, password |
| `ProxyAuth.CollidesIff` | pkg/proxyauth/proxyauth.go:28-37 | a pair shares its key with another pair if and only if a NUL byte occurs in it |
| `ProxyAuth.Collision` | pkg/proxyauth/proxyauth.go:32-37 | two concrete distinct pairs with one key |
| `IdentityPool.ClientPool.Lookup` | cmd/go-tor-client/client_pool.go:70-90 | the first locked section: the decision, and the build registered exactly when one is to start; the cap and key disjointness are kept |
| `IdentityPool.ClientPool.Install` | cmd/go-tor-client/client_pool.go:98-103 | the second locked section: the build is over, a success is installed, no installed client is replaced |
| `IdentityPool.RunKeeps` | cmd/go-tor-client/client_pool.go:69-108 | in every interleaving clients plus builds in flight are at most 64 with disjoint keys, every build belongs to one live call, and every success is the key's installed client |
| `IdentityPool.SingleFlight` | cmd/go-tor-client/client_pool.go:75-93 | at most one bootstrap runs for a key, and none once the key has a client |
| `IdentityPool.NeverReplaced` | cmd/go-tor-client/client_pool.go:98-103 | an installed client stays through every later run |
| `IdentityPool.WaiterServed` | cmd/go-tor-client/client_pool.go:75-83 | a waiting call can be woken, or the call it waits for is still at work |
| `IdentityPool.SameKeySameClient` | cmd/go-tor-client/client_pool.go:63-108 | every successful call for a key returns the client installed for it |
| `IdentityPool.RunTraced` | cmd/go-tor-client/client_pool.go:69-108 | in every interleaving a finished call that joined a build has that build's result unless it was cancelled, and a build's result is what its bootstrap gave |
| `IdentityPool.CallReturns` | cmd/go-tor-client/client_pool.go:75-108 | the same for one call, and a bootstrap ends once |
| `IdentityPool.NewCall` | cmd/go-tor-client/client_pool.go:70-90 | what a new call meets: the installed client at once, a build of its key, a full pool of 64, or room to bootstrap |
| `IdentityPool.CallMoves` | cmd/go-tor-client/client_pool.go:69-108 | no call is stuck |
| `IdentityPool.Isolation` | cmd/go-tor-client/client_pool.go:56-61 | with fresh bootstraps, calls under NUL-free credentials get the same client if and only if the credentials are the same |
| `HashRing.LessIsValue` | pkg/onion/hashring.go:34-36 | byte-string order of equal-length indices is the order of the numbers they denote |
| `HashRing.ServiceIndexInput` | pkg/onion/hashring.go:64-74 | the string hashed for a service index, by offsets |
| `HashRing.NodeIndexInput` | pkg/onion/hashring.go:76-86 | the string hashed for a node index, by offsets |
| `HashRing.Int8beValue` | pkg/onion/hashring.go:88-92 | an eight-byte field holds its number in big-endian order |
| `HashRing.ClockwiseIsModular` | pkg/onion/hashring.go:44-48 | clockwise distance from just after the service index is the difference of places modulo the size of the ring |
| `HashRing.BuildRing` | pkg/onion/hashring.go:27-33 | the ring holds exactly the candidates with a 32-byte identity, each with its index |
| `HashRing.SortRing` | pkg/onion/hashring.go:34-36 | a permutation in index order, all that sort.Slice promises |
| `HashRing.SearchAfter` | pkg/onion/hashring.go:45-48 | binary search returns the first position past the service index |
| `HashRing.ScanOrder` | pkg/onion/hashring.go:50-51 | the wrap-around scan meets the entries in order of clockwise distance |
| `HashRing.PickShare` | pkg/onion/hashring.go:44-59 | one replica picks, three times or until none is left, the clockwise-nearest identity not yet chosen |
| `HashRing.ResponsibleHSDirs` | pkg/onion/hashring.go:22-62 | the whole function makes the choice of the rule over the set of valid identities, from the given nodes |
| `HashRing.ResponsibleSize` | pkg/onion/hashring.go:41-62 | for any number of replicas: no identity twice, and min(3 x replicas, number of identities) of them |
| `HashRing.SizeOfResult` | pkg/onion/hashring.go:18-21 | for the code's two replicas: no duplicate, min(6, number of distinct valid identities) |
| `HashRing.TwoShares` | pkg/onion/hashring.go:41-62 | the first three, or all if fewer, are replica 1's choice, the rest replica 2's |
| `HashRing.ResponsibleUnique` | pkg/onion/hashring.go:41-62 | when distinct identities have distinct indices the rule allows one list only |
| `HashRing.OrderIrrelevant` | pkg/onion/hashring.go:22-62 | reordering or repeating candidates does not change the identities chosen |
| `TimePeriods.PeriodIff` | pkg/onion/timeperiod.go:20-24 | the period number is the count of noons passed if and only if the first noon of the epoch has passed |
| `TimePeriods.UsableIff` | pkg/onion/timeperiod.go:34-48 | a 32-byte value is returned exactly when the consensus carries one |
| `TimePeriods.ByPeriodIff` | pkg/onion/timeperiod.go:26-48 | under daily rotation the value used is the one indexed by the period number, whatever the values are, if and only if the first noon has passed |
| `TimePeriods.OneRingForEachPeriod` | pkg/onion/timeperiod.go:26-48 | all clients in one noon-to-noon period choose the same directories, in whatever order they list them |
| `PathSelect.ExcludedBy` | pkg/pathsel/pathsel.go:159-173 | the loop finds whether any excluded relay, nil entries aside, is the same relay or shares its /16 |
| `PathSelect.WeighOne` | pkg/pathsel/pathsel.go:125-136 | a relay's share is its weight if it passes every check and the weight is positive, else nothing |
| `PathSelect.Candidates` | pkg/pathsel/pathsel.go:123-139 | the total is the sum of all shares and each candidate's stretch starts where the ones before it end |
| `PathSelect.Choose` | pkg/pathsel/pathsel.go:143-150 | the decrementing loop returns the relay in whose stretch the draw falls; the fallback is unreachable |
| `PathSelect.SelectWeighted` | pkg/pathsel/pathsel.go:114-151 | no relay is found exactly when none has a positive share; otherwise the draw is one of the returned relay's |
| `PathSelect.ExactWeights` | pkg/pathsel/pathsel.go:143-150 | the draws in [0, total) that return a relay are exactly as many as its weight |
| `PathSelect.DrawsPartition` | pkg/pathsel/pathsel.go:143-150 | every draw in [0, total) returns exactly one relay |
| `PathSelect.PickIsSound` | pkg/pathsel/pathsel.go:125-136 | a relay that can be returned is eligible, has positive weight and conflicts with no excluded relay |
| `PathSelect.GuardShare` | pkg/pathsel/pathsel.go:30-46 | the guard selector's requirements flag by flag, exclusions and weight keys |
| `PathSelect.ExitShare` | pkg/pathsel/pathsel.go:60-79 | the same for the exit selector, BadExit and the caller's filter included |
| `PathSelect.MiddleShare` | pkg/pathsel/pathsel.go:48-103 | the same for the middle and directory-cache selectors |
| `PathSelect.QuotientTruncates` | pkg/pathsel/pathsel.go:111-111 | the division truncates toward zero |
| `PathSelect.WeightExactIff` | pkg/pathsel/pathsel.go:106-112 | the weight in 64-bit arithmetic is the exact one if and only if the product of bandwidth and weight fits |
| `PathSelect.TotalExactIff` | pkg/pathsel/pathsel.go:123-139 | the 64-bit total is the sum of the shares if and only if that sum is below 2^63 |
| `LinkCells.FrameLayout` | pkg/cell/cell.go:119-140 | the framed length by command number: 7 and 128..255 carry a length field and body, all others 509 bytes, after a 4- or 2-byte ID and the command |
| `LinkCells.BodyLayout` | pkg/cell/cell.go:127-139 | the bytes of the body: big-endian length and payload, or the payload cut or zero-padded |
| `LinkCells.IdLayout` | pkg/cell/cell.go:121-125 | the circuit ID in big-endian order, its low 16 bits in the short form |
| `LinkCells.ReadOfEncode` | pkg/cell/cell.go:119-177 | a cell followed by anything is read back normalised with the rest untouched if and only if its ID fits the width and its variable body has at most 16384 bytes |
| `LinkCells.EncodeOfRead` | pkg/cell/cell.go:119-177 | whatever was read re-encodes to the same bytes, fits, and is already normalised |
| `LinkCells.FramingRoundTrip` | pkg/cell/cell.go:119-177 | reading concatenated encodings yields the same cells with nothing left |
| `LinkCells.FramingCanonical` | pkg/cell/cell.go:143-177 | any bytes are the encodings of the cells read from them followed by the part not read |
| `LinkCells.EncodeCell` | pkg/cell/cell.go:119-140 | the writer-based encoder yields the specified bytes, truncating or padding fixed payloads to 509 |
| `LinkCells.ReadCellFrom` | pkg/cell/cell.go:143-177 | the step-by-step reader computes the specified read and leaves exactly the rest, over all error branches |

## Left out

- Crypto primitives: AES-CTR, SHA-1, SHA3-256, ntor, hs_ntor, Ed25519 and key blinding are arbitrary functions; nothing probabilistic is stated.
- Hop objects: a hop's keystream and digest are values in a sequence that the circuit reassigns, so aliasing between hop objects is not captured.
- Order of backward layering: each relay layers backward cells in the order in which they reach the client; a cell and its layers are one step.
- Decoding after a failed write: not promised by the code and not stated.
- Writes that panic: in `Turnstile` they unwind the writer; `SendWindow` has no step for them, because an unrecovered panic ends the program.
- Upload.EndToEnd: one application writer for each stream; concurrent Write calls on one stream are not modelled.
- StreamRead.BlockedReaderWakes: one reader at a time; several concurrent readers of one stream are not promised a wake-up.
- Empty DATA cells: dropped by `Stream.OnData` and not part of the receive-window system, in which the exit sends non-empty cells only.
- Stream connection set-up: sending BEGIN, the CONNECTED cell and the body of dispatch would add easy members; a failed begin appears as a release of its ID.
- Distinct onion hosts: the cap of 64 hosts is modelled in the insertion decision; that it bounds hosts with reusable circuits over whole runs is not claimed, because the code does not keep it.
- Pool statistics, the directory circuit and guard connection: outside the pool loops modelled.
- The DESTROY cell and the freeing of the circuit ID on teardown: outside the turnstile; only the closing of the circuit is modelled.
- HashRing.SortRing: stands for sort.Slice and works on a sequence; the other members depend only on order and permutation. Which of several nodes with one identity is chosen is left open, as in the source.
- PathSelect.SelectWeighted: works over unbounded integers; `WeightExactIff` and `TotalExactIff` say exactly when the 64-bit code computes the same. Addresses are represented by the parsed first two octets.
- Ticket counters: mathematical integers. Wrap-around is modelled for stream IDs, cell fields, circuit IDs, body lengths and time periods.
- DisasterSRV, serviceIndex and nodeIndex: uses of SHA3-256; the last two appear as the hashed strings only.
- I/O: TLS, sockets, timers, deadlines, contexts, logging, HTTP and SOCKS front ends, text parsing, caches and the command line. Clocks, random draws, network outcomes and cancellation are parameters or actions.
