# A verified model of the DCR SDK client

The DCR SDK is a Go client that sends `Target`, `Report` and `Touch` requests over groups of mTLS connections. This
project models in Dafny the parts of it that hold state, branch and compute, and proves what they keep over every
input, every interleaving and every crash:

| module | file | what it models |
|---|---|---|
| ReconnectProtocol | `reconnect_protocol.dfy` | dials, handshakes, closes, address refreshes, certificate updates and any number of concurrent Reconnects as interleaved atomic steps |
| Dialer, Balance, Addresses | `dialer.dfy`, `balance.dfy`, `addresses.dfy` | the DNS dialer: resolving, the round-robin pointer, the registry of open connections, the rebalancer; and how evenly it spreads connections |
| RoundRobin | `round_robin.dfy` | the two-level choice of a client under concurrent callers, with 64-bit wrap-around |
| Wire, Contract | `wire.dfy`, `contract.dfy` | the frames on the wire, and the reused buffers and pooled objects they are written from and read into |
| Rpc | `rpc.dfy` | one call, its outcome and its counters, and overlapping calls |
| Payer, Uuids | `payer.dfy`, `uuid.dfy` | payers stamped onto rules in place, the text form of UUIDs, and the server's check |
| Renewal, Files | `renewal.dfy`, `files.dfy` | certificate renewal over a file system that may fail, and a process that may die, at every step |
| RenewalTiming | `renewal_timing.dfy` | the check and retry loop against the clock, and the polling of the CA under a deadline |
| Configurations | `configuration.dfy` | the configuration cleaned up and completed, the clients built from it, the inferred server name |

Code that changes things in place is modelled by classes and methods over the same fields and loops, each proved
against a specification; what runs concurrently is a state machine whose steps are the stretches of code between two
accesses to shared memory. A step of the state machine, and an event of a history, may happen whenever its guard allows,
so a statement about all runs is a statement about all interleavings.

The main results:

- **Update, then Reconnect.** Every connection in its client's slot when a Reconnect begins is closed when it has returned,
  whatever else goes on (`ReconnectProtocol.ReconnectClosesWhatItFound`); so no open connection was handshaken with a
  certificate older than the one current when it began (`ReconnectLeavesNoOldConnection`). The order matters:
  `UpdateAfterBeginMayBeMissed` is a run in which an Update that came later is missed. Reconnect cannot get stuck.
- **Renewal survives crashes.** At every moment of any life of checks, failures, crashes and restarts, each of the two
  files is wholly one generation, the key on disk is not older than the certificate on disk, and that not older than the one in
  use at that moment; a restart comes up on the certificate last in use or a newer validated one, or not at all
  (`Renewal.Host.Live`, `Renewal.Host.Restart`).
- **The load is level.** For all interleavings of callers, clients served by the two round robins differ by at most one
  request whenever nobody is between the two bumps (`RoundRobin.FairWhenQuiet`), for ever exactly when both lengths
  divide 2^64 (`RoundRobin.AlwaysFairExactly`).
- **Connections rebalance.** From any counts at all, the cycles of refresh, close and redial reach counts that differ by at
  most one, within a stated number of cycles, and keep them (`Balance.CyclesRecover`, `Balance.EvenOverHistory`). A refresh
  closes nothing exactly at the fixed points (`Dialer.RefreshClosesNothingExactly`).
- **What is sent is what is read.** Any sequence of requests, or of responses with one-byte statuses, survives the wire
  whatever the reused buffers held (`Contract.ReceiveAll`, `Contract.ReceiveAllResponses`); calls that overlap on one pool
  each write their own frame (`Contract.Overlap`); stamped payers always pass the server's check
  (`Payer.TargetReachesServer`, `Payer.ReportReachesServer`); every counted request is accounted for
  (`Rpc.RequestsAreConserved`).

Some properties one might expect do not hold of the code. For each the model has an input that shows it and the exact
condition under which it does hold:

| expected | fails for | holds exactly when |
|---|---|---|
| no connection is open when a Reconnect returns (pkg/client/shardedClient.go:83) | `ReconnectProtocol.ReconnectMayLeaveOneOpen` | no client was dialing, or had dialed without storing, when it began, as long as none starts a dial meanwhile (`ReconnectClosesAllExactly`) |
| what is on disk and what is in use are the same (README.md:216) | `Renewal.DiskMayStray` | the check neither saves a pair that it then cannot use nor fails to save behind a rename (`Renewal.DiskMatchesUseExactly`) |
| counts stay within one of each other when one dial fails, from level counts | `Balance.FailureMayUnbalance` | the counts were equal, or the last turn of dials stops short of the fuller addresses (`Balance.FailureKeepsEvenExactly`) |
| the caller gets the status the server set | `Rpc.RefusalMayArriveAsSuccess` | it is one byte (`Rpc.CallerSeesTheStatus`, `Wire.StatusRoundTripExactly`) |
| the counters of idle clients add up | `Rpc.UndecodedGoesUncounted` | every response could be decoded (`Rpc.CountersAddUpExactly`) |
| round robin stays fair when its counters wrap | `RoundRobin.UnfairClients`, `RoundRobin.UnfairGroups` | both lengths divide 2^64 (`RoundRobin.AlwaysFairExactly`) |

In the first two the documentation at the cited lines says otherwise; the model follows the code.

## Model

| member | source | states |
|---|---|---|
| ReconnectProtocol.ReconnectClosesWhatItFound | pkg/client/shardedClient.go:73-96 | For every interleaving: a connection in its client's slot when a Reconnect began is closed when that Reconnect has returned, and ever after, whatever its certificate |
| ReconnectProtocol.ReconnectLeavesNoOldConnection | pkg/client/shardedClient.go:73-96 | For every interleaving: once a Reconnect that began after certificate v was stored has returned, and ever after, every open handshaken connection presented v or a newer one |
| ReconnectProtocol.ReconnectClosesAllExactly | pkg/client/shardedClient.go:83-96 | From any reachable state: every Reconnect during which no client starts a dial leaves no connection open, if and only if no client was dialing, or had dialed without storing, when it began |
| ReconnectProtocol.DialUnderwayMayBeMissed | pkg/client/shardedClient.go:83-83 | From any state with a dial under way, a run in which a Reconnect returns and the connection of that dial is open |
| ReconnectProtocol.ReconnectMayLeaveOneOpen | pkg/client/shardedClient.go:83-83 | From a new client that is about to dial, a Reconnect that returns and leaves a connection open |
| ReconnectProtocol.StepKeepsFound | pkg/client/client.go:49-64 | A connection that is or was in the slot is open only while the goroutine for its client has still to load the slot, or holds it |
| ReconnectProtocol.RunKeepsYoung | pkg/client/certprovider.go:72-76 | A connection not handshaken yet will present a certificate no older than the current one |
| ReconnectProtocol.ReachableIsSound | pkg/client/client.go:23-44 | Every reachable state, of any number of groups, keeps the protocol invariant (one open connection per client, the slot names it, a reconnecting goroutine holds a stored one) and the registry invariant |
| ReconnectProtocol.AtMostOneOpen | pkg/client/client.go:23-24 | Two open connections of one client are the same connection |
| ReconnectProtocol.StepKeepsOneOpen | pkg/client/client.go:23-31 | No step of anyone gives a client a second open connection or an open one it is not busy with |
| ReconnectProtocol.StepKeepsSlotsSound | pkg/client/client.go:41-44 | The slot only ever names a stored connection of its own client |
| ReconnectProtocol.StepKeepsSlotsComplete | pkg/client/client.go:41-64 | An open stored connection is always in its client's slot: neither a newer Store nor any CompareAndSwap loses it |
| ReconnectProtocol.SwapErasesOnlyClosed | pkg/client/client.go:62-63 | When the CompareAndSwap empties a slot, the connection in it is closed and the client has no open stored one |
| ReconnectProtocol.StepKeepsJob | pkg/client/client.go:49-64 | A reconnecting goroutine holds a stored connection of its own client, and is past Close only once that is closed |
| ReconnectProtocol.UpdateAfterBeginMayBeMissed | pkg/client/shardedClient.go:73-79 | A run in which a Reconnect begun before an Update returns and the client stays open on the old certificate |
| ReconnectProtocol.ReconnectCanProceed | pkg/client/shardedClient.go:83-95 | While a goroutine of a Reconnect is not done, some enabled step of it or of whoever is closing its connection brings it nearer to done |
| ReconnectProtocol.WorkNeverGrows | pkg/client/client.go:49-64 | No step of anyone else sets a reconnecting goroutine back |
| ReconnectProtocol.StepKeepsConnRegistered | pkg/client/dnsDialer.go:225-250 | Over all interleavings a connection is in the map exactly between its registration and the first Close, under its own address, and is closed at most once |
| ReconnectProtocol.StepKeepsRegistry | pkg/client/dnsDialer.go:59-134 | Dials, closes and refreshes keep the registry: addresses never empty nor repeated, dials only to listed addresses |
| ReconnectProtocol.ConnAdvances | pkg/client/dnsDialer.go:243-250 | No step takes a connection back in its Close, its registration or its owner |
| ReconnectProtocol.DialsWhereThePointerStands | pkg/client/dnsDialer.go:79-109 | A client dials the address at its group's pointer, in the list as it was when the client read it, and the pointer moves on by one modulo 2^64 |
| ReconnectProtocol.DialsIntoTheNewList | pkg/client/dnsDialer.go:120-134 | After a refresh of its group a client picks from the new list; the other groups pick from theirs as before |
| Dialer.DnsDialer.constructor | pkg/client/dnsDialer.go:35-77 | A new dialer rotates over what its name resolves to, or over the configured address when that is nothing; never over no address |
| Dialer.DnsDialer.Resolve | pkg/client/dnsDialer.go:136-182 | Nothing without a host or a port or when the lookup fails; a literal address stands for itself; otherwise exactly the IPv4 addresses of the answer, increasing |
| Dialer.ResolutionExactly | pkg/client/dnsDialer.go:136-182 | What a resolution is, case by case in terms of host, port, literal and answer: nothing, the literal with its port, or the IPv4 addresses of the answer, strictly increasing |
| Addresses.LessExactly | pkg/client/dnsDialer.go:180-180 | The order addresses are sorted by: a proper beginning first, else by the first character that differs |
| Addresses.JoinHostPortReads | pkg/client/dnsDialer.go:173-173 | Different hosts, none with a bracket, or different ports never give the same address; a host with a colon is put in brackets |
| Addresses.Rotation | pkg/client/dnsDialer.go:152-181 | The filter, dedup and sort loop yields exactly the IPv4 entries of the answer that have an IP at all, each with the port, once, in order |
| Addresses.RotationIgnoresOrder | pkg/client/dnsDialer.go:152-181 | The rotation does not depend on the order or the repetitions of the resolver's answer |
| Addresses.IncreasingIsUnique | pkg/client/dnsDialer.go:180-180 | A sorted list without repetitions is determined by its members |
| Dialer.DnsDialer.NextAddr | pkg/client/dnsDialer.go:99-109 | The address the 64-bit pointer stands at, and the pointer moved on by one with wrap-around |
| Dialer.DnsDialer.Dial | pkg/client/dnsDialer.go:79-97 | A dial that connects registers one fresh connection under that address; one that fails registers nothing; either acts on counts and pointer as the event of module Balance |
| Dialer.DnsDialer.RefreshOnce | pkg/client/dnsDialer.go:120-134 | A refresh takes over the new list and closes exactly what the rebalancer owes each address, none of it with a request pending; the registry loses these and what others closed meanwhile, each closed once; nothing changes when nothing resolves |
| Dialer.DnsDialer.TakeOver | pkg/client/dnsDialer.go:126-129 | Under the lock: the new list is in place and what is picked is idle and what each address owes |
| Dialer.DnsDialer.CloseAll | pkg/client/dnsDialer.go:131-133 | Each picked connection is closed once and leaves the registry; no other does |
| Dialer.DnsDialer.RebalanceLocked | pkg/client/dnsDialer.go:184-223 | For every iteration order of the map: min(idle, surplus over the target) connections of each listed address, every idle one of an unlisted address, none twice, and none whose owner has a request pending |
| Dialer.TrimsMeans | pkg/client/dnsDialer.go:189-222 | The same without the loop's terms, by counting connections: nothing is closed that brings a listed address below its share or to zero, an idle one stays only where the share is met, and no idle one stays at an unlisted address |
| Dialer.DnsDialer.PickToClose | pkg/client/dnsDialer.go:212-222 | The decrementing loop picks, in any order, as many idle connections of an address as it has above the target |
| Dialer.TrimIdle | pkg/client/dnsDialer.go:213-221 | One idle connection more: picked exactly when its address is unlisted or still above the target, and the loop's balance sheet holds for every address |
| Dialer.DnsDialer.CountAllowed | pkg/client/dnsDialer.go:189-198 | The counts are the numbers of connections per listed address |
| Dialer.DnsDialer.TotalOf | pkg/client/dnsDialer.go:200-203 | The sum of the counts is the number of connections on listed addresses |
| Dialer.RefreshEmptiesNoAddress | pkg/client/dnsDialer.go:204-222 | A listed address with a connection keeps one |
| Dialer.RefreshCapsShares | pkg/client/dnsDialer.go:200-222 | With every connection idle a refresh caps each listed address at max(1, average), which is Balance's step |
| Dialer.RefreshClosesNothingExactly | pkg/client/dnsDialer.go:200-222 | With all connections idle and listed, nothing is closed if and only if no address has two or all have equally many |
| Dialer.TrackedConn.Close | pkg/client/dnsDialer.go:231-250 | The first Close unregisters and closes the connection, every later one does nothing |
| Dialer.DnsDialer.Remove | pkg/client/dnsDialer.go:225-229 | Exactly this connection leaves the registry |
| Balance.SettledExactly | pkg/client/dnsDialer.go:200-222 | The fixed points of the rebalancing step are exactly the counts of at most one each or all equal |
| Balance.RefreshesSettle | pkg/client/dnsDialer.go:184-223 | Rebalancing again and again without redials ends, within as many rounds as connections, at min(count, max(1, lowest count)) per address |
| Balance.CappedKeepsSettled | pkg/client/dnsDialer.go:200-222 | A round that closes something loses connections but not the state rounds end in |
| Balance.DialKeepsLevel | pkg/client/dnsDialer.go:99-109 | A dial at the round-robin pointer extends the run of fuller addresses behind the pointer by one |
| Balance.RefreshKeepsLevel | pkg/client/dnsDialer.go:184-223 | A refresh of level counts closes exactly the remainder modulo the number of addresses and leaves all equal |
| Balance.HistoryKeepsLevel | pkg/client/dnsDialer.go:99-134 | Any history of dials and refreshes keeps the counts level and loses no client |
| Balance.DialsAndRefreshesStayEven | pkg/client/dnsDialer.go:99-223 | From any pointer, over any history of successful dials and refreshes from no connections, counts differ by at most one, and with all n clients connected the next refresh closes n mod L, or none when n is below L |
| Balance.EvenRefresh | pkg/client/dnsDialer.go:200-222 | A refresh of any even counts, whichever addresses have one more, brings all down to the lowest unless some address has none |
| Balance.EvenStaysEven | pkg/client/dnsDialer.go:99-223 | Any even counts are even again after refresh, close and redial, wherever the pointer stands, and the cycle closes n mod L connections or none |
| Balance.EvenOverHistory | pkg/client/dnsDialer.go:99-223 | And at every moment between: over any history of refreshes and successful dials from any even counts, counts stay even and no client is lost |
| Balance.DialCloses | pkg/client/dnsDialer.go:99-109 | Every dial makes good part of the deficit below the target or brings the pointer nearer to an address that has one |
| Balance.CyclesRecover | pkg/client/dnsDialer.go:99-223 | From any counts, more cycles of refresh, close and redial than L times the deficit below the target reach even counts and keep them |
| Balance.FailureMayUnbalance | pkg/client/dnsDialer.go:79-84 | Two addresses, a dial, a failed dial and a dial: counts two and none |
| Balance.FailureKeepsEvenExactly | pkg/client/dnsDialer.go:79-109 | After one failed dial from level counts and w dials that connect, counts are even if and only if they were equal or w mod L plus the number of fuller addresses stays below L |
| RoundRobin.ShardedClient.GetGroup | pkg/client/shardedClient.go:245-251 | The fields change as the state machine does by its step PickGroup, and the group returned is the one picked |
| RoundRobin.ClientsGroup.GetClient | pkg/client/shardedClient.go:109-115 | For a caller that picked the group, its fields change as by the step PickClient, and the client returned is the one served |
| RoundRobin.ShardedClient.Pick | pkg/client/shardedClient.go:164-164 | getGroup().getClient() is a run of the state machine, its two steps in order, so the fairness results are about these methods |
| RoundRobin.RunKeepsSound | pkg/client/shardedClient.go:109-251 | For all interleavings what each client served is determined by how many times its group was taken up, and that with the turns still held by the number of calls |
| RoundRobin.ShareIs | pkg/client/shardedClient.go:245-251 | n bumps give an index n / len turns, and one more to indices 1 to n mod len |
| RoundRobin.FairAtEveryPoint | pkg/client/shardedClient.go:109-251 | At any moment one client is ahead of another by at most one request plus the turns that callers still hold on the other's group, shared out |
| RoundRobin.FairWhenQuiet | pkg/client/shardedClient.go:109-251 | With no caller between its two bumps, any two of the G*M clients differ by at most one request |
| RoundRobin.AlwaysFairExactly | pkg/client/shardedClient.go:245-251 | Fairness survives every wrap of the counters if and only if both lengths divide 2^64 |
| RoundRobin.UnfairClients | pkg/client/shardedClient.go:109-115 | When the number of clients does not divide 2^64, a run after which two clients differ by more than one |
| RoundRobin.UnfairGroups | pkg/client/shardedClient.go:245-251 | The same when the number of groups does not |
| RoundRobin.ShareDrifts | pkg/client/shardedClient.go:245-251 | Otherwise every turn of the counter puts index 0 one further ahead of the last index |
| Wire.Uint32RoundTrip | pkg/contract/common.go:48-54 | A 32-bit length written as four bytes reads back |
| Wire.BytesRoundTrip | pkg/contract/common.go:48-54 | Any four bytes are the bytes of the length they read as |
| Wire.LittleEndian | pkg/contract/common.go:48-50 | The first of the four bytes counts ones, the last 2^24s |
| Wire.ParseOfFrame | pkg/contract/request.go:65-92 | Reading a written message gives it back and consumes exactly its frame, whatever follows |
| Wire.FrameOfParse | pkg/contract/request.go:78-92 | Whatever is read successfully was the frame of what was read |
| Wire.StrictPrefixFails | pkg/contract/common.go:28-46 | A frame cut anywhere is an error |
| Wire.FrameLayout | pkg/contract/request.go:65-76 | A frame is the code, four bytes of length with the low one first, and the value, nothing else |
| Wire.ParseExactly | pkg/contract/request.go:78-92 | For every input, byte by byte, whether it reads as a message, which one and what is left, or which of the errors it is, a length above 1048576 before its value is looked at |
| Wire.DecodeOfEncode | pkg/contract/request.go:65-92 | A sequence of messages reads back as the same sequence and leaves the rest of the stream |
| Wire.EncodeIsInjective | pkg/contract/request.go:65-92 | Two different sequences of messages never look the same on the wire |
| Wire.StatusRoundTripExactly | pkg/contract/response.go:66-92 | A response reads back with its value always, with its status if and only if that is 0 to 255 |
| Contract.StoreUint32 | pkg/contract/common.go:48-50 | The size buffer holds the four bytes of the length |
| Contract.WriteBytes | pkg/contract/common.go:11-26 | A value of up to 1 MiB goes out behind its length; a bigger one is refused before a byte is written; a broken stream is an error |
| Contract.ReadBytes | pkg/contract/common.go:28-46 | What is read depends on the stream alone, never on the buffer's contents or capacity; each error leaves the state it leaves in the code |
| Contract.AppendBytes | pkg/contract/request.go:43-46 | The value grows by p, in place when there is room |
| Contract.Request.WriteRequest | pkg/contract/request.go:65-76 | The code, the length low byte first and the value up to 1048576 bytes, or just the code byte when the value is bigger |
| Contract.Request.ReadRequest | pkg/contract/request.go:78-92 | The message at the head of the stream replaces whatever the request held, or the error and what it leaves behind |
| Contract.Request.Append | pkg/contract/request.go:43-46 | The value grows by p and the code stays |
| Contract.Request.Reset | pkg/contract/request.go:16-20 | A reset request has no code and an empty value |
| Contract.Response.constructor | pkg/contract/response.go:94-101 | A new response has the status UNKNOWN |
| Contract.Response.Reset | pkg/contract/response.go:30-34 | A released response has the status OK and an empty value |
| Contract.Response.Append | pkg/contract/response.go:44-47 | The value grows by p and the status stays |
| Contract.Response.WriteResponse | pkg/contract/response.go:66-75 | One frame under the status cut down to a byte, or just that byte when the value is too big |
| Contract.Response.ReadResponse | pkg/contract/response.go:77-92 | The message at the head of the stream replaces whatever the response held, or the error and what it leaves behind |
| Contract.RequestPool.Acquire | pkg/contract/request.go:94-101 | A request from the pool is blank and shares no buffer with any other in the pool |
| Contract.RequestPool.Release | pkg/contract/request.go:103-107 | A used request goes back blank |
| Contract.Prepare | pkg/client/client.go:97-106 | The prepared request holds this call's name and bytes, and shares nothing with what is in the pool |
| Contract.Send | pkg/client/client.go:97-109 | On its own, a call gives the transport exactly its frame, whatever the pooled request was used for before |
| Contract.Overlap | pkg/contract/request.go:94-107 | For any interleaving of acquiring, writing and releasing by any number of calls on one pool and one connection, each writes exactly the frame of what it filled in |
| Contract.OneCallWritesItsFrame | pkg/contract/request.go:65-76 | A call whose open, write and close come one after the other is a legal history that puts its one frame on the stream |
| Contract.OpenCall | pkg/contract/request.go:94-101 | A call that joins gets a request that no call under way and not the pool has |
| Contract.WriteCall | pkg/contract/request.go:65-76 | Writing one call's request changes no other's |
| Contract.CloseCall | pkg/contract/request.go:103-107 | A call that releases its request leaves the others theirs |
| Contract.SendAll | pkg/client/client.go:97-109 | Any number of calls through one pool put exactly their frames on the stream, in order |
| Contract.ReceiveAll | pkg/contract/request.go:78-92 | One reused request reads back exactly the messages written and leaves the rest of the stream |
| Contract.SendAllResponses | pkg/contract/response.go:66-75 | One reused response writes exactly the frames of the answers, each under its status cut down to a byte |
| Contract.ReceiveAllResponses | pkg/contract/response.go:77-92 | One reused response reads back every value, and every status modulo 256; the answers come back as they were if and only if every status is 0 to 255 |
| Rpc.DoUnary | pkg/client/client.go:84-131 | Every ending by the reply alone, not the pooled response: a transport error under NETWORK_ERROR and its own counter, a stream that does not parse under NETWORK_ERROR as another error, a refusal under its status, a result under OK; every other counter stays; nothing is sent or counted for an empty request |
| Rpc.Exchange | pkg/client/client.go:108-130 | The prepared request is counted and written, and the reply becomes the outcome: an answer only from a response that parsed, a transport error never anything but itself under NETWORK_ERROR |
| Rpc.Receive | pkg/client/client.go:111-130 | From a reply to its outcome, its status and its one counter, in terms of the reply, whatever the response object held |
| Rpc.MetricsGroup.CountError | pkg/client/client.go:133-150 | A refusal counts as failed, a transport error under its own kind, nothing else changes |
| Rpc.OutcomeExactly | pkg/client/client.go:108-130 | Each reply's outcome and status: transport errors, unreadable streams, refusals, results, responses that do not decode |
| Rpc.EndedExactly | pkg/client/client.go:129-150 | Each outcome moves the counter of its own kind by one and no other; an undecodable response moves none |
| Rpc.CallerSeesTheStatus | pkg/client/client.go:117-130 | The caller gets the status modulo 256, so as it was set if and only if it is one byte; the value is the result if and only if that is OK and it decodes, and a refusal text if and only if it is not OK |
| Rpc.RefusalMayArriveAsSuccess | pkg/contract/response.go:68-68 | A server that sets the status 257 has the call succeed |
| Rpc.EachCounterIsItsTally | pkg/client/client.go:108-150 | However calls overlap, each counter is the number of calls that ended its way |
| Rpc.RequestsAreConserved | pkg/client/client.go:94-150 | However calls overlap: requests = success + failed + timeout + overflow + error + undecodable responses + calls in flight |
| Rpc.CountersAddUpExactly | pkg/client/client.go:122-130 | With no call in flight the counters add up if and only if every response could be decoded |
| Rpc.UndecodedGoesUncounted | pkg/client/client.go:122-128 | A call whose response cannot be decoded leaves one request and no outcome in the counters |
| Uuids.TextReads | pkg/client/payer.go:20-26 | A text reads as u in the 36-character form if and only if it is u's text up to the case of its digits (section 4 of RFC 9562) |
| Uuids.ParseOfPrint | pkg/client/payer.go:20-26 | Every UUID's text reads back as that UUID |
| Uuids.PrintLayout | pkg/client/payer.go:20-26 | The digits of every byte, high half first, in order, between dashes after the fourth, sixth, eighth and tenth byte (section 4 of RFC 9562) |
| Uuids.NilIsZeros | pkg/client/payer.go:24-29 | The nil UUID, which stands for nobody, is all zeros in bytes and in text |
| Uuids.LibraryReads | pkg/client/payer.go:20-20 | Whatever else the library reads, the 36-character form in either case reads as meant |
| Payer.RequestPayerExactly | pkg/client/payer.go:18-30 | No text and the nil UUID are missing payers, malformed text is refused as such, any other UUID is the payer |
| Payer.RulePayerExactly | pkg/client/payer.go:38-54 | A rule that names a UUID keeps it whatever the default; one that names nobody inherits the default; it fails exactly when the text is malformed, or names nobody and there is no default |
| Payer.StampExactly | pkg/client/payer.go:38-54 | The same for the text a rule is stamped with: its own UUID printed, or the default printed |
| Payer.StampResolves | pkg/client/payer.go:32-54 | A stamped payer resolves to what it was stamped with, whatever the default |
| Payer.StampIsIdempotent | pkg/client/payer.go:32-54 | Resolving and printing again, under any default, changes nothing |
| Payer.ApplyRulePayers | pkg/client/shardedClient.go:197-232 | In place and with the same rule in several places: every rule that names nobody then holds the default printed, every other its own UUID printed; succeeds if and only if every rule is there, none is malformed, and none names nobody without a default; a failure names the first bad rule and leaves the unaliased later ones alone |
| Payer.AppliedMeans | pkg/client/shardedClient.go:197-232 | What was applied, without the resolving function: what each rule holds by what it named, and which rule was refused and why |
| Payer.StampingTwiceIsOnce | pkg/client/shardedClient.go:197-232 | Stamping stamped rules again, under any default, changes none |
| Payer.PrepareReport | pkg/client/shardedClient.go:148-158 | In every case what the request and its rules hold afterwards: unchanged without a tracking id or payer; otherwise the payer stamped, the rules that name nobody holding it too, all or those before the first bad one; which error is returned exactly when |
| Payer.PreparedExactly | pkg/client/shardedClient.go:148-158 | The preparation succeeds if and only if there is a tracking id, a payer, and every rule resolves under it |
| Payer.PreparedIsAccepted | internal/testcloud/server.go:294-305 | What a successful preparation leaves is accepted by the server, payer and rules |
| Payer.Server.RequestPayer | internal/testcloud/server.go:79-94 | A missing payer is refused and counted, a malformed one refused without a count |
| Payer.Server.CheckPayers | internal/testcloud/server.go:256-263 | The first refused payer ends the check, and is counted only when it is missing |
| Payer.Server.CheckReport | internal/testcloud/server.go:294-305 | The request's payer first, then every rule's; the count grows exactly when the first refusal is for a missing payer |
| Payer.FirstRefused | internal/testcloud/server.go:258-263 | Everything before it is accepted and it is not |
| Payer.TargetRulesAgree | internal/testcloud/server.go:79-94 | The client resolves a payer without a default if and only if the server accepts it, and both name the same client |
| Payer.StampedIsAccepted | internal/testcloud/server.go:299-305 | No payer the client stamped is refused |
| Payer.TargetReachesServer | pkg/client/shardedClient.go:127-134 | A Target the client lets through is never refused for a payer and never counted as unauthorized |
| Payer.ReportReachesServer | pkg/client/shardedClient.go:148-166 | A Report is accepted if and only if the client lets it through, and never counted as unauthorized |
| Files.WriteTemp | pkg/client/savefiles.go:35-54 | Only the temporary file is ever touched; without an error it holds all the data, synced |
| Files.SaveFileAtomic | pkg/client/savefiles.go:32-68 | At every moment the path holds what it held or the whole synced new file; it holds the new one at the end if and only if the rename was reached, which an error from the read-back does not undo |
| Files.SwitchExactly | pkg/client/savefiles.go:32-68 | On every disk of the way every path but the temporary one holds just what it held, and the path saved that or, from the switch on, the whole synced new file |
| Renewal.SaveToFiles | pkg/client/savefiles.go:10-30 | Every disk on the way has the old files, then the new key, then both, in that order, also when both paths are one; the key is only ever the old one or the new one with mode 0600, the certificate is saved with 0644; it succeeds exactly when nothing goes wrong on disk |
| Renewal.SaveKeepsOrder | pkg/client/savefiles.go:15-19 | Saving the newest validated pair keeps use <= certificate <= key in fetch order on every disk on the way |
| Renewal.NewCertProvider | pkg/client/certprovider.go:64-70 | There is a provider if and only if the first pair validates, and it holds that pair |
| Renewal.CertProvider.Update | pkg/client/certprovider.go:89-102 | The pair is installed if and only if it validates; otherwise the current one stays |
| Renewal.Host.Check | pkg/client/autorenew.go:83-125 | One exact condition for each verdict, from clock, answer, leaf, serial, validation and disk: not due exactly when the certificate outlasts the window; and what is then installed, on disk, recorded as fetched and validated, and reconnected; with a fixed validation time Update cannot refuse what was saved; the order on disk holds at every moment |
| Renewal.VerdictExactly | pkg/client/autorenew.go:86-108 | Not due, no answer, no leaf and same serial, each exactly when |
| Renewal.FreshPairExactly | pkg/client/autorenew.go:110-124 | Refused, unsaved, unused and renewed, each exactly when, for a pair of another serial |
| Renewal.Host.Judge | pkg/client/autorenew.go:85-114 | Up to the save a check changes nothing but what has been fetched, and lets through exactly a due, fresh pair that validates |
| Renewal.Host.SavePair | pkg/client/autorenew.go:115-117 | Saving keeps the order for the certificate in use at every moment and, once it has succeeded, for the new one |
| Renewal.Host.Install | pkg/client/autorenew.go:118-122 | The pair is in use and the clients reconnected if and only if it still validates |
| Renewal.DiskMatchesUseExactly | pkg/client/autorenew.go:108-119 | With the pair in use on disk before a check, the pair in use is on disk after it if and only if the check neither saved a pair that then did not validate nor failed to save behind the rename of a file that differs |
| Renewal.DiskMayStray | pkg/client/savefiles.go:55-66 | Two plausible checks after which the pair in use is not on disk: a key whose read-back fails, and a certificate that stops validating while it is saved |
| Renewal.Host.SaveAndInstall | pkg/client/autorenew.go:110-124 | Save, install, reconnect: what is on disk and in use after each failure |
| Renewal.Host.CrashDuring | pkg/client/autorenew.go:83-125 | A death at any moment of a check leaves a disk in order |
| Renewal.Host.Restart | pkg/client/savefiles.go:15-19 | A restart loads the certificate last in use or a newer validated one; it fails on a mismatched pair and never goes back |
| Renewal.Host.Live | pkg/client/autorenew.go:69-125 | Over any life of checks, crashes and restarts, at every moment the disk is in order for the certificate in use at that moment, and what is in use never goes back |
| RenewalTiming.NewAutoRenewer | pkg/client/autorenew.go:42-67 | A renewer exists if and only if it can save and is not switched off; its times are positive, those configured when they are, the defaults otherwise |
| RenewalTiming.RunUntilExpiry | pkg/client/autorenew.go:69-81 | Until expiry or renewal every check is an attempt once the window is open: which check each attempt was, how far apart they are after each outcome, all before expiry; one is made when before >= interval + longest check; the loop goes on until one succeeds or the certificate expires |
| RenewalTiming.LoggedAt | pkg/client/autorenew.go:69-81 | Each attempt lies in the window before expiry, has the outcome of its own check, and none but the last renews |
| RenewalTiming.SleepsBetween | pkg/client/autorenew.go:71-81 | After a failed attempt the next comes after min(interval, 1h) and no more than a check later, after any other after the interval |
| RenewalTiming.RunFailing | pkg/client/autorenew.go:69-81 | When every attempt fails, at least 1 + (before - interval - longest) / (min(interval, 1h) + longest) are made before expiry |
| RenewalTiming.RunDespiteFailures | pkg/client/autorenew.go:69-81 | Over any number of renewals: a CA that never goes as many attempts without renewing as are sure to be made before expiry never lets a check find the certificate expired |
| RenewalTiming.RenewedInTime | pkg/client/autorenew.go:69-81 | The attempts of one such certificate end in a renewal |
| RenewalTiming.RunRenewals | pkg/client/autorenew.go:69-81 | With a CA that renews whenever asked this takes only certificates that outlast an interval and a check |
| RenewalTiming.TriesNeeded | pkg/client/autorenew.go:73-79 | So many attempts, never further apart than a step, are needed to fill a span |
| RenewalTiming.ParseRenewal | pkg/client/certprovider.go:202-216 | A reply is accepted if and only if it has a certificate and a key that belong together, neither empty nor the text null, and then as it came |
| RenewalTiming.Fetch | pkg/client/certprovider.go:145-179 | Ends by the deadline after at most 1 + span / interval questions, the interval being 20 s unless configured; only after 202s. An issued pair that is whole and fits its key, answered before the deadline, is handed back; a refusal only for a status other than 200 and 202, a bad reply only for one that cannot be used, a failure to ask only for a broken exchange or the deadline; a deadline after a 202 is reported as not issued yet, whichever branch of the select fires |
| Configurations.NormalizeAddrs | pkg/client/shardedClient.go:378-387 | The trimmed non-blank parts, in order, joined again |
| Configurations.SpacesListed | pkg/client/shardedClient.go:294-298 | The characters that are trimmed are the 25 that Unicode calls white space |
| Configurations.TrimTakesSpaces | pkg/client/shardedClient.go:294-298 | Trimming takes nothing but spaces, and only off the two ends |
| Configurations.TrimIsTight | pkg/client/shardedClient.go:294-298 | What is left neither begins nor ends with a space |
| Configurations.TrimOfPadded | pkg/client/shardedClient.go:294-298 | An address with any spaces around it is trimmed to that address |
| Configurations.AddressesOfPadded | pkg/client/shardedClient.go:378-387 | A list whose parts are padded with spaces, or blank, names exactly the addresses in it, in order |
| Configurations.TwoAddresses | pkg/client/shardedClient.go:378-387 | Two addresses with a comma and a space between them are both named |
| Configurations.JoinOfSplit | pkg/client/shardedClient.go:294-298 | Splitting loses nothing: the parts joined give the string back |
| Configurations.SplitOfJoin | pkg/client/shardedClient.go:378-387 | Splitting the joined parts gives the parts back |
| Configurations.NormalizingTwiceIsOnce | pkg/client/shardedClient.go:378-387 | Normalising is idempotent, and splitting the result gives the addresses as they are |
| Configurations.AddressesAreClean | pkg/client/shardedClient.go:378-387 | Every address is trimmed, not blank and without a comma |
| Configurations.NormalizeAddrsOrDefault | pkg/client/shardedClient.go:353-356 | At least one address always: the default when none is named |
| Configurations.NormalizeConfiguration | pkg/client/shardedClient.go:345-376 | The result needs no default, a configuration that needs none is returned unchanged, and each field is the given one or its default |
| Configurations.NewGroups | pkg/client/shardedClient.go:294-340 | One group per address, in order, all distinct, each with all its clients and nothing served yet |
| Configurations.NewClient | pkg/client/shardedClient.go:287-343 | At least one group, one per address, each with the configured positive number of clients, in the state the fairness results start from |
| Configurations.InferServerName | pkg/client/mtls.go:242-272 | The one non-empty host the addresses name; refused exactly when they name none, or two that differ |
| Configurations.HostsExactly | pkg/client/mtls.go:250-265 | What counts as a host: not empty, split off some address, or an address that cannot be split |
| Configurations.ResolveServerName | pkg/client/mtls.go:221-273 | The configured name, or the one non-empty host all addresses that name a host agree on; refused exactly when there is none or more than one |

## Left out

- The generated protobuf code: a rule and a request are records of what the SDK itself reads and writes, and marshalling is a value given to the call; that the server unmarshals the payers the client marshalled is taken as given.
- fastrpc, TCP, TLS and x509: only the steps the SDK observes are modelled (dial, handshake, pending count, close, a reply, a validity predicate). Two facts about fastrpc are assumed: it serves one connection per client (pkg/client/client.go:23) and handshakes after the Dial hook returns (pkg/client/mtls.go:225-226).
- The HTTP and JSON exchange of askCA (pkg/client/certprovider.go:182-200): the CA is any sequence of replies.
- The waiting time of a graceful reconnect (pkg/client/client.go:55-60): the goroutine may wait any time between loading and closing, so the results hold for both settings of force; nothing is claimed about requests cut off.
- ReconnectProtocol.ReconnectCanProceed: does not claim that the closing party is ever scheduled, only that some step is always open and none sets it back; scheduling is the Go runtime's.
- Balance.CyclesRecover: takes a dial (pointer and registration) and a refresh (choice and closing) as one step each, with all connections idle and an unchanged list, and needs the pointer short of its wrap or L dividing 2^64; a refresh that falls between a dial taking its address and registering does not count it, so that counts may be uneven until later cycles. Their interleaving is modelled in ReconnectProtocol, the rebalancer on busy and unlisted connections in Dialer.
- Dialer.DnsDialer.RefreshOnce: lets others close any connections after the choice; that they may do so while it is closing, too, is in ReconnectProtocol.StepKeepsConnRegistered.
- RoundRobin.FairWhenQuiet: needs both counters short of their wrap or both lengths dividing 2^64; AlwaysFairExactly shows that this cannot be dropped.
- Contract.Response.constructor: responses are pooled like requests (pkg/contract/response.go:94-107); a call is modelled for any response the pool may hand out, and no second pool class is repeated for them.
- Contract.AppendBytes: the capacity Go's append chooses is a parameter, since nothing depends on it.
- SwapValue (pkg/contract/request.go:48-55): hands over a buffer and nothing more.
- Uuids.TextReads: states the 36-character form; the further spellings the UUID library reads are a parameter that no result restricts. The library's source is not part of this model.
- Rpc.DoUnary: the duration histogram and the connDials counter are not modelled, nor is the index of the metrics array; a call without a response message (Report) decodes everything. Calls that overlap are the subject of Contract.Overlap and of the histories in Rpc.
- Files.SaveFileAtomic: takes renames to be durable in the order they were made; the code syncs the file and not the directory. The read-back fails as an event of its own, so a file system that returns other bytes without an error is the same event.
- Renewal.Host.Restart: loads the two files with the provider's own settings; that an application loads them this way is what SaveToFiles documents.
- RenewalTiming.RunUntilExpiry: the length of each check, with any oversleeping, is a parameter bounded by longest; what run does after the certificate has expired is not followed.
- Configurations.NewClient: the dialer, the metrics and the fields handed on to fastrpc are not repeated in the groups.
- The trailing parts of the server (tracking ids, Touch grants, dropped connections), pkg/serverauth, pkg/contract/requestCtx.go, pkg/client/metrics.go and the commands under cmd: wrappers and tools that would only add easy members.
