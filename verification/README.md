# Verified model of the embedded DHCP client

This project models `src/DHCPClient/src/dhcpclient-snap_20071104/`, the DHCP
client the network manager runs for each interface, and proves what it
guarantees over all inputs and all runs. `dafny verify dfyconfig.toml` checks
everything.

## What is modelled

* **The state machine.** `Protocol` gives every handler of `dhcpprotocol.c` as a
  function on the interface record plus a history (messages, ARP queries,
  configurations bound, ARP replies read), the open descriptors and
  the addresses the kernel holds. The clock, `random()`, the outcome of
  `socket()` and the contents of every frame are arbitrary. `Invariant`,
  `Effects`, `Preservation` and `Handlers` prove one invariant for every event,
  `Transitions` the table of state changes; `Runs`, `Progress`, `Overstay`,
  `Waiting`, `InterfaceSync` and `Special` draw from them what holds on every run;
  `Responses` says event by event what an observer sees and when the client wakes
  next, `Wire` which octets leave; `Exchange` is a concrete run to point at.
* **The same handlers in place.** `Interface.DhcpInterface` has the fields of
  `struct dhcp_interface` and the C functions as methods; every method equals
  its function in `Protocol`, messages are built and read octet by octet.
  `Daemon.Daemon` is the loop of `main.c`; each pass is shown to be a run of the
  state machine.
* **Timers** (`Time`, `Timers`) on 32- and 64-bit `time_t`, wrap-around written out.
* **The codec** (`Bytes`, `Checksum`, `Options`, `Framing`, `Message`, `Config`,
  `RoundTrip`): Internet checksum, IP/UDP framing, option writer and overloaded
  option walk, on hosts of either byte order.
* **Filter, ARP and netlink** (`Bpf`, `Arp`, `Netlink`): the packet filter
  interpreted and compared with the parsers behind it; the attribute builder and
  the scanner that must recognise its work.

## Where the code does not do what is written about it

Each point is a proved statement of the table below; the code is kept as it is.

* A T1 or T2 close to 2^32 s escapes the 32-bit overflow test when the jitter is
  positive, although the comment in `dhcpprotocol.c:507-510` says infinity is
  covered (`Timers.JitteredSaturates`, `Timers.NearInfiniteT1`). For the lease
  itself the comment is right (`Timers.LeaseSaturates`).
* The xid is compared with the record's, which is 0 before anything was sent; an
  OFFER with xid 0 is accepted in INIT, in the second between leaving REBOOTING
  and the first DISCOVER (`Special.OfferAnswersIffAsked`,
  `Special.UnaskedOfferTaken`).
* A renewal or a release that finds no UDP socket is broadcast with the server's
  address as its IP source (`Special.RawSource`, `Special.ServerAsSource`),
  because one variable serves as destination over UDP and as source of a raw
  frame.
* DHCPRELEASE carries no server identifier, against table 5 of RFC 2131
  (`Special.ReleaseSends`).
* "Only if the offered config really changed or after falling through INIT"
  (`dhcpprotocol.c:476-477`): a first ACK whose address, mask, broadcast and
  gateway are all zero does not reach the interface
  (`InterfaceSync.FirstBindingSyncs`, `InterfaceSync.InterfaceFollows`;
  `InterfaceSync.NothingTold` shows it).
* While the link is down an address is kept past the end of its lease, without
  limit; INIT_REBOOT and ARP_CHECK_GATEWAY overstay by a bounded time
  (`Overstay.HeldPastExpiry` says exactly when, `Overstay.HeldWhileDown` shows
  it, `Overstay.DownKeepsHolding` and `Overstay.ProbingEnds` say how long).
* The filter drops ARP replies from hardware addresses whose second octet is 17
  (`Bpf.ArpPassesUnless17`).
* `dhcpprotocol.h:26-28` says REBOOTING leads to REBINDING; the code goes to INIT
  (`Daemon.Daemon.Begin`, `Interface.DhcpInterface.HandleTimeout`).
* In the last second of 32-bit time a retry is scheduled in the past
  (`Progress.EndOfTime`).

## Model

| member | source | states |
|---|---|---|
| `Runs.BoundOnlyByAck` | src/DHCPClient/src/dhcpclient-snap_20071104/dhcpprotocol.c:299-367 | On every run, every configuration that ever took effect came in a DHCPACK read since the client last entered INIT, addressed to this interface and carrying the xid of the most recent message sent by then, which was a DHCPREQUEST; so neither an OFFER nor anything declined, refused or expired is ever bound, whatever link changes and ARP checks lie between |
| `Runs.LeaseMeansAgreement` | src/DHCPClient/src/dhcpclient-snap_20071104/dhcpprotocol.c:467-541 | In every reachable state a set lease means that both configurations are the acknowledged one, and no lease means a cleared current configuration; says for each state whether it holds a lease |
| `Runs.MessagesConform` | src/DHCPClient/src/dhcpclient-snap_20071104/dhcpprotocol.c:71-159 | Every message in the history of every run was asked for in a sending state, left through an open descriptor and had the ciaddr, requested address and server identifier of RFC 2131 section 4.3.2 for its state; INIT-REBOOT asks for the address held, although the code takes it from the other configuration |
| `Runs.RoutesFollowBindings` | src/DHCPClient/src/dhcpclient-snap_20071104/dhcpprotocol.c:520-524 | On every run a default route is set only where address and gateway are to be set, directly after binding an acknowledged configuration with that very gateway |
| `Runs.SocketLifecycle` | src/DHCPClient/src/dhcpclient-snap_20071104/dhcpprotocol.c:52-63 | In every reachable state the open descriptors are exactly those of the record, at most two; without a raw socket there is no UDP socket and the state is REBOOTING or BOUND; DECLINING is never seen between events |
| `Effects.OpenThenClose` | src/DHCPClient/src/dhcpclient-snap_20071104/dhcpprotocol.c:52-63 | Opening takes the raw descriptor and, if it can be had, the UDP one; closing gives back exactly these and leaves the record as it was, whatever became of the UDP socket |
| `Effects.ClosingFreesAll` | src/DHCPClient/src/dhcpclient-snap_20071104/dhcpprotocol.c:58-63 | From any consistent record closing leaves no descriptor open |
| `Runs.RetriesBounded` | src/DHCPClient/src/dhcpclient-snap_20071104/dhcpprotocol.c:605-642 | On every run: REQUESTING has sent exactly cnt messages, 1 to 3; INIT-REBOOT one or two; the ARP checks between one and their configured number of queries |
| `Runs.GivesUpExactly` | src/DHCPClient/src/dhcpclient-snap_20071104/dhcpprotocol.c:605-642 | A due timeout leaves REQUESTING exactly after 3 requests, ARP_CHECK for BOUND exactly after `arpcheck` queries, ARP_CHECK_GATEWAY for INIT-REBOOT exactly after `arpcheck_gateway` queries |
| `Runs.RenewalRequestsLogarithmic` | src/DHCPClient/src/dhcpclient-snap_20071104/dhcpprotocol.c:643-664 | On every run, with at most 2^k minutes from T1 to T2 (T2 to the end of the lease), RENEWING (REBINDING) has sent at most k + 1 requests |
| `Runs.LeaseEndsAsGranted` | src/DHCPClient/src/dhcpclient-snap_20071104/dhcpprotocol.c:487-519 | In every reachable state T1 <= T2 <= lease, and the lease ends at the receipt of the ACK plus the seconds granted, saturated at the end of time_t, on either width |
| `Runs.RenewsAsGranted` | src/DHCPClient/src/dhcpclient-snap_20071104/dhcpprotocol.c:487-519 | In every reachable state with a lease, unless it overflows: T2 - recvtime is the server's T2, or lease - floor(lease/8) without one, and T1 - recvtime the server's T1, or floor(lease/2) without one, both shifted by the same number of milliseconds (within 5 s, none for leases of at most 5 s), cut off at the lease and at T2 |
| `Runs.WakesBeforeExpiry` | src/DHCPClient/src/dhcpclient-snap_20071104/dhcpprotocol.c:643-664 | In BOUND, RENEWING and REBINDING the next timeout is no later than the end of the lease |
| `Runs.ExpiryReleases` | src/DHCPClient/src/dhcpclient-snap_20071104/dhcpprotocol.c:643-665 | From BOUND, RENEWING or REBINDING one timeout at or after expiry falls through to INIT with configuration, timers and addresses cleared, and sends exactly one message in all, a DISCOVER |
| `Overstay.HeldPastExpiry` | src/DHCPClient/src/dhcpclient-snap_20071104/dhcpprotocol.c:589-671 | In every reachable state, when a timeout is handled at or after the end of the lease, the address is held on to if and only if the state is OPER_DOWN, or INIT_REBOOT or ARP_CHECK_GATEWAY with a question still out or another to ask |
| `Overstay.HeldWhileDown` | src/DHCPClient/src/dhcpclient-snap_20071104/dhcpprotocol.c:666-669 | A reachable state that does: link down, 397 seconds past the end of the lease, and the timeout changes nothing |
| `Overstay.ProbingEnds` | src/DHCPClient/src/dhcpclient-snap_20071104/dhcpprotocol.c:605-624 | In INIT_REBOOT and ARP_CHECK_GATEWAY, unanswered, the address is held as it was until exactly a computed number of timeouts (at most two, or one more than the ARP queries left) were handled, and given up by the last of them, which comes at most five seconds (plus the delay in handling) per timeout after the first was due, at any time of the clock |
| `Overstay.ProbingBegins` | src/DHCPClient/src/dhcpclient-snap_20071104/dhcpprotocol.c:678-720 | Only a link that comes back and SIGHUP enter the two states, the first timeout at most three seconds ahead, the lease unchanged |
| `Overstay.OthersDoNotProlong` | src/DHCPClient/src/dhcpclient-snap_20071104/dhcpprotocol.c:292-449 | No other event prolongs that wait |
| `Overstay.DownKeepsHolding` | src/DHCPClient/src/dhcpclient-snap_20071104/dhcpprotocol.c:666-669 | The exception without a bound: in OPER_DOWN no sequence of events, however long, changes anything but the history until the link comes back, so an expired address is kept |
| `Runs.ReachableInv` | src/DHCPClient/src/dhcpclient-snap_20071104/main.c:196-251 | The invariant of module Invariant holds in every state reachable by any sequence of events |
| `Runs.RunKeepsInv` | src/DHCPClient/src/dhcpclient-snap_20071104/main.c:196-251 | Every run that starts in the invariant ends in it |
| `Runs.AckInHistory` | src/DHCPClient/src/dhcpclient-snap_20071104/dhcpprotocol.c:346-358 | A configuration carried by an ACK names the point in the history at which it was read, the xid of the DHCPREQUEST it answered, and that INIT was not entered since |
| `Handlers.TakeKeepsInv` | src/DHCPClient/src/dhcpclient-snap_20071104/dhcpprotocol.c:292-449 | Every event keeps the whole invariant: descriptors, timers, configurations, xid, retry counts, request budgets, gateway address and history |
| `Transitions.TakeMoves` | src/DHCPClient/src/dhcpclient-snap_20071104/dhcpprotocol.c:292-720 | Every event, of any contents and at any time, moves the client only along the edges of a transition table (figure 5 of RFC 2131 with the client's own states), checked through every handler and fall-through |
| `Handlers.TimeoutKeepsInv` | src/DHCPClient/src/dhcpclient-snap_20071104/dhcpprotocol.c:589-671 | pt_handletimeout keeps the invariant in all twelve states, fall-throughs included |
| `Handlers.DhcpKeepsInv` | src/DHCPClient/src/dhcpclient-snap_20071104/dhcpprotocol.c:292-371 | Any DHCP message, in any state, keeps the invariant |
| `Handlers.ArpKeepsInv` | src/DHCPClient/src/dhcpclient-snap_20071104/dhcpprotocol.c:373-427 | Any ARP reply, in any state, keeps the invariant |
| `Handlers.LinkUpKeepsInv` | src/DHCPClient/src/dhcpclient-snap_20071104/dhcpprotocol.c:678-703 | Link up keeps the invariant on each of its three paths |
| `Handlers.LinkDownKeepsInv` | src/DHCPClient/src/dhcpclient-snap_20071104/dhcpprotocol.c:704-707 | Link down keeps the invariant |
| `Handlers.HangupKeepsInv` | src/DHCPClient/src/dhcpclient-snap_20071104/dhcpprotocol.c:710-720 | SIGHUP keeps the invariant |
| `Invariant.StartInv` | src/DHCPClient/src/dhcpclient-snap_20071104/dhcpprotocol.c:730-734 | The cleared record satisfies the invariant |
| `Effects.OutgoingConforms` | src/DHCPClient/src/dhcpclient-snap_20071104/dhcpprotocol.c:87-138 | The message of each of the seven sending states carries what RFC 2131 section 4.3.2 (table 5 for the other types) asks of it, read off its option list, except the server identifier of a DHCPRELEASE, which is never there |
| `Effects.BecomingBound` | src/DHCPClient/src/dhcpclient-snap_20071104/dhcpprotocol.c:475-540 | What entering BOUND does as one step: configuration adopted, timers ordered, addresses as reconfiguring or skipping leaves them, and either the gateway's address forgotten and asked for through the open raw socket, or both sockets closed |
| `Progress.NoLivelock` | src/DHCPClient/src/dhcpclient-snap_20071104/dhcpprotocol.c:565-671 | From every reachable state with a timeout at most two timeouts handled at one instant leave the next one strictly later; which of the two does it, and that each does exactly when the instant it computes can be represented, for any clock; with a minute of room it always can |
| `Progress.WakesExactlyWhenDue` | src/DHCPClient/src/dhcpclient-snap_20071104/dhcpprotocol.c:565-671 | In every reachable state past REBOOTING, handling a timeout changes the client if and only if pt_nexttimeout returns an instant and it has come: waiting for it loses nothing and is not in vain |
| `Progress.OneTimeoutAdvances` | src/DHCPClient/src/dhcpclient-snap_20071104/dhcpprotocol.c:589-671 | A due timeout that does not merely hand over schedules the next one later if and only if time_t reaches the instant computed |
| `Progress.OneMayNotBeEnough` | src/DHCPClient/src/dhcpclient-snap_20071104/dhcpprotocol.c:617-624 | Two can be needed: the second silence of INIT-REBOOT falls back to INIT and leaves the timeout where it was |
| `Progress.EndOfTime` | src/DHCPClient/src/dhcpclient-snap_20071104/dhcpprotocol.c:601-604 | A case where it cannot: in the last second of 32-bit time a retry lands in the past |
| `InterfaceSync.InterfaceFollows` | src/DHCPClient/src/dhcpclient-snap_20071104/dhcpprotocol.c:468-524 | On every run, from the first INIT on: without a lease the interface is empty; with one it holds exactly the address, prefix and broadcast of the configuration in force (each spelled out) if and only if some configuration bound since INIT, as is the one in force unless its four compared values are all zero, had one of them non-zero; else it is empty |
| `InterfaceSync.FirstBindingSyncs` | src/DHCPClient/src/dhcpclient-snap_20071104/dhcpprotocol.c:476-482 | From nothing held, the skip-if-unchanged test configures the interface if and only if address, mask, broadcast or gateway is non-zero |
| `InterfaceSync.NothingTold` | src/DHCPClient/src/dhcpclient-snap_20071104/dhcpprotocol.c:476-524 | A reachable state out of step: bound with a lease by an ACK that grants nothing but time, the interface empty |
| `Exchange.Binds` | src/DHCPClient/src/dhcpclient-snap_20071104/dhcpprotocol.c:292-367 | Two timeouts, an OFFER and its ACK lead from the start to BOUND with whatever was granted (without a gateway), sockets closed and the interface set exactly if something compared was non-zero |
| `Exchange.Checks` | src/DHCPClient/src/dhcpclient-snap_20071104/dhcpprotocol.c:346-352 | A reachable state in ARP_CHECK with the default of two checks: the question for the address out, half a second to answer |
| `InterfaceSync.SkipIsSound` | src/DHCPClient/src/dhcpclient-snap_20071104/dhcpprotocol.c:476-524 | Whether the test skips or reconfigures, binding leaves what the history since INIT says |
| `InterfaceSync.TakeSync` | src/DHCPClient/src/dhcpclient-snap_20071104/dhcpprotocol.c:467-541 | Every event keeps interface and configuration in step |
| `Special.GatewayAddressLearned` | src/DHCPClient/src/dhcpclient-snap_20071104/dhcpprotocol.c:525-532 | In ARP_CHECK_GATEWAY the hardware address probed for is the sender's of an ARP reply read since INIT was last entered, from the very gateway of the current configuration to this host |
| `Responses.OfferRequested` | src/DHCPClient/src/dhcpclient-snap_20071104/dhcpprotocol.c:330-337 | An OFFER for us in INIT: REQUESTING, exactly one DHCPREQUEST naming its address and server with the xid drawn, the next about 4 s later (3.001 to 5 s) |
| `Responses.AckTaken` | src/DHCPClient/src/dhcpclient-snap_20071104/dhcpprotocol.c:346-358 | An ACK for us in each of the four awaiting states: ARP_CHECK if and only if the state was REQUESTING and `arpcheck` is not 0, then asking from 0 for the address acknowledged and waking half a second later; else BOUND with that configuration in force, to wake at T1; no message either way |
| `Responses.RouteSet` | src/DHCPClient/src/dhcpclient-snap_20071104/dhcpprotocol.c:476-524 | Binding sets one default route if and only if routes and addresses are to be set, there is a gateway and one of the four compared values differs from what was in force |
| `Responses.ScriptTold` | src/DHCPClient/src/dhcpclient-snap_20071104/dhcpprotocol.c:467-556 | Every state but REBOOTING is announced to the helper script, last of all that entering it does |
| `Responses.OthersIgnored` | src/DHCPClient/src/dhcpclient-snap_20071104/dhcpprotocol.c:297-367 | A message with another xid, hlen or hardware address changes nothing; one for us that the state does not wait for is noted only |
| `Responses.GatewayTeaches` | src/DHCPClient/src/dhcpclient-snap_20071104/dhcpprotocol.c:405-413 | In BOUND the gateway's answer to this host leaves its hardware address, both sockets closed, no descriptor open and nothing else changed |
| `Responses.RepliesIgnored` | src/DHCPClient/src/dhcpclient-snap_20071104/dhcpprotocol.c:380-427 | Every other ARP reply, in every state, is noted only |
| `Responses.RebootingWakes` | src/DHCPClient/src/dhcpclient-snap_20071104/dhcpprotocol.c:596-600 | REBOOTING: INIT a second later, nothing sent, nothing held |
| `Responses.InitDiscovers` | src/DHCPClient/src/dhcpclient-snap_20071104/dhcpprotocol.c:601-604 | INIT: exactly one DISCOVER, the next in the window of one more retry |
| `Responses.GatewayCheckAsks` | src/DHCPClient/src/dhcpclient-snap_20071104/dhcpprotocol.c:605-616 | ARP_CHECK_GATEWAY: asks the gateway at its known hardware address every half second, and after the last question the server for the address held |
| `Responses.InitRebootAsks` | src/DHCPClient/src/dhcpclient-snap_20071104/dhcpprotocol.c:617-624 | INIT_REBOOT: the request once more with about 4 s to answer, then INIT with nothing held and nothing sent |
| `Responses.RequestingAsks` | src/DHCPClient/src/dhcpclient-snap_20071104/dhcpprotocol.c:625-632 | REQUESTING: the request again while fewer than 3 were sent, then INIT with a pause of about 4 s |
| `Responses.ArpCheckAsks` | src/DHCPClient/src/dhcpclient-snap_20071104/dhcpprotocol.c:633-642 | ARP_CHECK: asks from 0 for the address every half second, and after the last question the address is in force |
| `Responses.RenewalAsks` | src/DHCPClient/src/dhcpclient-snap_20071104/dhcpprotocol.c:643-664 | A due timeout before the end of the lease in BOUND, RENEWING and REBINDING: exactly one DHCPREQUEST with the address in ciaddr; RENEWING before T2, else REBINDING; the next half way to T2 or the lease, at least a minute, or at it when less than 66 s are left |
| `Responses.LinkReturns` | src/DHCPClient/src/dhcpclient-snap_20071104/dhcpprotocol.c:678-703 | A link that comes back: with a lease the gateway is asked if and only if that is wanted, its address known, T1 not come and less than 60 s past since the link was lost in BOUND, else the server for the address held; without a lease one DISCOVER; next times in microseconds |
| `Responses.LinkGoes` | src/DHCPClient/src/dhcpclient-snap_20071104/dhcpprotocol.c:704-707 | A link lost: OPER_DOWN, nothing sent or given up, and from BOUND the moment kept |
| `Responses.ShortLoss` | src/DHCPClient/src/dhcpclient-snap_20071104/dhcpprotocol.c:678-707 | The two together, over any events in between: the gateway is asked if and only if the link was away for less than 60 s and the rest holds, else the server |
| `Responses.HangupAsks` | src/DHCPClient/src/dhcpclient-snap_20071104/dhcpprotocol.c:710-720 | SIGHUP in BOUND, RENEWING and REBINDING asks for the address in force, keeps the lease and waits about 2 s; elsewhere it changes nothing |
| `Wire.MessageOfState` | src/DHCPClient/src/dhcpclient-snap_20071104/dhcpprotocol.c:87-152 | The seven messages in numbers: type, ciaddr, every option in order with its body (parameter request list, lease, host name, client identifier), and no message in the other states |
| `Wire.WayOut` | src/DHCPClient/src/dhcpclient-snap_20071104/dhcpprotocol.c:154-158 | Renewal and release leave over UDP to the server if there is a socket, all else, a rebinding from the client's own address, through the raw socket; the xid is the number drawn |
| `Wire.HeaderOctets` | src/DHCPClient/src/dhcpclient-snap_20071104/dhcpprotocol.c:80-85 | The fixed fields of RFC 2131 section 2 by offset, all others zero |
| `Wire.OptionOctets` | src/DHCPClient/src/dhcpclient-snap_20071104/dhcpmessage.c:66-93 | Cookie at 236, code, length and body from 240, end marker last |
| `Wire.FrameOctets` | src/DHCPClient/src/dhcpclient-snap_20071104/dhcpmessage.c:245-262 | The IP and UDP header fields by offset, from port 68 to port 67 at the limited broadcast address |
| `Wire.OctetsOut` | src/DHCPClient/src/dhcpclient-snap_20071104/dhcpprotocol.c:154-158 | Over UDP the bare message leaves, otherwise a frame around it with its source address and the broadcast address |
| `Special.VerifiedGatewayKeepsLease` | src/DHCPClient/src/dhcpclient-snap_20071104/dhcpprotocol.c:394-404 | The gateway check re-enters BOUND exactly on an answer of the known gateway to this host, with the same configuration, end of lease and interface addresses; anything else changes nothing |
| `Special.RefusalRestarts` | src/DHCPClient/src/dhcpclient-snap_20071104/dhcpprotocol.c:359-362 | A DHCPNAK meant for us in any state that awaits an answer clears lease, configuration and interface without a message, and the very next timeout sends exactly one, a DISCOVER |
| `Waiting.Declines` | src/DHCPClient/src/dhcpclient-snap_20071104/dhcpprotocol.c:386-392 | An ARP answer for the acknowledged address: exactly one DHCPDECLINE naming address and server, then INIT with a timeout ten seconds ahead, if and only if time_t reaches that far |
| `Waiting.DeclinesAndWaits` | src/DHCPClient/src/dhcpclient-snap_20071104/dhcpprotocol.c:292-720 | Over all events before that timeout: nothing is sent until an OFFER with the DECLINE's xid arrives or a lost link comes back, and either makes the client send exactly one message |
| `Waiting.AsksAgain` | src/DHCPClient/src/dhcpclient-snap_20071104/dhcpprotocol.c:601-604 | When the wait is over the next timeout sends one DISCOVER |
| `Special.OfferAnswersIffAsked` | src/DHCPClient/src/dhcpclient-snap_20071104/dhcpprotocol.c:299-337 | An OFFER taken in INIT carries the xid of our last message if and only if a message was sent at all |
| `Special.UnaskedOfferTaken` | src/DHCPClient/src/dhcpclient-snap_20071104/dhcpprotocol.c:299-337 | Concrete runs where none was: after REBOOTING and before the first DISCOVER an OFFER with xid 0 is accepted |
| `Special.RawSource` | src/DHCPClient/src/dhcpclient-snap_20071104/dhcpprotocol.c:154-158 | A raw broadcast has the null address or the client's own as IP source, except exactly a renewal or a release without a UDP socket, whose source is the server's address (if that is neither) |
| `Special.ServerAsSource` | src/DHCPClient/src/dhcpclient-snap_20071104/dhcpprotocol.c:119-158 | A reachable state that shows it: after two timeouts, an OFFER and its ACK, with no UDP socket to be had, the release goes out with the server's address as source |
| `Special.ReleaseSends` | src/DHCPClient/src/dhcpclient-snap_20071104/dhcpprotocol.c:722-728 | Releasing happens exactly in BOUND: one DHCPRELEASE through an open descriptor, the interface emptied, the history still conforming, and no server identifier option, which table 5 of RFC 2131 demands |
| `Daemon.PassIsRun` | src/DHCPClient/src/dhcpclient-snap_20071104/main.c:196-251 | Whatever one pass of the main loop does is a sequence of events of the state machine, so every theorem about reachable states holds between any two passes |
| `Daemon.PassFollows` | src/DHCPClient/src/dhcpclient-snap_20071104/main.c:230-239 | A pass acts on the newest link status it knows; between passes the client is in OPER_DOWN exactly when the status last acted on was down, and otherwise has a timeout to wait for |
| `Daemon.PassServes` | src/DHCPClient/src/dhcpclient-snap_20071104/main.c:230-250 | A pass that goes on leaves no due timeout behind, but for one that INIT_REBOOT or ARP_CHECK hands to INIT or BOUND |
| `Daemon.HangupServed` | src/DHCPClient/src/dhcpclient-snap_20071104/main.c:218-230 | SIGHUP is served even when it made select() fail: an address in use is asked for again, the link status is left for later |
| `Daemon.FrameServed` | src/DHCPClient/src/dhcpclient-snap_20071104/main.c:247-250 | A frame that arrives alone, the raw socket open, is heeded by what its octets say, before timeouts are |
| `Daemon.LateServed` | src/DHCPClient/src/dhcpclient-snap_20071104/main.c:235-239 | A link message that arrives while handlers talk to the kernel is acted on in the next pass |
| `Daemon.FlagsDecide` | src/DHCPClient/src/dhcpclient-snap_20071104/netlink.c:117-125 | After a pass whose last message about the interface has IFF_UP the client is in OPER_DOWN exactly if IFF_RUNNING is missing; without IFF_UP, or when it is removed, a change of status ends the loop |
| `Daemon.StaysUpOrDown` | src/DHCPClient/src/dhcpclient-snap_20071104/dhcpprotocol.c:292-720 | No event but a link change enters or leaves OPER_DOWN, and none leads back to a state without a timeout |
| `Daemon.Daemon.Serve` | src/DHCPClient/src/dhcpclient-snap_20071104/main.c:196-257 | The loop over any wake-ups: it stays in reachable states that follow the link, and when it ends the client is released from one |
| `Daemon.Daemon.Pass` | src/DHCPClient/src/dhcpclient-snap_20071104/main.c:196-251 | One pass does signal, link change, frame and timeout in this order, ends on SIGTERM or a vanished interface, and skips the rest when select() failed |
| `Daemon.Daemon.Begin` | src/DHCPClient/src/dhcpclient-snap_20071104/main.c:194-195 | The start: first link status acted on, first timeout taken; afterwards the client is reachable, follows the link and has left REBOOTING |
| `Daemon.Daemon.HandleOstatus` | src/DHCPClient/src/dhcpclient-snap_20071104/main.c:64-79 | Acts on the status, remembers it, and tells whether the program ends |
| `Daemon.Daemon.HandleLinks` | src/DHCPClient/src/dhcpclient-snap_20071104/netlink.c:101-132 | A batch of link messages leaves the status of the last one about this interface |
| `Daemon.Daemon.constructor` | src/DHCPClient/src/dhcpclient-snap_20071104/main.c:133-133 | The status starts as up, none acted on |
| `Interface.DhcpInterface.constructor` | src/DHCPClient/src/dhcpclient-snap_20071104/dhcpprotocol.c:730-734 | The new record is the start of the state machine and satisfies the invariant |
| `Interface.DhcpInterface.SendMessage` | src/DHCPClient/src/dhcpclient-snap_20071104/dhcpprotocol.c:71-159 | Leaves exactly the octets of the message of the state, bare over UDP or framed through the raw socket, for any host name of at most 255 octets; the writer never runs out of room, so the source never aborts |
| `Interface.DhcpInterface.BuildForState` | src/DHCPClient/src/dhcpclient-snap_20071104/dhcpprotocol.c:87-152 | The octets are header, cookie, the options of the state's message and the end marker, at most 748 in all |
| `Interface.DhcpInterface.BuildMessage` | src/DHCPClient/src/dhcpclient-snap_20071104/dhcpprotocol.c:80-152 | Type, requested address, server, wishes and client identifier end up encoded in this order behind the right header |
| `Interface.DhcpInterface.Transmit` | src/DHCPClient/src/dhcpclient-snap_20071104/dhcpprotocol.c:154-158 | UDP only in RENEWING and RELEASING with a socket, else the broadcast frame |
| `Interface.DhcpInterface.ChangeState` | src/DHCPClient/src/dhcpclient-snap_20071104/dhcpprotocol.c:452-562 | In place, pt_changestate is the step of the state machine, sockets opened when needed |
| `Interface.DhcpInterface.EnterBound` | src/DHCPClient/src/dhcpclient-snap_20071104/dhcpprotocol.c:475-540 | In place: adoption, timers, interface, gateway query or closing of the sockets, in this order |
| `Interface.DhcpInterface.OpenUdp` | src/DHCPClient/src/dhcpclient-snap_20071104/sockets.c:30-63 | Needs no UDP socket open, which every caller guarantees; a failed set-up leaves no descriptor behind |
| `Interface.DhcpInterface.HandleTimeout` | src/DHCPClient/src/dhcpclient-snap_20071104/dhcpprotocol.c:589-671 | In place, pt_handletimeout is the step of the state machine and keeps the invariant |
| `Interface.DhcpInterface.RecvMessageDhcp` | src/DHCPClient/src/dhcpclient-snap_20071104/dhcpprotocol.c:292-371 | From raw octets: nothing happens unless the frame parses, else the step of the state machine for a message whose hlen, xid, chaddr and both addresses are the octets 2, 4, 28, 16 and 20 of the payload and whose other fields its options say, whatever the memory behind holds; keeps the invariant |
| `Interface.DhcpInterface.RecvMessageArp` | src/DHCPClient/src/dhcpclient-snap_20071104/dhcpprotocol.c:373-427 | From raw octets: the step of the state machine for the ARP reply they spell, noted in the history; keeps the invariant |
| `Interface.DhcpInterface.RecvMessage` | src/DHCPClient/src/dhcpclient-snap_20071104/dhcpprotocol.c:430-449 | Frames are told apart by protocol; others change nothing |
| `Interface.DhcpInterface.OperState` | src/DHCPClient/src/dhcpclient-snap_20071104/dhcpprotocol.c:674-708 | In place, pt_operstate is the step of the state machine and keeps the invariant |
| `Interface.DhcpInterface.InitReboot` | src/DHCPClient/src/dhcpclient-snap_20071104/dhcpprotocol.c:710-720 | In place, pt_initreboot is the step of the state machine and keeps the invariant |
| `Interface.DhcpInterface.Release` | src/DHCPClient/src/dhcpclient-snap_20071104/dhcpprotocol.c:722-728 | In place, pt_release is the release of the state machine |
| `Timers.DhcpBackoff` | src/DHCPClient/src/dhcpclient-snap_20071104/dhcpprotocol.c:248-263 | The loop, the subtraction of random milliseconds and timeradd give src plus the delay, normalised, including the 1000000 microsecond case |
| `Timers.BackoffWindow` | src/DHCPClient/src/dhcpclient-snap_20071104/dhcpprotocol.c:248-263 | For every count and random value the delay is in [2^(k+1) s - 0.999 s, 2^(k+1) s + 1 s], k = min(cnt, 5), and both ends are reached (RFC 2131 section 4.1) |
| `Timers.BackoffLater` | src/DHCPClient/src/dhcpclient-snap_20071104/dhcpprotocol.c:262-262 | The retry lies in the future if and only if its instant can be represented in time_t |
| `Timers.DhcpBackoffMiddle` | src/DHCPClient/src/dhcpclient-snap_20071104/dhcpprotocol.c:266-289 | For now before the deadline the halving in seconds and microseconds is half the microseconds left, rounded down, at least a minute, or the deadline itself |
| `Timers.BackoffMiddleBounds` | src/DHCPClient/src/dhcpclient-snap_20071104/dhcpprotocol.c:266-289 | The result is in (now, to], normalised, and is `to` exactly when less than 66 s are left |
| `Timers.RequestHalves` | src/DHCPClient/src/dhcpclient-snap_20071104/dhcpprotocol.c:266-289 | After a request with at most 2^k minutes left, either no more follows or at most 2^(k-1) minutes remain |
| `Timers.BudgetKept` | src/DHCPClient/src/dhcpclient-snap_20071104/dhcpprotocol.c:643-664 | The logarithmic budget of unanswered requests is kept by each request |
| `Timers.ComputeBindingTimers` | src/DHCPClient/src/dhcpclient-snap_20071104/dhcpprotocol.c:487-519 | Addition, jitter, wrap test and clamping in place are the three expiries of the specification, on 32- and 64-bit time |
| `Timers.RenewalTimes` | src/DHCPClient/src/dhcpclient-snap_20071104/dhcpprotocol.c:487-519 | The same of the computation itself, with the shift 5000 - random % 10000 ms |
| `Timers.BindingOrdered` | src/DHCPClient/src/dhcpclient-snap_20071104/dhcpprotocol.c:505-519 | For every T1, T2, lease and jitter: T1 <= T2 <= lease, the lease not before the message, and on 32-bit time neither is T1 |
| `Timers.LeaseSaturates` | src/DHCPClient/src/dhcpclient-snap_20071104/dhcpprotocol.c:506-512 | 32-bit time: the wrap test misses no overflow of the lease, so it is the saturating sum |
| `Timers.LeaseExact` | src/DHCPClient/src/dhcpclient-snap_20071104/dhcpprotocol.c:487-512 | The same on either width |
| `Timers.JitteredSaturates` | src/DHCPClient/src/dhcpclient-snap_20071104/dhcpprotocol.c:492-517 | 32-bit time: a jittered T1 or T2 is the saturating sum if and only if its offset is not negative and does not wrap all the way past the message |
| `Timers.NearInfiniteT1` | src/DHCPClient/src/dhcpclient-snap_20071104/dhcpprotocol.c:492-517 | A concrete failure: T1 of 2^32 - 1 s with jitter +5 s makes the client renew 4 s after the ACK |
| `Time.AddIsShift` | src/DHCPClient/src/dhcpclient-snap_20071104/dhcpprotocol.c:248-263 | timeradd on one carry repairs 1000000 microseconds and equals addition of microseconds, wrapped |
| `Checksum.InCksum` | src/DHCPClient/src/dhcpclient-snap_20071104/dhcpmessage.c:32-62 | The loop and two folds compute the complement of the canonical ones' complement sum, for every length whose sum the 32-bit accumulator holds on either byte order (65534 octets) |
| `Checksum.RfcExample` | src/DHCPClient/src/dhcpclient-snap_20071104/dhcpmessage.c:32-62 | The worked example of RFC 1071 section 3, on either byte order |
| `Checksum.OneMoreOverflows` | src/DHCPClient/src/dhcpclient-snap_20071104/dhcpmessage.c:32-62 | At 65535 octets it does not: all ones overflow it on a big-endian host |
| `Checksum.FoldIsCanon` | src/DHCPClient/src/dhcpclient-snap_20071104/dhcpmessage.c:55-60 | Two folds of a 32-bit sum always suffice |
| `Checksum.CksumChains` | src/DHCPClient/src/dhcpclient-snap_20071104/dhcpmessage.c:191-194 | in_cksum(B, ~in_cksum(A, c)) == in_cksum(A + B, c) for A of even length |
| `Checksum.CksumOrderFree` | src/DHCPClient/src/dhcpclient-snap_20071104/dhcpmessage.c:32-62 | RFC 1071 section 2(B): hosts of either byte order store the same octets |
| `Checksum.FilledVerifies` | src/DHCPClient/src/dhcpclient-snap_20071104/dhcpmessage.c:255-268 | A filled check field makes verification yield zero, also after the 0 to 0xffff rule |
| `Framing.BuildFrame` | src/DHCPClient/src/dhcpclient-snap_20071104/dhcpmessage.c:245-268 | The headers filled in step by step are the frame of the specification |
| `Framing.FrameOrderFree` | src/DHCPClient/src/dhcpclient-snap_20071104/dhcpmessage.c:245-268 | The frame does not depend on the byte order of the sender |
| `Framing.VerifyUdpChecksum` | src/DHCPClient/src/dhcpclient-snap_20071104/dhcpmessage.c:189-195 | The three partial sums are the RFC 768 checksum of the datagram with its pseudo header |
| `Framing.ParseExchanged` | src/DHCPClient/src/dhcpclient-snap_20071104/dhcpmessage.c:156-210 | A frame whose UDP ports are exchanged is accepted by a host of either byte order and yields its payload |
| `Framing.AcceptsExactly` | src/DHCPClient/src/dhcpclient-snap_20071104/dhcpmessage.c:156-210 | Exactly which frames are accepted, octet by octet, and that the payload is what lies behind the UDP header |
| `RoundTrip.EndToEnd` | src/DHCPClient/src/dhcpclient-snap_20071104/dhcpmessage.c:66-268 | Any options with codes other than 0, 52 and 255 that fit: writer, frame, exchanged ports, parser and option walk return exactly that list and the same header, whatever lies behind in the buffers |
| `RoundTrip.WalkWritten` | src/DHCPClient/src/dhcpclient-snap_20071104/dhcpmessage.c:74-140 | The walk over a written message returns the written options, for every bound past the end marker |
| `RoundTrip.StoredBoundHarmless` | src/DHCPClient/src/dhcpclient-snap_20071104/dhcpmessage.c:204-205 | The bound the parser stores lies past the received data; for options closed by their marker the walk is the one under the exact bound |
| `Options.WalkIsMessageOptions` | src/DHCPClient/src/dhcpclient-snap_20071104/dhcpmessage.c:96-140 | The walk with overload announced on the way is options, then `file`, then `sname`, each at most once and only if announced (RFC 2131 section 4.1) |
| `Options.LastAnnouncement` | src/DHCPClient/src/dhcpclient-snap_20071104/dhcpprotocol.c:231-234 | The overload in force is the last well-formed option 52 of at most 3 |
| `Options.ReadEncoded` | src/DHCPClient/src/dhcpclient-snap_20071104/dhcpmessage.c:74-140 | Reading a block inverts writing it |
| `Options.ReadPadded` | src/DHCPClient/src/dhcpclient-snap_20071104/dhcpmessage.c:103-104 | Padding between options is not seen |
| `Options.MarkedBlockIgnoresBound` | src/DHCPClient/src/dhcpclient-snap_20071104/dhcpmessage.c:107-124 | A block closed by its marker reads the same however far the bound lies behind it |
| `Message.DhcpMessage.Init` | src/DHCPClient/src/dhcpclient-snap_20071104/dhcpmessage.c:66-71 | A cleared header and the cookie |
| `Message.DhcpMessage.AddOption` | src/DHCPClient/src/dhcpclient-snap_20071104/dhcpmessage.c:74-86 | Appends code, length and body behind what was written, exactly if there is room; else nothing is written (the source aborts) |
| `Message.DhcpMessage.FinishOptions` | src/DHCPClient/src/dhcpclient-snap_20071104/dhcpmessage.c:89-93 | Appends the end marker, exactly if there is room; else nothing is written (the source aborts) |
| `Message.DhcpMessage.NextOption` | src/DHCPClient/src/dhcpclient-snap_20071104/dhcpmessage.c:96-140 | In place: an option is returned exactly as the head of what the walk has to come, it lies inside its block, and (block, position) advances; NULL only when nothing is to come |
| `Message.DhcpMessage.EnterBlock` | src/DHCPClient/src/dhcpclient-snap_20071104/dhcpmessage.c:109-118 | The next overloaded block and its bounds |
| `Message.DhcpMessage.ParseOptions` | src/DHCPClient/src/dhcpclient-snap_20071104/dhcpprotocol.c:170-245 | The loop ends and yields what the whole walk says, with overload changing while it runs: the address is the word at 16, the server the last option 54 or else the word at 20, every other field its last well-formed option or zero |
| `Message.ReadOption` | src/DHCPClient/src/dhcpclient-snap_20071104/dhcpprotocol.c:184-243 | The switch with its in-place copies has the effect of its option |
| `Config.LastOccurrenceDecides` | src/DHCPClient/src/dhcpclient-snap_20071104/dhcpprotocol.c:170-245 | Every field of the configuration: the last well-formed occurrence of its option decides (server, mask, gateway, broadcast, lease, T1, T2, type, name servers and their number, host name and domain as terminated strings), without one it stays as it was |
| `Config.InterpretSays` | src/DHCPClient/src/dhcpclient-snap_20071104/dhcpprotocol.c:170-245 | What the options of a message say over its two addresses: every field by its option number in RFC 2132, yiaddr as the address, option 54 or else siaddr as the server, zero without an option |
| `Message.DhcpMessage.ParseRaw` | src/DHCPClient/src/dhcpclient-snap_20071104/dhcpmessage.c:156-210 | Accepts exactly the frames the parser of the specification accepts, and leaves their payload in the struct with the walk at its start |
| `Bpf.PassesExactly` | src/DHCPClient/src/dhcpclient-snap_20071104/sockets.c:70-85 | The interpreted filter passes exactly the UDP datagrams from the server port and the ARP packets for IPv4 whose tenth octet is not 17, on every octet sequence |
| `Bpf.DhcpPasses` | src/DHCPClient/src/dhcpclient-snap_20071104/sockets.c:70-85 | Every frame dm_parse_msg_raw accepts passed the filter |
| `Bpf.ArpPassesUnless17` | src/DHCPClient/src/dhcpclient-snap_20071104/sockets.c:70-85 | A frame ar_parse_reply accepts passes if and only if the second octet of the sender's hardware address is not 17 |
| `Arp.ArParseReply` | src/DHCPClient/src/dhcpclient-snap_20071104/arp.c:56-76 | Accepts exactly the replies of the specification and copies their four addresses |
| `Arp.ParseInvertsPacket` | src/DHCPClient/src/dhcpclient-snap_20071104/arp.c:56-76 | Of all ARP packets, with any trailer, exactly the replies are accepted, and their addresses come back |
| `Arp.PacketOctets` | src/DHCPClient/src/dhcpclient-snap_20071104/arp.c:24-50 | The fields of RFC 826 by octet |
| `Arp.ArSendQueryIp` | src/DHCPClient/src/dhcpclient-snap_20071104/arp.c:21-53 | The header filled in place is the query packet |
| `Netlink.MaskLenInverts` | src/DHCPClient/src/dhcpclient-snap_20071104/netlink.c:217-220 | The mask length inverts the prefix-to-mask map on all 33 prefixes |
| `Netlink.WantedIs` | src/DHCPClient/src/dhcpclient-snap_20071104/netlink.c:277-325 | The address configured, bit for bit: the configuration's address, the prefix its mask ends at (its length for a contiguous mask), its broadcast or else the address with every bit set that the mask leaves out |
| `Netlink.FixupIsDirectedBroadcast` | src/DHCPClient/src/dhcpclient-snap_20071104/netlink.c:277-280 | For a contiguous mask the made-up broadcast is the last address of the subnet |
| `Netlink.ScanAttrs` | src/DHCPClient/src/dhcpclient-snap_20071104/netlink.c:239-250 | The RTA_OK / RTA_NEXT loop is the recursive scan |
| `Netlink.ScanReadsEncoded` | src/DHCPClient/src/dhcpclient-snap_20071104/netlink.c:239-250 | The scan over an aligned attribute list of any lengths sees every attribute, in order, and nothing else |
| `Netlink.ReportRecognised` | src/DHCPClient/src/dhcpclient-snap_20071104/netlink.c:223-258 | checkaddrs recognises a reported address if and only if it is the wanted one, whatever the uninitialised locals held |
| `Netlink.OtherAttributesIgnored` | src/DHCPClient/src/dhcpclient-snap_20071104/netlink.c:240-249 | Attributes of other kinds change nothing |
| `Netlink.RequestSpells` | src/DHCPClient/src/dhcpclient-snap_20071104/netlink.c:316-326 | The request nl_configureif builds spells the wanted address to its reader |
| `Netlink.RequestOctets` | src/DHCPClient/src/dhcpclient-snap_20071104/netlink.c:316-326 | The attributes of the request octet by octet |
| `Netlink.BuildRequest` | src/DHCPClient/src/dhcpclient-snap_20071104/netlink.c:304-328 | The buffer filled in place holds that request |
| `Netlink.FindAddr` | src/DHCPClient/src/dhcpclient-snap_20071104/netlink.c:282-299 | The dump finds the address exactly when the interface has it |
| `Netlink.ConfigureIf` | src/DHCPClient/src/dhcpclient-snap_20071104/netlink.c:269-332 | Leaves the interface alone if it has an address with the configuration's address, broadcast and prefix, else with that one only |
| `Netlink.ConfiguredTwice` | src/DHCPClient/src/dhcpclient-snap_20071104/netlink.c:299-331 | A second configuration with the same data changes nothing |
| `Netlink.FlushIf` | src/DHCPClient/src/dhcpclient-snap_20071104/netlink.c:335-359 | Ends, by the number of addresses left, with none |

## Left out

- Real sockets, `select`, signals, syslog, pidfile, `gethostname`, option parsing of `main` and the helper script (`callscript.c`): I/O; only their effects appear, as inputs or history.
- The `printf`s and the `exit(0)` of `pt_recvmessage_dhcp` (`dhcpprotocol.c:305-328`, `369`): the transition is complete by then and the handler is modelled as returning, so the one-shot program takes a prefix of a run.
- `exit(1)` when the raw socket cannot be opened: the run ends there, and opening it always succeeds in the model.
- `recvfrom` failing: no frame is delivered in that pass.
- The retry counter is unbounded: the wrap of the `unsigned int` after 2^32 retries, and its passing as an `int`, are not modelled.
- The kernel is a set of addresses changed by this client only; it reports IFA_ADDRESS, IFA_LOCAL and IFA_BROADCAST for each, deletes one address a request and fails when none is left. A kernel that omits a null address or broadcast from its report is not modelled.
- `nl_sync_dump`, message sequence numbers, `nl_getifdata` and `copy_ifdata`: reception from the kernel.
- `nl_configuregw`: the route request appears as an event with its gateway (`Runs.RoutesFollowBindings`); its attributes are not modelled.
- Memory behind a received message is a fixed-size region of arbitrary contents in which the stored bound stays.
- Message.DhcpMessage.ParseRaw: the payload must fit `struct dhcp_message`, which the copy at `dhcpmessage.c:200` presumes without a test.
- Interface.DhcpInterface.RecvMessageDhcp: the same holds of the frame it reads; an overlong payload overruns the struct in C, which has no meaning to model.
- Interface.DhcpInterface.RecvMessage: the same for frames of type IP.
- Checksum.InCksum: buffers of at most 65534 octets; one more can overflow the C accumulator on a big-endian host (`Checksum.OneMoreOverflows`), and no frame is that long.
- The xid is kept as the number its octets spell most significant first, whatever the host's byte order; the code only ever compares and copies it.
- UDP and IP headers the kernel adds to `dm_send_msg`; only the datagram's octets and the destination are modelled.
- A 64-bit clock within 2^32 + 256 s of the end of time_t: left out, so that adding an interval of 32 bits never overflows there.
- Message.DhcpMessage.ParseOptions: `hostname` and `domainname` keep the C array contents; their use by the script is not modelled.
- The clock reading in `pt_changestate` (`dhcpprotocol.c:483`): its value is never used.
- Daemon.Daemon.Serve: takes the wake-ups as a finite sequence; descriptors handed out must be fresh when they are opened.
- The other C++ of the repository (controllers, plugins, web interface, command wrappers), shell scripts and build files: no protocol logic.
