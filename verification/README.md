# Iceslab node agent: a verified model

This project models the stateful core of the Iceslab node agent (Go) and the
version rules it shares with the panel (TypeScript), and proves what they keep
over every input and every run.

An agent runs on a VPN node. The panel pushes it inbounds, policies, a chain
block and users; the agent drives several proxy cores, the kernel's rules and a
few files, each of which may refuse or fail at any time. What the code is for is
that these never drift apart: what is stored is what runs, what runs is what was
asked for, and a restart without the panel changes nothing. Those are the
theorems here. Where a promise does not hold as stated, the project says so with
a concrete case and proves the exact condition under which it does hold.

How to read it:

- `HandOff*.dfy`: moving a live AmneziaWG interface from one TPROXY hand-off to
  another, rule by rule and packet by packet. A kernel is a list of rules; every add may be refused; every state on
  the way is recorded, so that safety can be stated about all of them.
- `Traffic.dfy`, `TrafficRuns.dfy`: cumulative kernel counters turned into bills.
- `WgKey.dfy`, `Cidr.dfy`, `Numbers.dfy`, `Ini.dfy`, `HookText.dfy`,
  `AwgConfig.dfy`, `AwgRoundTrip.dfy`, `AwgKeys.dfy`: the interface file as text, as it
  reads back, and key by key.
- `PeerOrder.dfy`, `Interface.dfy`, `InterfaceCalls.dfy`, `InterfaceRuns.dfy`,
  `InterfacePair.dfy`: the interface in memory, on disk, call by call and across agent
  restarts.
- `NodeBlocks.dfy`, `ChainPush.dfy`, `Inbounds.dfy`: the push, its store and the
  restore: policies and resolvers, the user core's hand-off, inbounds and ports.
- `ChainBlock.dfy`, `ChainManager.dfy`, `TunnelText.dfy`, `Tunnels.dfy`, `TunnelProofs.dfy`: the
  chain process and the tunnels under its legs.
- `LinkPorts.dfy`, `HopGuard.dfy`: firewall rules of the chain's link ports, and
  the nat guard chain.
- `CertStore.dfy`: certificate rotation in two phases.
- `VersionText.dfy`, `CoreVersions.dfy`, `CoreRenderers.dfy`, `Heartbeat.dfy`: the version order, its
  two renderers, and the polling loop.

Most components have three layers: a pure function from state and call to new
state, written from the source's branches; a class whose methods work step by
step as the source does, each tied to that function by its `ensures`; and lemmas
about the function, lifted to runs by induction. Cores, commands, writes and
name resolution are the environment's: they may refuse or fail in any way the
source has a branch for.

## Where the code and its promise differ

Each of these is a property the code or its comments claim, false for some
input, with the exact condition proved.

- A hand-off that gives the 1.x interface the mark the 3.1 interface is leaving
  loses the 1.x one's rule and route: the check compares the two new marks only.
  When the 3.1 half of such a push is refused and undone, both are left on one
  mark, and the next push that moves 1.x off it loses the 3.1 one's
  (`HandOffPair.BothInForceIff`, `HandOffPair.MarkSharedThenLost`; state by state
  while one interface changes, `HandOffPair.OtherKeptIff`).
- An inbound the renderer refuses is committed before it is rendered: the call
  fails, the same call again says "unchanged", and the file stays the old one
  (`InterfaceRuns.RefusedThenUnchanged`; over runs, the file is the render of
  memory exactly when memory renders, `InterfaceRuns.RunKeepsInv`). The same
  happens when the bring-up fails: the repeat succeeds with the interface down
  (`InterfaceRuns.DownThenUnchanged`).
- A user whose 1.x address is withdrawn stays on the 1.x interface, while one
  whose 3.1 address is withdrawn leaves the 3.1 one (`InterfacePair.ScopedIff`).
- A leg tunnel's text is checked only up to its first line of 64 KiB; the scanner
  stops there and its error is not read, so that a hook after it is accepted
  (`TunnelText.LongLineAccepted`, `TunnelText.HookAfterLongLine`, and exactly when,
  `TunnelText.VouchesIffNoLongLine`).
- A changed leg tunnel whose interface will not go down leaves the new file beside
  the old interface, and the next push of the same block succeeds without a
  command (`TunnelProofs.KeepsCoherentIff`, `TunnelProofs.RetrySucceedsOnTheOldConfig`).
- A successful dump without a peer's line is taken for a zero counter, and the
  next poll bills that peer's whole life (`TrafficRuns.MissingLineOverbills`, and
  exactly when, `TrafficRuns.NeverOverbilledIff`).
- A bounce between two polls is seen only by a counter that has gone back: when more
  passes after it than the counter held before, the old counter is taken for billed
  growth (`TrafficRuns.UnnoticedBounceUnderbills`, and exactly when,
  `TrafficRuns.BilledAcrossResetsIff`).
- A hand-off remembered before its interface has an inbound is not saved
  (`InterfaceCalls.RememberedThenForgotten`).
- A chain block refused leaves its failure on the node's card even after the running
  block is pushed again and succeeds (`ChainManager.FailureOutlivesItsBlock`).
- A mimicry packet of blanks is accepted and written as an empty value, and one
  with a blank at either end reads back shorter, as does a hook with a '#' in it
  (`AwgRoundTrip.ReadsBackAsMeantIff`).
- The server's tunnel address is the one after the network's own only if the
  subnet is written with its network address (and is not a single `x.x.x.255`),
  and the default MASQUERADE names the peers' network unless the subnet is
  written with the last address of its block
  (`Cidr.FirstHostIff`, `Cidr.HooksNameTheSubnetIff`).
- A restore returns early when no inbound is stored, so policies and resolvers
  are then not given back (`NodeBlocks.RestartIsFaithfulIff`).
- A push that tells no core anything, because the user core of the block in force
  is malformed, leaves a store a restart does not rebuild exactly when the chain
  refused the pushed block or nothing was stored before, and the cores draw
  something (`ChainPush.PushReplaysIff`). One way there is a block refused over a
  malformed one, the other a first block drawn over a cascade of the older form
  (`ChainPush.RefusedOverMalformed`, `ChainPush.MalformedOverCascade`).
- A refused inbound that moved to another core is stored but runs nowhere
  (`Inbounds.PushMatchesIff`).
- A link-port source whose name resolves only to addresses already named is
  reported as one that did not resolve (`LinkPorts.SetApartIsUnresolvedIff`).
- A link port two ingresses share is open to anyone as soon as one of them has no
  source that resolves, whatever the other names (`LinkPorts.WideAndNarrowIff`).
- A port whose packets are translated otherwise than before is not always flushed
  from conntrack: not one an earlier process left in the guard chain, and not one
  guarded again by moving the jump back above a redirect
  (`HopGuard.FlushCompleteIff`, `HopGuard.StalePortNotFlushed`,
  `HopGuard.MovedJumpNotFlushed`).
- A certificate with an empty first DNS name makes the names check pass whatever
  else is lost (`CertStore.MissingNames`).
- A missed deadline puts the pair before the rotation back only if that pair
  chains, or if the timer meets the deadline in the process that rotated; the
  payload's pair is taken at first without that question
  (`CertStore.MissedDeadlineRestoresIff`).

## Model

| member | source | states |
|---|---|---|
| HandOff.DownMirrorsUp | apps/node/internal/core/amneziawg/chain_tproxy.go:52-91 | the PostDown lines are for the PostUp lines' rules, last first |
| HandOffProofs.DownTakesUpAway | apps/node/internal/core/amneziawg/chain_tproxy.go:52-91 | after an interface's PostUp lines went in, its PostDown lines each find their rule, leave as many of every rule as there were before, and the very same list when none of the lines was there |
| HandOffProofs.SweepLineOk | apps/node/internal/core/amneziawg/chain_tproxy.go:116-130 | sweeping a line reports "still succeeds" exactly when there are 64 copies of it or more |
| HandOffProofs.SweepLineEnds | apps/node/internal/core/amneziawg/chain_tproxy.go:116-130 | a sweep that ends leaves no copy of its line and, in every state on the way, touches nothing else |
| HandOffProofs.SweepEnds | apps/node/internal/core/amneziawg/adapter.go:1190-1195 | sweeping a list of lines succeeds exactly when none has 64 copies, and then removes precisely those rules |
| HandOffProofs.SwapEnds | apps/node/internal/core/amneziawg/adapter.go:1132-1151 | for any kernel: a swap succeeds exactly when no line to be swept has 64 copies and every new line is taken; the next-only lines are then there once, the prev-only ones not at all and every other rule as often as before |
| HandOffProofs.ChangeNeverUnsteered | apps/node/internal/core/amneziawg/adapter.go:1121-1165 | from a hand-off in force with fewer than 64 copies of its own lines: every state of a change, whatever is refused and whatever residue of the new lines is there, holds all of the old hand-off or all of the new one; a failed change ends on the old one |
| HandOffProofs.UndoRestores | apps/node/internal/core/amneziawg/adapter.go:1156-1165 | a change refused at any added line ends on the rules it started from, in their order, less the residue of the new lines |
| HandOffProofs.ChangeAlwaysSound | apps/node/internal/core/amneziawg/chain_tproxy.go:52-91 | where nothing but the two hand-offs steers this interface or uses their marks: in every state of a change a TPROXY rule has its ip rule, route and INPUT accept, and local traffic returns before it |
| HandOffPair.BothCounts | apps/node/internal/core/amneziawg/adapter.go:1036-1046 | how often each rule is there after the changes of both interfaces, one after the other |
| HandOffPair.BothInForceIff | apps/node/internal/core/amneziawg/adapter.go:1020-1046 | for any kernel, marks already shared included: where the lines a hand-off keeps are there, as they are when it was in force, the 1.x one ends in force exactly when it is not given the mark the 3.1 interface is leaving, and the 3.1 one exactly when it does not keep a mark the 1.x one had as well |
| HandOffPair.MarkHandedOn | apps/node/internal/core/amneziawg/adapter.go:1020-1046 | a payload that passes every check and ends with the 1.x hand-off out of force |
| HandOffPair.MarkSharedThenLost | apps/node/internal/core/amneziawg/adapter.go:1020-1046 | for any ports and marks two payloads that pass every check: the 3.1 half of the first is refused and undone, both hand-offs are in force on one mark, and the second ends with the 3.1 one out of force |
| HandOffPair.OtherKeptIff | apps/node/internal/core/amneziawg/adapter.go:1121-1165 | while one interface changes, wherever the kernel refuses, the other's hand-off is in force in every state exactly when the lines that change are not for its mark: not the new set's, swept before they are added, nor, once all are taken, the old set's |
| HandOffProofs.AddEnds | apps/node/internal/core/amneziawg/adapter.go:1144-1149 | adding lines succeeds exactly when the kernel takes them all, and every rule is then there once more for each line that is for it |
| HandOffRun.Kernel.AddLines | apps/node/internal/core/amneziawg/adapter.go:1144-1149 | the loop of adds, stopped by the first refusal, comes to the modelled one, state by state |
| HandOffRun.Kernel.SweepOne | apps/node/internal/core/amneziawg/chain_tproxy.go:116-130 | the bounded loop of deletes comes to the sweep of that line, state by state |
| HandOffRun.LinesWithout | apps/node/internal/core/amneziawg/adapter.go:1176-1188 | the loop keeps, in order, the lines the other list does not hold |
| HandOffRun.Kernel.SwapChainLive | apps/node/internal/core/amneziawg/adapter.go:1132-1151 | the swap run line by line comes to the modelled one, with the same result and the same states on the way |
| HandOffRun.Kernel.UndoSwap | apps/node/internal/core/amneziawg/adapter.go:1156-1165 | the undo sweeps the lines only the new set holds |
| HandOffRun.Kernel.ChangeLive | apps/node/internal/core/amneziawg/adapter.go:1090-1108 | the live branch of a cascade apply comes to the modelled change, the swap and its undo, state by state; what that does to a packet is said by HandOffPackets.ChangeHandsTo |
| HandOffPackets.ChangeHandsTo | apps/node/internal/core/amneziawg/chain_tproxy.go:56-91 | the list read packet by packet, from a kernel in which nobody else steers the interface: after a change that succeeded every TCP and UDP packet it brings in for someone else comes to the new hand-off's port under its mark, after one that failed to the old one's, and the node's own is never steered |
| HandOffPackets.AlwaysDelivered | apps/node/internal/core/amneziawg/adapter.go:1121-1165 | in every state on the way, whatever is refused and whatever residue is there, each such packet comes to the old port or the new one, each under its own mark |
| HandOffPackets.AcceptStaysAhead | apps/node/internal/core/amneziawg/chain_tproxy.go:62-69 | the accept of the hand-off in force stays ahead of every rule of the host's |
| Traffic.MergeStats | apps/node/internal/core/amneziawg/adapter.go:533-555 | merging two interfaces' statistics keeps every user's sum and the totals, and is NoData only when both are |
| Traffic.Meter.Silent | apps/node/internal/core/amneziawg/adapter.go:557-600 | an interface that does not answer bills nobody and leaves the counters for its next answer |
| Traffic.Meter.Poll | apps/node/internal/core/amneziawg/adapter.go:557-641 | what one poll bills each user in terms of two snapshots, resets and first sight included, and the snapshot it leaves; told counter by counter by Traffic.DueIsTheLine |
| Traffic.DueIsTheLine | apps/node/internal/core/amneziawg/adapter.go:608-626 | a user is due nothing at first sight, the growth of each counter, and the whole of one that went back, received and sent bytes apart |
| TrafficRuns.NextBillIff | apps/node/internal/core/amneziawg/adapter.go:600-641 | what "covered" means: the next answer that prints a peer bills it no more than passed exactly when it is covered now |
| TrafficRuns.CoveredAnswerIff | apps/node/internal/core/amneziawg/adapter.go:600-641 | an answer whose printed lines are true keeps a peer covered exactly when it prints its line, or the bill so far leaves room for all its counter holds |
| TrafficRuns.NeverOverbilledIff | apps/node/internal/core/amneziawg/adapter.go:520-641 | over any run of traffic, bounces, peer churn and polls that are silent or true in what they print, a peer is covered all along exactly when every answer in it is of that kind |
| TrafficRuns.NeverOverbilled | apps/node/internal/core/amneziawg/adapter.go:520-641 | in such a run no key is billed more than it carried since its first baseline |
| TrafficRuns.FreshNeverOverbills | apps/node/internal/core/amneziawg/adapter.go:74-80 | a fresh agent over an interface up for years bills none of its past |
| TrafficRuns.NothingLost | apps/node/internal/core/amneziawg/adapter.go:557-641 | without a reset, a removal or an answer that hides its counter, what a peer is billed is its last counter less the baseline, however many polls were silent |
| TrafficRuns.BilledIsPassed | apps/node/internal/core/amneziawg/adapter.go:557-641 | between two answered polls of such a run the panel is billed exactly the bytes that passed |
| TrafficRuns.AnswerBills | apps/node/internal/core/amneziawg/adapter.go:612-626 | an answer that prints a tracked peer raises its bill by the growth since the last one, and by exactly the kernel's counter when that has gone below it |
| TrafficRuns.NoneUnaccounted | apps/node/internal/core/amneziawg/adapter.go:603-628 | over any run in which the key stays a peer and every answer tells its counter, bounces included: every byte that passed is billed, missed by a bounce, or still to be told |
| TrafficRuns.BilledAcrossResetsIff | apps/node/internal/core/amneziawg/adapter.go:603-628 | such a run bills exactly what passed if and only if every bounce came with all bytes told and the next answer found the counter below the last one; it never bills more |
| TrafficRuns.UnnoticedBounceUnderbills | apps/node/internal/core/amneziawg/adapter.go:616-623 | a run outside it: more passes after the bounce than the counter held before, and the old counter is never billed |
| TrafficRuns.MissingLineOverbills | apps/node/internal/core/amneziawg/adapter.go:652-676 | the case outside the condition: an answer that lacks a peer's line makes the next one bill that peer's lifetime |
| WgKey.AcceptedIff | apps/node/internal/core/amneziawg/config.go:225-237 | a key is accepted exactly when it is 43 letters of the base64 alphabet and one '=', so no line break the decoder skips can hide in it |
| WgKey.AlphabetIs | apps/node/internal/core/amneziawg/config.go:218-231 | the alphabet of a key, by code |
| WgKey.FourForThree | apps/node/internal/core/amneziawg/config.go:225-237 | what decodes to n bytes has a multiple of four characters, within two bytes of three quarters of them |
| Numbers.ReadPrint | apps/node/internal/core/amneziawg/chain_tproxy.go:56-57 | numbers printed in decimal or hexadecimal read back as themselves |
| Numbers.PrintIntInjective | apps/node/internal/core/amneziawg/config.go:351-363 | two different numbers never print alike |
| Cidr.ReadPrintPrefix | apps/node/internal/core/amneziawg/inbound.go:201-215 | a printed IPv4 prefix reads back as itself |
| Cidr.ReadPrefixIff | apps/node/internal/core/amneziawg/config.go:197-207 | a text reads as an IPv4 prefix exactly when it is the print of one: four octets, a length up to 32, no leading zeros |
| Cidr.IsPrefixIff | apps/node/internal/core/amneziawg/config.go:239-246 | a peer may be given exactly an IPv4 prefix as it is printed, or an IPv6 address with a length up to 128 |
| Cidr.NetworkOf | apps/node/internal/core/amneziawg/config.go:197-207 | the network of a prefix, octet by octet: kept, zero, or rounded down to the power of two where the prefix ends |
| Cidr.FirstHostIff | apps/node/internal/core/amneziawg/inbound.go:199-215 | the server takes the address after the network's own exactly when the subnet is written with its network address and its last octet does not wrap, which only that of a single address can |
| Cidr.HooksNameTheSubnetIff | apps/node/internal/core/amneziawg/config.go:197-207 | the network named by the default MASQUERADE is the subnet's, unless the subnet is written with the last address of its block |
| Ini.ReadPrint | apps/node/internal/core/amneziawg/config.go:331-333 | a printed `key = value` line reads back as that key and that value, as far as a reader takes it |
| Ini.ReadSection | apps/node/internal/core/amneziawg/config.go:417-420 | a header and its lines read as one more section, after whatever was read before |
| HookText.LineOk | apps/node/internal/core/amneziawg/config.go:45-60 | a line of plain words under a listed command passes the whitelist and reads back unchanged |
| HookText.LineSplits | apps/node/internal/core/amneziawg/chain_tproxy.go:114-118 | splitting a line on spaces gives back exactly its words: run without a shell it is the same command |
| HookText.ChainLinesOk | apps/node/internal/core/amneziawg/chain_tproxy.go:85-89 | the hand-off's own lines are never refused by the whitelist they are put through, for any accepted port and mark |
| HookText.LinesTellRulesApart | apps/node/internal/core/amneziawg/adapter.go:1176-1188 | comparing hand-off lines as texts, as the swap does, is comparing the rules they are for |
| HookText.HookOkIff | apps/node/internal/core/amneziawg/config.go:33-60 | a hook is let through exactly when it is empty, or begins with one of the five commands and holds no shell character |
| HookText.IpRuleArgv | apps/node/internal/core/amneziawg/chain_tproxy.go:60 | the argv of the line that looks the mark up in the table of its number |
| HookText.LocalRouteArgv | apps/node/internal/core/amneziawg/chain_tproxy.go:61 | the argv of the line that delivers that table to this node |
| HookText.AcceptArgv | apps/node/internal/core/amneziawg/chain_tproxy.go:62-69 | the argv of the line that accepts the mark at the top of INPUT |
| HookText.ReturnArgv | apps/node/internal/core/amneziawg/chain_tproxy.go:70-72 | the argv of the line that lets the node's own traffic out |
| HookText.SteerArgv | apps/node/internal/core/amneziawg/chain_tproxy.go:73-78 | the argv of the lines that steer TCP and UDP to the port under the mark |
| AwgConfig.Render | apps/node/internal/core/amneziawg/config.go:319-424 | the file is written line by line exactly as the modelled text, and refused when any part is; what stands under each of its keys is said by the AwgKeys rows |
| AwgConfig.RenderHooks | apps/node/internal/core/amneziawg/config.go:394-405 | one line per hook, in order, unless any is refused |
| AwgConfig.RenderSlots | apps/node/internal/core/amneziawg/config.go:364-370 | a line for each mimicry packet that is set, under its own number |
| AwgConfig.RenderPeers | apps/node/internal/core/amneziawg/config.go:407-421 | one section per peer, in order, unless any is refused |
| AwgRoundTrip.PrefixIsPlain | apps/node/internal/core/amneziawg/config.go:239-246 | an accepted peer address has nothing in it that a reader would cut or trim |
| AwgRoundTrip.DefaultsOk | apps/node/internal/core/amneziawg/config.go:148-193 | an interface that names no hooks gets ones that pass the whitelist and read back as written |
| AwgRoundTrip.ReadsBack | apps/node/internal/core/amneziawg/config.go:319-424 | the file of any accepted 1.x interface reads as one [Interface] with its directives in order and one [Peer] per peer with exactly its key and address |
| AwgRoundTrip.AsWrittenIff | apps/node/internal/core/amneziawg/config.go:331-333 | a one-line value reads back as itself exactly when it holds no '#' and no blank at either end |
| AwgRoundTrip.ReadsBackAsMeantIff | apps/node/internal/core/amneziawg/config.go:248-274 | the file reads exactly as meant if and only if no mimicry packet has a blank at either end, and the address and the operator's own hooks have none either and hold no '#' |
| AwgRoundTrip.BlankPacketReadsEmpty | apps/node/internal/core/amneziawg/config.go:364-370 | a packet of one blank is accepted, gets a line and reads as an empty value |
| AwgRoundTrip.SubnetAddressIsPlain | apps/node/internal/core/amneziawg/inbound.go:201-215 | the address from a subnet is one line, with no '#' and no outer blank |
| AwgRoundTrip.SameFileSameConfig | apps/node/internal/core/amneziawg/config.go:319-424 | two accepted 1.x interfaces have the same text exactly when all their parameters, hooks and peers, in order, are the same, mimicry packets and hooks to the last blank |
| AwgKeys.HeadByKey | apps/node/internal/core/amneziawg/config.go:329-333 | read back, a 1.x file's PrivateKey, ListenPort and Address are the interface's, the port 51820 when none is set |
| AwgKeys.NumbersByKey | apps/node/internal/core/amneziawg/config.go:352-364 | and under Jc, Jmin, Jmax, S1 to S4 and H1 to H4 stands each number, once |
| AwgKeys.PacketsByKey | apps/node/internal/core/amneziawg/config.go:365-371 | and under I1 to I5 the packet of that slot, or nothing when it is empty |
| AwgKeys.HooksByKey | apps/node/internal/core/amneziawg/config.go:387-408 | and under PostUp the interface's own hooks, then the hand-off's; under PostDown the hand-off's, then its own |
| AwgKeys.NoOtherKeys | apps/node/internal/core/amneziawg/config.go:322-408 | and no other key |
| AwgKeys.PeersByKey | apps/node/internal/core/amneziawg/config.go:410-426 | and one Peer section for each peer, in order, with its key and address and nothing else |
| AwgKeys.RenderedIff | apps/node/internal/core/amneziawg/config.go:273-320 | a 1.x interface is rendered exactly when key, headers, junk bounds, packets, hand-off, own hooks and peers each pass, spelled out |
| AwgKeys.DefaultUpArgv | apps/node/internal/core/amneziawg/config.go:148-184 | the argv of the default hooks going up |
| AwgKeys.DefaultDownArgv | apps/node/internal/core/amneziawg/config.go:185-193 | and coming down |
| PeerOrder.SortedPeers | apps/node/internal/core/amneziawg/adapter.go:1367-1376 | every peer once, sorted by address text |
| PeerOrder.OneArrangementIff | apps/node/internal/core/amneziawg/adapter.go:1367-1376 | successive renders list the peers alike exactly when no two users share an address with different keys |
| Interface.Iface.AddPeer | apps/node/internal/core/amneziawg/adapter.go:406-439 | the new state and result of adding a peer, its skip and its refusal included |
| Interface.Iface.RemoveOne | apps/node/internal/core/amneziawg/adapter.go:482-496 | the new state and result of removing one |
| Interface.Iface.ApplyInbound | apps/node/internal/core/amneziawg/adapter.go:787-861 | the new state and result of a pushed inbound: unchanged, refused for its subnet, or committed and bounced |
| Interface.Iface.BounceFrom | apps/node/internal/core/amneziawg/adapter.go:863-926 | a config that does not render takes nothing down; else the down runs the hooks of the file as it was before the new one is written, and the state each later failure leaves is stated |
| Interface.Iface.SyncFile | apps/node/internal/core/amneziawg/adapter.go:932-973 | write and reload, and what each failure leaves |
| Interface.Iface.ApplyCascade | apps/node/internal/core/amneziawg/adapter.go:1048-1112 | the new state and result of a hand-off: remembered, refused, swapped in place or brought up with; which hand-off is then in force is said by the InterfaceCalls rows |
| Interface.Iface.IdleOne | apps/node/internal/core/amneziawg/adapter.go:311-335 | the key is forgotten, saved and the interface down, once |
| Interface.Iface.RetainInbounds | apps/node/internal/core/amneziawg/adapter.go:290-309 | an interface whose binding the push no longer names goes idle, any other is left alone |
| Interface.Iface.Load | apps/node/internal/core/amneziawg/state.go:74-110 | what a new agent starts from: the saved inbound under the install's hooks, and the saved peers that are valid |
| Interface.Iface.StartOne | apps/node/internal/core/amneziawg/adapter.go:218-266 | deferred without a key, else written and brought up, an interface still up left as it runs |
| InterfaceRuns.StepKeepsInv | apps/node/internal/core/amneziawg/adapter.go:406-496 | every call and agent restart keeps: if memory renders, file and saved state are memory's |
| InterfaceRuns.RunKeepsInv | apps/node/internal/core/amneziawg/adapter.go:769-1112 | over any run of calls and restarts in which no write fails, whatever is pushed: the file is the render of memory exactly when memory can be rendered |
| InterfaceRuns.FirstAgentInv | apps/node/internal/core/amneziawg/adapter.go:148-159 | a freshly installed agent is a state those runs may start from |
| InterfaceRuns.FileIsTheRender | apps/node/internal/core/amneziawg/adapter.go:1355-1376 | with no address shared between keys, it is the one render, byte for byte |
| InterfaceRuns.NoDiffIsSame | apps/node/internal/core/amneziawg/inbound.go:247-269 | "no difference" is equality: the pushed inbound, hooks and hand-off carried over, is the one in memory |
| InterfaceRuns.AppliedIsOnDiskIff | apps/node/internal/core/amneziawg/adapter.go:818-860 | after an apply that succeeded the file is the render, unless the inbound it repeats is one the renderer refuses |
| InterfaceRuns.RefusedThenUnchanged | apps/node/internal/core/amneziawg/adapter.go:849-856 | that case: refused once, "unchanged" the second time, the old file in place |
| InterfaceRuns.AddedWhileRefused | apps/node/internal/core/amneziawg/adapter.go:422-438 | meanwhile an added user is refused once and passed over as known the second time |
| InterfaceRuns.AppliedIsRunningIff | apps/node/internal/core/amneziawg/adapter.go:818-823 | after an apply that succeeded the interface runs its file, unless nothing changed and it did not before |
| InterfaceRuns.DownThenUnchanged | apps/node/internal/core/amneziawg/adapter.go:914-916 | that case: the bring-up failed, and the same inbound again succeeds with the interface down |
| InterfaceRuns.RestartCostsNothing | apps/node/internal/core/amneziawg/state.go:12-31 | an agent restart gives memory and file back whole, leaves a running interface running, and makes the same inbound pushed again no change |
| InterfaceCalls.CascadeSucceedsIff | apps/node/internal/core/amneziawg/adapter.go:1048-1112 | a hand-off is taken exactly when it is there already, is only remembered, or renders and the swap or the bring-up goes through |
| InterfaceCalls.CascadeTaken | apps/node/internal/core/amneziawg/adapter.go:1054-1112 | once taken it is the one in memory, nothing else there changes, and on a configured interface the file is the render with it |
| InterfaceCalls.CascadeFailed | apps/node/internal/core/amneziawg/adapter.go:1071-1112 | a failed one leaves the old hand-off in memory exactly when the renderer refused it or the swap failed |
| InterfaceCalls.RunHandOff | apps/node/internal/core/amneziawg/adapter.go:769-1112 | over any run of calls and agent restarts in which no write fails, the hand-off in memory is that of the last ApplyCascade that succeeded or failed only in bringing a downed interface up, and the file is the render with it whenever memory renders |
| InterfaceCalls.LastSucceededIsLast | apps/node/internal/core/amneziawg/adapter.go:1048-1112 | without such failures it is that of the last one that succeeded |
| InterfaceCalls.RememberedThenForgotten | apps/node/internal/core/amneziawg/adapter.go:1058-1065 | one remembered before the interface has its inbound is not known to the next agent |
| InterfaceCalls.ApplySucceedsIff | apps/node/internal/core/amneziawg/adapter.go:787-861 | an inbound is applied exactly when it says nothing new, or moves no peer's subnet, renders, is written and comes up |
| InterfaceCalls.ApplyTaken | apps/node/internal/core/amneziawg/adapter.go:787-861 | what is then in force, field by field: the push's key, address, obfuscation and geometry, its port if it names one, the interface's own name, hooks and hand-off; and the file is its render |
| InterfaceCalls.SubnetHeldIff | apps/node/internal/core/amneziawg/adapter.go:824-836 | a subnet peers hold addresses of is refused and nothing but the binding changes |
| InterfaceCalls.AddSucceedsIff | apps/node/internal/core/amneziawg/adapter.go:406-439 | a user is added exactly when not this interface's, known, only remembered, or written and loaded |
| InterfaceCalls.AddedIsServed | apps/node/internal/core/amneziawg/adapter.go:932-973 | and the interface then runs the file that lists them |
| InterfaceCalls.RemovedIsGone | apps/node/internal/core/amneziawg/adapter.go:482-496 | a removed one is in neither memory nor the file it runs |
| InterfaceCalls.RetainedIff | apps/node/internal/core/amneziawg/adapter.go:290-335 | an interface whose binding is named is left; one whose binding is not goes down and forgets its key, in memory and on disk |
| InterfaceCalls.SavedIsFound | apps/node/internal/core/amneziawg/state.go:48-110 | the agent after a write finds inbound, binding and users as they were |
| InterfaceCalls.FoundFieldByField | apps/node/internal/core/amneziawg/state.go:74-110 | what a new agent finds of anything saved, field by field: the install's hooks, its port where none was saved, the rest as saved, the users whose peers are fit |
| InterfaceCalls.StartSucceedsIff | apps/node/internal/core/amneziawg/adapter.go:218-266 | an agent's start succeeds exactly when there is nothing to start, or it renders, is written and comes up |
| InterfacePair.Adapter.AddUser | apps/node/internal/core/amneziawg/adapter.go:389-404 | what adding a user does to both interfaces, and where it stops |
| InterfacePair.Adapter.AddUserOn | apps/node/internal/core/amneziawg/adapter.go:455-479 | what a scoped add does to both interfaces, and where it stops |
| InterfacePair.Adapter.RemoveUser | apps/node/internal/core/amneziawg/adapter.go:443-450 | what a removal does to both, the 3.1 one first |
| InterfacePair.ScopedIff | apps/node/internal/core/amneziawg/adapter.go:452-479 | after a scoped add the user is on exactly the interfaces named and addressed, but for the one case in which a 1.x peer stays; nobody else moves |
| InterfacePair.PlacedWhereNamed | apps/node/internal/core/amneziawg/adapter.go:452-479 | the same told by what the panel names and the account has, interface by interface |
| InterfacePair.BothSucceedIff | apps/node/internal/core/amneziawg/adapter.go:389-450 | an add or a removal over both succeeds exactly when each interface's own part does |
| InterfacePair.OneAddress | apps/node/internal/core/amneziawg/adapter.go:1378-1384 | a bare address becomes a peer with that one address |
| InterfacePair.ScopedKeepsInv | apps/node/internal/core/amneziawg/adapter.go:455-479 | a scoped add keeps both interfaces' files what the runs above make them, even when it stops half way |
| InterfacePair.RemovedFromBoth | apps/node/internal/core/amneziawg/adapter.go:443-450 | a removal that succeeded leaves the user on neither interface and nobody else moved |
| InterfacePair.WithdrawnAddressStays | apps/node/internal/core/amneziawg/adapter.go:406-409 | a user pushed without a 1.x address keeps the 1.x peer it had |
| NodeBlocks.Node.Accept | apps/node/internal/server/store.go:111-128 | the loop over the cores computes the block to store and the exceptions kept for those that refused it |
| NodeBlocks.Node.Push | apps/node/internal/server/server.go:1252-1287 | what every core runs and what is stored after a push of a policy or resolver block |
| NodeBlocks.Node.Restart | apps/node/internal/server/server.go:1800-1839 | what a new process hands back to each core |
| NodeBlocks.PushKeepsFaithful | apps/node/internal/server/store.go:99-141 | a push keeps: the block the store names for a core is the one that core runs |
| NodeBlocks.StoreIsWhatRuns | apps/node/internal/server/store.go:84-141 | over any run of pushes with arbitrary refusals, and restarts, the store hands each core the block it runs, so a restart is not seen |
| NodeBlocks.FreshIsFaithful | apps/node/internal/server/store.go:55-79 | a node that has stored nothing is a state those runs may start from |
| NodeBlocks.RestartIsFaithfulIff | apps/node/internal/server/server.go:1806-1820 | a restart is faithful exactly when the stored push holds an inbound or no core ran a block |
| NodeBlocks.RestartAfterPush | apps/node/internal/server/store.go:132-141 | what a push settles for the next restart, core by core: the pushed block where it was taken, the old one elsewhere |
| NodeBlocks.PushRuns | apps/node/internal/server/server.go:1252-1287 | after a push each core that can render the block runs it and every other what it ran, a literal null being no block |
| NodeBlocks.PushStores | apps/node/internal/server/store.go:111-128 | the store takes the block as soon as one core does, and keeps the old one when none does |
| ChainManager.Manager.Apply | apps/node/internal/chain/chain.go:301-405 | the new state and result of a pushed chain block, at each point where it can stop |
| ChainManager.Manager.ReservedPorts | apps/node/internal/chain/chain.go:255-289 | the ports reported are exactly the block's socks ports on tcp and its hand-off port on tcp and udp |
| ChainBlock.TProxyPortIff | apps/node/internal/chain/chain.go:277-289 | the hand-off's port reserved is the 1.x interface's if it is steered anywhere, else the 3.1 one's |
| ChainBlock.NoTProxyPortIff | apps/node/internal/chain/chain.go:277-289 | and none exactly when neither is |
| ChainBlock.SameCompactIff | apps/node/internal/chain/chain.go:407-428 | two blocks are the same once compacted exactly when nothing but the spacing of their config tells them apart |
| ChainManager.ApplySucceedsIff | apps/node/internal/chain/chain.go:301-405 | a push succeeds exactly when it withdraws the chain, repeats the running block, or every check and step goes through |
| ChainManager.HealthIff | apps/node/internal/chain/chain.go:301-473 | the card says failed exactly when the push failed, or repeats the running block while an earlier failure stands |
| ChainManager.FailureOutlivesItsBlock | apps/node/internal/chain/chain.go:324-331 | a run in that case: a block refused, the running one pushed again, and the failure stays |
| ChainManager.StepKeepsInv | apps/node/internal/chain/chain.go:301-461 | every push, crash, respawn and agent restart keeps the manager's invariant |
| ChainManager.RunKeepsInv | apps/node/internal/chain/chain.go:301-461 | over any run at most one chain process is alive and it is the recorded one; an accepted block's config is on disk and the reserved ports are its own |
| ChainManager.RefusedTouchesNothing | apps/node/internal/chain/chain.go:301-344 | a block refused before it is accepted changes only the health report |
| ChainManager.ReapplyIsNothing | apps/node/internal/chain/chain.go:407-429 | the running block pushed again, spacing aside, changes nothing at all |
| ChainManager.AcceptedWhateverFollows | apps/node/internal/chain/chain.go:350-368 | an acceptable block is accepted and its ports reserved whatever the tunnels and the process then do |
| ChainManager.SuccessRunsTheBlock | apps/node/internal/chain/chain.go:301-405 | a push that reports success runs exactly its block, or nothing when it carries none |
| ChainPush.Server.Push | apps/node/internal/server/server.go:1305-1414 | what the chain, the cores' drawings and the store are after a push; which core then holds which half is said by ChainPush.WhoDraws |
| ChainPush.CoresFollowChain | apps/node/internal/server/server.go:1305-1414 | after a push with a chain block the cores are drawn to the block the chain has accepted, or to the refused one when none is, and that same block is stored |
| ChainPush.WhoDraws | apps/node/internal/server/server.go:1346-1410 | after a push with a chain block, engine by engine: each core of the followed user core's engine holds exactly that engine's half, fragments, socks or tproxy marks in their places, every other core draws nothing, and a malformed one leaves every core what it held |
| ChainPush.WhoDrawsWithoutChain | apps/node/internal/server/server.go:1375-1410 | without one, the cascade of the older form is drawn by its engine's cores alone |
| ChainPush.WhoDrawsAfterRestart | apps/node/internal/server/server.go:1305-1410 | the same of what a restart reads from the store |
| ChainPush.PushReplaysIff | apps/node/internal/server/server.go:1305-1414 | from a store that rebuilds what runs, a push leaves what a restart rebuilds exactly when the cores were told, or the chain took the block over a stored one, or the cores draw nothing |
| ChainPush.PushKeepsChain | apps/node/internal/server/store.go:176-190 | the stored block rebuilds the chain in force after every push |
| ChainPush.RefusedOverMalformed | apps/node/internal/server/server.go:1305-1414 | a run outside it, from a fresh node: a block, one with a malformed user core, one that cannot be read |
| ChainPush.MalformedOverCascade | apps/node/internal/server/server.go:1305-1414 | another run outside it, with nothing refused: a cascade of the older form is drawn, then a first block with a malformed user core is accepted, and a restart hands the cores nothing |
| ChainPush.RunReplays | apps/node/internal/server/server.go:1305-1414 | over any run of pushes with well-formed user cores, and restarts, the store rebuilds the chain and what every core draws for it |
| ChainPush.FreshIsGood | apps/node/internal/server/store.go:55-79 | so is one with no chain, whatever config file lies on its disk |
| Inbounds.AcceptedNamed | apps/node/internal/server/store.go:158-175 | what is stored under each id after a push: the pushed inbound, the one stored before it, or nothing |
| Inbounds.AcceptedUnique | apps/node/internal/server/store.go:158-175 | ids stay unique in the store |
| Inbounds.Server.AcceptedPush | apps/node/internal/server/store.go:158-175 | the loop stores exactly those |
| Inbounds.Server.CloseDropped | apps/node/internal/server/server.go:1682-1714 | exactly the ports the old inbounds needed and the new ones do not are closed, protected ones aside |
| Inbounds.Server.Push | apps/node/internal/server/server.go:1477-1543 | what runs, what is stored and what is open after a push; no port a stored inbound needs is closed on the way |
| Inbounds.Server.Restart | apps/node/internal/server/server.go:1754-1839 | a new process opens the stored inbounds' ports and gives each core its stored inbounds |
| Inbounds.PushMatchesIff | apps/node/internal/server/server.go:1477-1543 | after a push with arbitrary refusals the cores run exactly the stored inbounds, if and only if no refused inbound has moved to another core |
| Inbounds.MovedAndRefused | apps/node/internal/server/server.go:1477-1543 | a run outside it: an inbound moves to another core, which refuses it; it stays stored and runs nowhere |
| Inbounds.RestartMatches | apps/node/internal/server/server.go:1800-1839 | a restart brings the cores back to exactly what they ran |
| Inbounds.PushPortsFollow | apps/node/internal/server/server.go:1503-1523 | the open ports are the stored inbounds' after a push, protected leftovers aside |
| Inbounds.RestartPortsFollow | apps/node/internal/server/server.go:1754-1774 | and after a restart |
| Inbounds.StoredIsRunning | apps/node/internal/server/store.go:158-175 | over any run of pushes with arbitrary refusals, and restarts, the cores run exactly the stored inbounds and the open ports are theirs |
| Inbounds.OpenedFor | apps/node/internal/server/server.go:39-85 | which rules an inbound needs: UDP, TCP or both, by its protocol and, for xray, its network |
| Inbounds.NeverClosed | apps/node/internal/server/server.go:1646-1714 | a push closes nothing on SSH's port, ACME's or the agent's own, and nothing no inbound needed |
| TunnelText.ValidateTunnel | apps/node/internal/chain/tunnels.go:54-100 | the line-by-line check accepts exactly a leg tunnel's name, a port and a text whose every scanned key is listed for the section it stands in, with one interface and one peer |
| TunnelText.WholeTextChecked | apps/node/internal/chain/tunnels.go:61-99 | without a line of 64 KiB that is said of the whole text |
| TunnelText.RestIsNotRead | apps/node/internal/chain/tunnels.go:61-63 | with one, whatever follows it does not change the verdict |
| TunnelText.LongLineAccepted | apps/node/internal/chain/tunnels.go:61-99 | there are accepted texts with such a line: two headers and any line of 64 KiB |
| TunnelText.HookAfterLongLine | apps/node/internal/chain/tunnels.go:61-63 | an accepted text with one is still accepted with a hook put at its end, and is then not well-formed |
| TunnelText.VouchesIffNoLongLine | apps/node/internal/chain/tunnels.go:61-99 | the verdict on an accepted text with more lines after it is that of all its lines, whatever those are, exactly when it holds no line of 64 KiB |
| TunnelText.NoOtherKey | apps/node/internal/chain/tunnels.go:31-50 | no scanned line of an accepted text is a hook or a resolver |
| TunnelText.LegNameIff | apps/node/internal/chain/tunnels.go:27-31 | a leg is named by the prefix and one to three digits |
| TunnelText.KeysOfSection | apps/node/internal/chain/tunnels.go:33-51 | which settings each section takes, and none before the first header |
| Tunnels.Manager.SweepTunnels | apps/node/internal/chain/tunnels.go:166-201 | which interfaces and files the sweep leaves, and when it succeeds |
| Tunnels.Manager.RaiseTunnel | apps/node/internal/chain/tunnels.go:121-148 | one tunnel kept, re-raised or failed, and the commands issued for it |
| Tunnels.Manager.ApplyTunnels | apps/node/internal/chain/tunnels.go:113-150 | the sweep, then the tunnels in order up to one that fails |
| TunnelProofs.SuccessConverges | apps/node/internal/chain/tunnels.go:109-201 | from any state of the machine a run that succeeds leaves exactly the block's legs and files, and every other interface as it was |
| TunnelProofs.RunsTheBlockIff | apps/node/internal/chain/tunnels.go:125-128 | its legs run the block's configs exactly when none was kept that its file did not raise |
| TunnelProofs.KeepsCoherentIff | apps/node/internal/chain/tunnels.go:132-145 | a run keeps files and interfaces in agreement exactly when it was not stopped by a changed tunnel that would not go down |
| TunnelProofs.CoherentSuccessRuns | apps/node/internal/chain/tunnels.go:113-150 | from agreement, success means every leg runs the block's config |
| TunnelProofs.RetrySucceedsOnTheOldConfig | apps/node/internal/chain/tunnels.go:125-141 | the case outside it: a failed push, then the same block succeeding on the old config |
| TunnelProofs.SecondRunQuietIff | apps/node/internal/chain/tunnels.go:109-112 | an immediate second run issues no command exactly when the block gives no interface two configs |
| TunnelProofs.RaisedIff | apps/node/internal/chain/tunnels.go:121-148 | a tunnel comes up exactly when it is left alone, or written, taken down if it was there, and raised; its interface and file are then its own |
| TunnelProofs.CommandsFor | apps/node/internal/chain/tunnels.go:125-141 | what is run for it |
| LinkPorts.ResolveSources | apps/node/internal/firewall/firewall.go:217-254 | the addresses named or resolved to, each once, and the names that brought nothing new |
| LinkPorts.SetApartIsUnresolvedIff | apps/node/internal/firewall/firewall.go:217-254 | the names set apart are exactly those that did not resolve, which is how they are reported, if and only if every name that resolves brings an address no entry before it brought |
| LinkPorts.ResolvedYetSetApart | apps/node/internal/firewall/firewall.go:217-254 | lists outside it: a hop named by its address and then its name, or by its name twice |
| LinkPorts.Firewall.AllowRule | apps/node/internal/firewall/firewall.go:76-112 | a valid rule is present afterwards, cached or not, and no other changes |
| LinkPorts.Firewall.CloseRule | apps/node/internal/firewall/firewall.go:117-136 | a valid rule is gone afterwards, and from the cache |
| LinkPorts.Firewall.EnsureChain | apps/node/internal/server/chain_firewall.go:100-151 | the saved set is the block's wanted rules, the machine's follow it, and none that is wanted is closed on the way |
| LinkPorts.RunReconciled | apps/node/internal/server/chain_firewall.go:100-151 | over any run of pushes, restarts and the agent's other changes the chain's open rules are the saved set |
| LinkPorts.OpenIsWanted | apps/node/internal/server/chain_firewall.go:100-151 | and the wanted set of the last block under the last name resolution |
| LinkPorts.WideAndNarrowIff | apps/node/internal/server/chain_firewall.go:105-131 | in a whole block a port is wanted both open to anyone and from named hops exactly when two ingresses share it, one with a source that resolves and one with none |
| LinkPorts.WideOrNarrow | apps/node/internal/server/chain_firewall.go:105-131 | never both, where no two ingresses share a port and a transport |
| LinkPorts.OneNameOpensThePort | apps/node/internal/server/chain_firewall.go:105-131 | a block that does: one hop's name fails to resolve, and the port the other's address was to guard is open to anyone |
| HopGuard.EnsureJump | apps/node/internal/hopguard/hopguard.go:158-189 | for any PREROUTING exactly one jump, ahead of every redirect, the other rules in order, and nothing to do the second time |
| HopGuard.GuardedNotRedirected | apps/node/internal/hopguard/hopguard.go:76-91 | a packet the guard accepts is only ever judged by a rule ahead of the jump that does not redirect |
| HopGuard.OthersUntouched | apps/node/internal/hopguard/hopguard.go:76-91 | every other packet is judged as if there were no guard |
| HopGuard.SymmetricDiff | apps/node/internal/hopguard/hopguard.go:216-229 | the ports whose membership changed, sorted, once each |
| HopGuard.SortedUnique | apps/node/internal/hopguard/hopguard.go:240-244 | the same ports, sorted, once each |
| HopGuard.MapsEqual | apps/node/internal/hopguard/hopguard.go:246-256 | equal sizes and one inclusion are equality |
| HopGuard.Guard.Sync | apps/node/internal/hopguard/hopguard.go:99-136 | with its writes going through, each family says exactly the wanted ports behind a well-placed jump, and the flush covers what changed since this process's last sync |
| HopGuard.RunAgrees | apps/node/internal/hopguard/hopguard.go:99-136 | what the process remembers is what the chains say, over any run |
| HopGuard.SyncGuards | apps/node/internal/hopguard/hopguard.go:76-136 | right after any sync of any run no UDP packet to a wanted port is redirected and every packet the guard does not accept is judged as before |
| HopGuard.ChainChangesFlushedIff | apps/node/internal/hopguard/hopguard.go:111-133 | every port that enters or leaves the chain is flushed exactly when this process has synced before or found nothing stale in it |
| HopGuard.PortTreatmentIff | apps/node/internal/hopguard/hopguard.go:76-189 | a port's packets are translated as before by every possible rule set, judged packet by packet, exactly when it stays out of the chain, or leaves it with no rule below the jump that is not above it too, or stays in it with the jump not moved up past a rule |
| HopGuard.FlushCompleteIff | apps/node/internal/hopguard/hopguard.go:99-214 | every port whose packets are translated otherwise than before is flushed exactly when, in a process that has synced, the jump is not moved up past a rule or no wanted port was in the chain, and in one that has not, the chain held nothing stale or the jump shielded it from no rule |
| HopGuard.StalePortNotFlushed | apps/node/internal/hopguard/hopguard.go:111-133 | a run outside it: a port synced, the agent restarted, the port taken out from before a redirect without a flush |
| HopGuard.MovedJumpNotFlushed | apps/node/internal/hopguard/hopguard.go:153-189 | another: a redirect put above the jump, the same ports synced again, the port guarded again without a flush |
| CertStore.MissingNames | apps/node/internal/certstore/certstore.go:336-359 | "nothing missing" exactly when the new leaf carries every name, or the first it lacks is the empty one |
| CertStore.Store.Open | apps/node/internal/certstore/certstore.go:96-144 | what a start finds: the pair on disk if it loads and chains, a pending rotation resumed or rolled back by its deadline |
| CertStore.Store.Rotate | apps/node/internal/certstore/certstore.go:227-261 | when a rotation is taken, and the whole new state in memory and on disk |
| CertStore.Store.Confirm | apps/node/internal/certstore/certstore.go:265-283 | when a confirmation is taken, and the whole new state |
| CertStore.Store.Rollback | apps/node/internal/certstore/certstore.go:299-316 | the previous pair back in memory and on disk |
| CertStore.Store.Fire | apps/node/internal/certstore/certstore.go:285-296 | the timer rolls back what is still pending and nothing else |
| CertStore.StepKeepsInv | apps/node/internal/certstore/certstore.go:96-316 | every operation and restart keeps the store's invariant |
| CertStore.ServedIsTrusted | apps/node/internal/certstore/certstore.go:96-359 | over any run the pair served is the payload's, a confirmed one or the pending one, names all the payload's names, and while one is pending the previous pair is the one in force before it |
| CertStore.MissedDeadlineRestoresIff | apps/node/internal/certstore/certstore.go:96-316 | over every run, whatever the payload and the names: a missed deadline puts the pair before the rotation back in memory and on disk exactly when that pair chains or the timer meets the deadline in the process that rotated; otherwise the unconfirmed pair is served on; an early restart waits on |
| CertStore.MissedDeadlineRestores | apps/node/internal/certstore/certstore.go:285-316 | so from a payload that chains, in a run without empty names, a missed deadline always restores that pair, whether the timer or a restart meets it |
| CertStore.RestartServesTheSame | apps/node/internal/certstore/certstore.go:96-144 | a restart before the deadline serves the same pair and waits on |
| CertStore.RestoredIffPayloadChains | apps/node/internal/certstore/certstore.go:104-140 | the case of a first rotation: a late restart goes back exactly when the payload's leaf chains |
| CertStore.ServedWasPresented | apps/node/internal/certstore/certstore.go:227-261 | over every run: a pair served or kept to go back to is the payload's, or was presented with its own key, chained, and was in date when it was taken |
| CertStore.RotatesIff | apps/node/internal/certstore/certstore.go:227-250 | when a rotation is taken, condition by condition |
| CertStore.TenMinutes | apps/node/internal/certstore/certstore.go:42-43 | the deadline is ten minutes away, to the second |
| CertStore.RecordOnDisk | apps/node/internal/certstore/certstore.go:124-142 | a start waits on for the record of the pair it serves and removes any other |
| CertStore.EmptyNameLosesTheRest | apps/node/internal/certstore/certstore.go:336-359 | a rotation that loses every name, let through by an empty one |
| VersionText.ParsePrint | packages/shared/src/core-versions.ts:406-415 | a printed version reads back as itself |
| VersionText.NormalizeKeepsVersion | packages/shared/src/core-versions.ts:409-415 | normalising keeps the version, is idempotent, and gives nothing exactly for what is no version |
| VersionText.SuffixIff | packages/shared/src/core-versions.ts:406-408 | the characters of a suffix |
| CoreVersions.Compare | packages/shared/src/core-versions.ts:427-439 | the comparison's loop gives the answer the order defines |
| CoreVersions.OneAnswer | packages/shared/src/core-versions.ts:427-439 | and there is one such answer |
| CoreVersions.Antisymmetric | packages/shared/src/core-versions.ts:427-439 | turning the arguments round turns the answer round, "cannot say" included |
| CoreVersions.Transitive | packages/shared/src/core-versions.ts:427-439 | "at most" is transitive, and strict as soon as one step is |
| CoreVersions.MissingIsZero | packages/shared/src/core-versions.ts:431-435 | versions that differ in trailing zeros only tie |
| CoreVersions.WithheldIff | packages/shared/src/core-versions.ts:417-439 | on two versions the answer is withheld exactly when the numbers tie and the suffixes differ |
| CoreVersions.NormalizeKeepsOrder | packages/shared/src/core-versions.ts:409-439 | comparing normalised texts is comparing the texts |
| CoreVersions.Judge | packages/shared/src/core-versions.ts:524-550 | the verdict's loop gives the verdict the marks define |
| CoreVersions.OnlyWhenCertain | packages/shared/src/core-versions.ts:524-550 | known-bad and above-ceiling are said only where the order certainly holds |
| CoreVersions.MeantIs | packages/shared/src/core-versions.ts:524-550 | what was asked for is meant before the pin |
| CoreRenderers.CheckIntent | packages/shared/src/core-versions.ts:455-481 | a problem is reported for exactly the keys that name no component or name a version that is not listed, and so for none exactly when the intent is valid |
| CoreRenderers.Resolve | packages/shared/src/core-versions.ts:483-499 | the resolved releases are the chosen ones, for exactly the components that have one |
| CoreRenderers.ComponentsOfEngine | packages/shared/src/core-versions.ts:567-570 | the components listed for an engine are exactly its own |
| CoreRenderers.InstallVars | packages/shared/src/core-versions.ts:591-627 | the install command's variables are its components' pairs, and it is pinned exactly when every component gave one |
| CoreRenderers.CoreEnv | apps/node/internal/payload/coreenv.go:85-126 | the lines are those of the components that give a safe pair, always in pairs, and every other is warned about |
| CoreRenderers.PairIff | apps/node/internal/payload/coreenv.go:91-123 | a component gives a pair exactly when its tag and commit, or its version and checksum for this arch, have their shapes |
| CoreRenderers.VersionShapeIff | apps/node/internal/payload/coreenv.go:48 | what a version may be |
| CoreRenderers.TagShapeIff | apps/node/internal/payload/coreenv.go:49 | what a tag may be |
| CoreRenderers.HexShapeIff | apps/node/internal/payload/coreenv.go:50-51 | what a checksum or a commit may be |
| CoreRenderers.ComponentAgrees | packages/shared/src/core-versions.ts:383-389 | for one component the two renderers give the same lines |
| CoreRenderers.RenderersAgree | apps/node/internal/payload/coreenv.go:85-126 | for every manifest, intent and arch what the install commands of all engines set is what core-env sets from the resolved versions |
| Heartbeat.Threshold | apps/node/internal/heartbeat/heartbeat.go:150-153 | the threshold is the configured one exactly when that is positive, and three otherwise |
| Heartbeat.StatusIff | apps/node/internal/heartbeat/heartbeat.go:247-287 | what a poll's answer says, by its code and body |
| Heartbeat.Run | apps/node/internal/heartbeat/heartbeat.go:187-236 | the loop fires exactly at the first poll where the node was known and the 410 answers since reach the threshold |
| Heartbeat.FailuresDoNotCount | apps/node/internal/heartbeat/heartbeat.go:247-287 | errors, 401 and 5xx neither advance nor reset the count: leaving them out changes nothing |
| Heartbeat.MemoryMeans | apps/node/internal/heartbeat/heartbeat.go:187-236 | the loop's two variables are the count since the last active or disabled answer, and whether there was one |
| Heartbeat.GoneNeedsThreshold | apps/node/internal/heartbeat/heartbeat.go:205-225 | it never fires before as many polls as the threshold |
| Heartbeat.NeverKnownNeverGone | apps/node/internal/heartbeat/heartbeat.go:205-225 | a run with no active or disabled answer never fires |

## Left out

- HTTP, TLS and mTLS, the JSON texts, logging, metrics, systemd and subprocess supervision: environment steps or opaque values.
- The front end, the panel's scripts, the geo store, the connection log and the finite tables: enumeration or plumbing.
- Locks: each call is one step; the order restartMu before mu is not part of this model, and neither is a call that meets another half way.
- Traffic.Meter.Poll: what `awg show dump` prints is given as a table of counters; parsing its lines is not modelled.
- HandOffRun.Kernel.AddLines: the kernel takes a number of lines and refuses the rest; a refusal followed by an acceptance is not modelled, since a swap stops at its first refusal.
- HandOffPackets.ChangeHandsTo: TCP and UDP over IPv4; mangle PREROUTING, the mark's lookup and INPUT are read, the rest of the host's tables are not.
- HandOffProofs.DownTakesUpAway: the lines are modelled as the rules they add or delete; their texts are in HookText.
- AwgRoundTrip.ReadsBack: 1.x interfaces only; the 3.1 block's lines come from the geometry's own table, and the Address must be one line, which the address from a subnet is: no check of the source refuses another.
- AwgConfig.Render: IPv6 addresses are judged by the library, of texts with their characters only; how a line names its own interface (`%i`) is a word given from outside.
- Cidr.FirstHostIff: an IPv4 subnet written in IPv6-mapped form is not modelled.
- The interface's health probe and the one-time removal of the old MASQUERADE rule: they change neither file nor memory.
- InterfaceRuns.RunKeepsInv: runs in which no write fails; a state file that cannot be saved is only logged by the source and is not modelled.
- ChainPush.RunReplays: runs whose blocks carry a well-formed user core, a stored inbound, and cores that accept the drawing they are handed (an error there is only logged).
- Inbounds.StoredIsRunning: ids unique within a push and each kept on its core, the condition Inbounds.PushMatchesIff shows is needed; every inbound has a core; a restart falls between pushes.
- The idling of cores a push names nothing for, and the adapters' own checks of one inbound against the others.
- Tunnels.Manager.ApplyTunnels: opening the tunnel's firewall port is not modelled; blanks beyond ASCII in a tunnel's text are not trimmed by the model.
- LinkPorts.RunReconciled: commands and saves succeed, and the link ports are apart from the inbound ports.
- HopGuard.Guard.Sync: a write that failed half way and is asked for the older state again is not promised anything.
- CertStore.ServedIsTrusted: X.509 is a record of names, times and whether it chains; a fingerprint is the leaf itself; writes succeed, and a crash in the middle of a rotation is not modelled.
- CoreVersions.Compare: numbers are compared as the rounding reader takes them, given as a function of the digits: any reading will do, the rounding one of the source among them.
- An agent without a chain manager, and the older store format that is a bare list of inbounds.
